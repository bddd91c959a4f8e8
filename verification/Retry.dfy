/** Calls retried with a growing wait. What a call answers is read from a script; time is exact. */
module Retry {
  import opened Wrappers

  /** What one gRPC call comes back with: a value, an RpcError, or any other exception. */
  datatype RpcOutcome<T> = Success(value: T) | Failure(code: int) | Threw(error: string)

  /** What one HTTP request does: a response of any status, or an exception, as of a connection or a timeout. */
  datatype HttpOutcome = Response(status: int, body: string) | Raised(error: string)

  datatype Policy = Policy(maxAttempts: int, initialBackoff: int, maxBackoff: int, multiplier: real,
                           httpCodes: seq<int>, grpcCodes: seq<int>)
  {
    predicate Valid() {
      -1 <= maxAttempts && 1 <= initialBackoff && 1 <= maxBackoff && 1.0 <= multiplier && httpCodes != [] && grpcCodes != []
    }

    /** An endless policy, or one that allows this many calls. */
    predicate Allows(calls: int) { maxAttempts == -1 || calls <= (if maxAttempts == 0 then 1 else maxAttempts) }

    predicate RetriesRpc<T>(outcome: RpcOutcome<T>) { outcome.Failure? && outcome.code in grpcCodes }
    predicate RetriesHttp(outcome: HttpOutcome) { outcome.Response? && outcome.status in httpCodes }

    function Backoff(attempt: nat): real {
      var wait := initialBackoff as real * Power(multiplier, attempt);
      if maxBackoff as real <= wait then maxBackoff as real else wait
    }

    function Waits(count: nat): seq<real> { seq(count, i requires 0 <= i => Backoff(i)) }
  }

  function MakePolicy(maxAttempts: int, initialBackoff: int, maxBackoff: int, multiplier: real,
                      httpCodes: seq<int>, grpcCodes: seq<int>): (r: Result<Policy, string>)
    ensures r.Ok? <==> Policy(maxAttempts, initialBackoff, maxBackoff, multiplier, httpCodes, grpcCodes).Valid()
    ensures r.Ok? ==> r.value == Policy(maxAttempts, initialBackoff, maxBackoff, multiplier, httpCodes, grpcCodes)
  {
    if maxAttempts < -1 then Err("max_attempts must be greater than or equal to -1")
    else if initialBackoff < 1 then Err("initial_backoff must be greater than or equal to 1")
    else if maxBackoff < 1 then Err("max_backoff must be greater than or equal to 1")
    else if multiplier < 1.0 then Err("backoff_multiplier must be greater than or equal to 1")
    else if httpCodes == [] then Err("retryable_http_status_codes can't be empty")
    else if grpcCodes == [] then Err("retryable_http_status_codes can't be empty")
    else Ok(Policy(maxAttempts, initialBackoff, maxBackoff, multiplier, httpCodes, grpcCodes))
  }

  function Power(base: real, n: nat): real { if n == 0 then 1.0 else Power(base, n - 1) * base }

  // When the calls end -------------------------------------------------------

  /** For each call of a script, whether it is worth another. */
  function RpcAgain<T>(policy: Policy, script: seq<RpcOutcome<T>>): seq<bool> {
    seq(|script|, i requires 0 <= i < |script| => policy.RetriesRpc(script[i]))
  }

  function HttpAgain(policy: Policy, script: seq<HttpOutcome>): seq<bool> {
    seq(|script|, i requires 0 <= i < |script| => policy.RetriesHttp(script[i]))
  }

  /** The calls end with this one: none before was final, and this one is, or is the last allowed. */
  ghost predicate EndsAt(policy: Policy, again: seq<bool>, calls: nat) {
    1 <= calls <= |again|
    && (forall i :: 0 <= i < calls - 1 ==> again[i])
    && policy.Allows(calls)
    && (!again[calls - 1] || !policy.Allows(calls + 1))
  }

  /** The script is long enough for the calls to end: only an endless policy needs a final outcome in it. */
  ghost predicate Enough(policy: Policy, again: seq<bool>) {
    (exists i :: 0 <= i < |again| && !again[i]) || !policy.Allows(|again| + 1)
  }

  function FirstFinal(again: seq<bool>): (i: nat)
    ensures i <= |again|
    ensures i < |again| ==> !again[i]
    ensures forall j :: 0 <= j < i ==> again[j]
  {
    if again == [] || !again[0] then 0 else 1 + FirstFinal(again[1..])
  }

  function Least(a: int, b: int): int { if a <= b then a else b }

  /** The number of calls is one past the first final outcome, or all that are allowed, whichever is smaller. */
  lemma CallsAre(policy: Policy, again: seq<bool>, calls: nat)
    requires policy.Valid() && EndsAt(policy, again, calls)
    ensures policy.maxAttempts == -1 ==> calls == FirstFinal(again) + 1
    ensures policy.maxAttempts != -1 ==>
      calls == Least(FirstFinal(again) + 1, if policy.maxAttempts == 0 then 1 else policy.maxAttempts)
  {
  }

  /** There is such a call, whatever the outcomes, as soon as the script is long enough. */
  lemma CallsEndIff(policy: Policy, again: seq<bool>)
    requires policy.Valid()
    ensures Enough(policy, again) <==> exists calls: nat :: EndsAt(policy, again, calls)
  {
    if calls: nat :| EndsAt(policy, again, calls) {
      assert !again[calls - 1] || !policy.Allows(|again| + 1);
    }
    if Enough(policy, again) {
      var first := FirstFinal(again) + 1;
      var calls := if policy.Allows(first) then first else if policy.maxAttempts == 0 then 1 else policy.maxAttempts;
      assert EndsAt(policy, again, calls);
    }
  }

  /** A larger allowance only ever adds calls, and none once an outcome was final. */
  lemma MoreAttempts(policy: Policy, more: int, again: seq<bool>, calls: nat, calls': nat)
    requires policy.Valid() && 0 <= policy.maxAttempts && (more == -1 || policy.maxAttempts <= more)
    requires EndsAt(policy, again, calls) && EndsAt(policy.(maxAttempts := more), again, calls')
    ensures calls <= calls'
    ensures !again[calls - 1] ==> calls' == calls
    ensures again[calls' - 1] ==> again[calls - 1]
  {
  }

  // How long it waits --------------------------------------------------------

  lemma {:induction false} PowerGrows(base: real, n: nat)
    requires 1.0 <= base
    ensures 1.0 <= Power(base, n) <= Power(base, n + 1)
  {
    if n > 0 { PowerGrows(base, n - 1); }
    MultiplyKeepsOrder(1.0, base, Power(base, n));
  }

  lemma MultiplyKeepsOrder(a: real, b: real, k: real)
    requires a <= b && 0.0 <= k
    ensures k * a <= k * b
  {
  }

  /** Every wait is at least the one before, at least a second, and at most the longest allowed. */
  lemma BackoffGrows(policy: Policy, attempt: nat)
    requires policy.Valid()
    ensures 1.0 <= policy.Backoff(attempt) <= policy.Backoff(attempt + 1) <= policy.maxBackoff as real
  {
    PowerGrows(policy.multiplier, attempt);
    var k := policy.initialBackoff as real;
    MultiplyKeepsOrder(Power(policy.multiplier, attempt), Power(policy.multiplier, attempt + 1), k);
    MultiplyKeepsOrder(1.0, Power(policy.multiplier, attempt), k);
  }

  /** The first wait is the initial one, each next is the one before times the multiplier, and the longest
      allowed cuts them all. */
  lemma BackoffIs(policy: Policy, attempt: nat)
    requires policy.Valid()
    ensures policy.Backoff(0) == Shorter(policy.initialBackoff as real, policy.maxBackoff as real)
    ensures policy.Backoff(attempt + 1) == Shorter(policy.Backoff(attempt) * policy.multiplier, policy.maxBackoff as real)
  {
    var k, p, m, most := policy.initialBackoff as real, Power(policy.multiplier, attempt), policy.multiplier, policy.maxBackoff as real;
    assert Power(m, 0) == 1.0 && k * 1.0 == k;
    Associate(k, p, m);
    if most <= k * p {
      MultiplyKeepsOrder(1.0, m, most);
      MultiplyKeepsOrder(1.0, m, k * p);
    }
  }

  function Shorter(a: real, b: real): real { if b <= a then b else a }

  lemma Associate(a: real, b: real, c: real)
    ensures a * (b * c) == (a * b) * c
  {
  }

  function Sum(waits: seq<real>): real { if waits == [] then 0.0 else Sum(waits[..|waits| - 1]) + waits[|waits| - 1] }

  /** Between its calls a retried call waits at most the longest wait each time, and at least a second. */
  lemma {:induction false} TotalWait(policy: Policy, count: nat)
    requires policy.Valid()
    ensures count as real <= Sum(policy.Waits(count)) <= count as real * policy.maxBackoff as real
  {
    hide Sum, Power;
    if count > 0 {
      TotalWait(policy, count - 1);
      BackoffGrows(policy, count - 1);
      var before, wait, most := policy.Waits(count - 1), policy.Backoff(count - 1), policy.maxBackoff as real;
      assert policy.Waits(count) == before + [wait];
      SumAppend(before, wait);
      OneMore((count - 1) as real, most);
    } else {
      NoWait(policy);
    }
  }

  lemma NoWait(policy: Policy)
    ensures Sum(policy.Waits(0)) == 0.0
  {
  }

  lemma SumAppend(waits: seq<real>, wait: real)
    ensures Sum(waits + [wait]) == Sum(waits) + wait
  {
    assert (waits + [wait])[..|waits|] == waits;
  }

  lemma OneMore(n: real, most: real)
    ensures (n + 1.0) * most == n * most + most
  {
  }

  // The loops ----------------------------------------------------------------

  method RunRpc<T>(policy: Policy, script: seq<RpcOutcome<T>>) returns (r: RpcOutcome<T>, calls: nat, waits: seq<real>)
    requires policy.Valid() && Enough(policy, RpcAgain(policy, script))
    ensures EndsAt(policy, RpcAgain(policy, script), calls)
    ensures r == script[calls - 1]
    ensures waits == policy.Waits(calls - 1)
  {
    waits := [];
    if policy.maxAttempts == 0 {
      return script[0], 1, waits;
    }
    var attempt := 0;
    while policy.maxAttempts == -1 || attempt < policy.maxAttempts
      invariant 0 <= attempt <= |script| && policy.Allows(attempt + 1)
      invariant forall i :: 0 <= i < attempt ==> policy.RetriesRpc(script[i])
      invariant waits == policy.Waits(attempt)
      decreases |script| - attempt
    {
      r, calls := script[attempt], attempt + 1;
      if !r.Failure? { return; }
      if r.code !in policy.grpcCodes { return; }
      if policy.maxAttempts != -1 && attempt == policy.maxAttempts - 1 { return; }
      waits := waits + [policy.Backoff(attempt)];
      attempt := attempt + 1;
    }
    assert false;
  }

  /** The asynchronous loop makes a call, then awaits it, and hands back the call beside its result, for the
      metadata it carries: the call is known by its place in the script. */
  method RunRpcAsync<T>(policy: Policy, script: seq<RpcOutcome<T>>) returns (r: RpcOutcome<T>, call: nat, calls: nat, waits: seq<real>)
    requires policy.Valid() && Enough(policy, RpcAgain(policy, script))
    ensures EndsAt(policy, RpcAgain(policy, script), calls)
    ensures call == calls - 1 && r == script[call]
    ensures waits == policy.Waits(calls - 1)
  {
    waits := [];
    if policy.maxAttempts == 0 {
      call := 0;
      return script[call], call, 1, waits;
    }
    var attempt := 0;
    while policy.maxAttempts == -1 || attempt < policy.maxAttempts
      invariant 0 <= attempt <= |script| && policy.Allows(attempt + 1)
      invariant forall i :: 0 <= i < attempt ==> policy.RetriesRpc(script[i])
      invariant waits == policy.Waits(attempt)
      decreases |script| - attempt
    {
      call, calls := attempt, attempt + 1;
      r := script[call];
      if !r.Failure? { return; }
      if r.code !in policy.grpcCodes { return; }
      if policy.maxAttempts != -1 && attempt == policy.maxAttempts - 1 { return; }
      waits := waits + [policy.Backoff(attempt)];
      attempt := attempt + 1;
    }
    assert false;
  }

  method MakeHttpCall(policy: Policy, script: seq<HttpOutcome>) returns (r: HttpOutcome, calls: nat, waits: seq<real>)
    requires policy.Valid() && Enough(policy, HttpAgain(policy, script))
    ensures EndsAt(policy, HttpAgain(policy, script), calls)
    ensures r == script[calls - 1]
    ensures waits == policy.Waits(calls - 1)
  {
    waits := [];
    if policy.maxAttempts == 0 {
      return script[0], 1, waits;
    }
    var attempt := 0;
    while policy.maxAttempts == -1 || attempt < policy.maxAttempts
      invariant 0 <= attempt <= |script| && policy.Allows(attempt + 1)
      invariant forall i :: 0 <= i < attempt ==> policy.RetriesHttp(script[i])
      invariant waits == policy.Waits(attempt)
      decreases |script| - attempt
    {
      r, calls := script[attempt], attempt + 1;
      if r.Raised? || r.status !in policy.httpCodes { return; }
      if policy.maxAttempts != -1 && attempt == policy.maxAttempts - 1 { return; }
      waits := waits + [policy.Backoff(attempt)];
      attempt := attempt + 1;
    }
    assert false;
  }

  /** Over outcomes alike in what is worth another call, the loops over RPCs, awaited or not, and over
      requests make the same calls and the same waits. */
  lemma LoopsAgree<T>(policy: Policy, rpc: seq<RpcOutcome<T>>, http: seq<HttpOutcome>, calls: nat, calls': nat)
    requires policy.Valid() && RpcAgain(policy, rpc) == HttpAgain(policy, http)
    requires EndsAt(policy, RpcAgain(policy, rpc), calls) && EndsAt(policy, HttpAgain(policy, http), calls')
    ensures calls == calls' && policy.Waits(calls - 1) == policy.Waits(calls' - 1)
  {
  }
}
