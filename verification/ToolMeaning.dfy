/** What coercion makes of a value, and what the schema of a type asks for, said without either. */
module ToolMeaning {
  import opened Wrappers
  import opened ToolTypes
  import opened ToolBinding

  // --- Values that need no coercion -----------------------------------------------------------------

  /** A value that inhabits its hint is passed on as it is, at every depth. */
  lemma {:induction false} CoerceKeeps(py: Python, v: Value, t: Type)
    requires NoUnion(t) && HasType(v, t)
    ensures Coerce(py, v, t) == Some(v)
    decreases t
  {
    match t
    case TList(elem) =>
      forall i | 0 <= i < |v.items| ensures Coerce(py, v.items[i], elem) == Some(v.items[i]) {
        CoerceKeeps(py, v.items[i], elem);
      }
      assert Coerce(py, v, t).value.items == v.items;
    case TDict(value) =>
      forall k <- v.entries ensures Coerce(py, v.entries[k], value) == Some(v.entries[k]) {
        CoerceKeeps(py, v.entries[k], value);
      }
      assert Coerce(py, v, t).value.entries == v.entries;
    case TLiteral(lits) =>
    case TEnum(name, members) =>
    case TNone =>
    case TStr =>
    case TInt =>
    case TFloat =>
    case TBool =>
  }

  predicate Accepts(py: Python, v: Value, t: Type) { if t.TNone? then v.VNone? else Coerce(py, v, t).Some? }

  /** A union takes its first option that accepts, and is refused if none does. */
  lemma {:induction false} UnionTakesTheFirst(py: Python, v: Value, options: seq<Type>, i: nat)
    requires i <= |options| && forall j :: 0 <= j < i ==> !Accepts(py, v, options[j])
    requires i < |options| ==> Accepts(py, v, options[i])
    ensures CoerceUnion(py, v, options) ==
            if i == |options| then None else if options[i].TNone? then Some(VNone) else Coerce(py, v, options[i])
    decreases i
  {
    hide Coerce;
    if i > 0 {
      assert !Accepts(py, v, options[0]);
      assert forall j :: 0 <= j < |options[1..]| ==> options[1..][j] == options[j + 1];
      UnionTakesTheFirst(py, v, options[1..], i - 1);
    }
  }

  // --- Values that are converted --------------------------------------------------------------------

  predicate Equals(n: int, r: real) { n as real == r }

  /** An integral float is the integer it equals, and no other float is one; a string is read as a number
      without the spaces around it; and an integer is a float if float() takes it. */
  lemma NumbersConvert(py: Python, r: real, i: int, s: string)
    ensures (exists n: int :: Equals(n, r)) <==> Coerce(py, VFloat(r), TInt).Some?
    ensures forall n: int :: Equals(n, r) ==> Coerce(py, VFloat(r), TInt) == Some(VInt(n))
    ensures Coerce(py, VStr(s), TInt) == match py.readInt(py.strip(s)) case Some(n) => Some(VInt(n)) case None => None
    ensures Coerce(py, VStr(s), TFloat) == match py.readFloat(py.strip(s)) case Some(x) => Some(VFloat(x)) case None => None
    ensures Coerce(py, VInt(i), TFloat) == match py.floatOfInt(i) case Some(x) => Some(VFloat(x)) case None => None
  {
    IntegralIff(r);
    forall n: int | Equals(n, r) ensures n == r.Floor {}
  }

  /** A bool is the float one or zero, what is no scalar is no number, and anything but a string and a dict is
      shown for a string. */
  lemma OthersConvert(py: Python, v: Value)
    ensures v.VBool? ==> Coerce(py, v, TFloat) == Some(VFloat(if v.b then 1.0 else 0.0))
    ensures v.VNone? || v.VList? || v.VMember? ==>
              Coerce(py, v, TInt) == None && Coerce(py, v, TFloat) == None && Coerce(py, v, TBool) == None
    ensures !v.VStr? && !v.VDict? ==>
              Coerce(py, v, TStr) == match py.show(v) case Some(x) => Some(VStr(x)) case None => None
  {
  }

  /** Five words, in any case and with spaces around them, are true, and five are false; any other is no
      bool.  An integer is true unless it is zero, and a float is no bool. */
  lemma BoolsConvert(py: Python, s: string, i: int, r: real)
    ensures var w := py.lower(py.strip(s));
            var yes := w == "true" || w == "1" || w == "yes" || w == "y" || w == "on";
            var no := w == "false" || w == "0" || w == "no" || w == "n" || w == "off";
            && (yes ==> Coerce(py, VStr(s), TBool) == Some(VBool(true)))
            && (no ==> Coerce(py, VStr(s), TBool) == Some(VBool(false)))
            && (!yes && !no ==> Coerce(py, VStr(s), TBool) == None)
    ensures Coerce(py, VInt(i), TBool) == Some(VBool(i != 0)) && Coerce(py, VFloat(r), TBool) == None
  {
    var w := py.lower(py.strip(s));
    assert "true"[0] == 't' && "1"[0] == '1' && "yes"[0] == 'y' && "on"[0] == 'o' && "on"[1] == 'n';
    assert "false"[0] == 'f' && "0"[0] == '0' && "no"[0] == 'n' && "off"[0] == 'o' && "off"[1] == 'f';
  }

  predicate FirstThat(i: nat, n: nat, holds: seq<bool>)
    requires |holds| == n
  {
    i < n && holds[i] && forall j :: 0 <= j < i ==> !holds[j]
  }

  /** An enum is looked for by value; a string, failing that, by name without the spaces around it, and
      failing that by name in any case; and always the first member wins. */
  lemma EnumsConvert(py: Python, v: Value, name: string, members: seq<Member>)
    requires !(v.VMember? && v.enum == name && v.index < |members|)
    ensures var n := |members|;
            var byValue := seq(n, i requires 0 <= i < n => PyEq(v, members[i].value));
            var byName := seq(n, i requires 0 <= i < n => v.VStr? && members[i].name == py.strip(v.s));
            var anyCase := seq(n, i requires 0 <= i < n => v.VStr? && py.lower(members[i].name) == py.lower(py.strip(v.s)));
            match Coerce(py, v, TEnum(name, members))
            case Some(VMember(e, i)) =>
              && e == name && i < n
              && (FirstThat(i, n, byValue)
                  || (true !in byValue && FirstThat(i, n, byName))
                  || (true !in byValue && true !in byName && FirstThat(i, n, anyCase)))
            case Some(_) => false
            case None => true !in byValue && true !in byName && true !in anyCase
  {
  }

  /** The string reads as this number, for a target that is one of its kind. */
  predicate Reads(py: Python, s: string, target: Lit, r: Value) {
    || (target.LInt? && r.VInt? && py.readInt(s) == Some(r.i))
    || (target.LFloat? && r.VFloat? && py.readFloat(s) == Some(r.r))
  }

  ghost predicate IsRead(py: Python, s: string, targets: seq<Lit>, lits: seq<Lit>, r: Value) {
    exists i: nat :: FirstToRead(py, s, targets, lits, i, r)
  }

  /** For the i-th target the string reads as something in the list, and for none before it. */
  ghost predicate FirstToRead(py: Python, s: string, targets: seq<Lit>, lits: seq<Lit>, i: nat, r: Value) {
    && i < |targets| && Reads(py, s, targets[i], r) && InLits(r, lits)
    && forall j, q :: 0 <= j < i && Reads(py, s, targets[j], q) ==> !InLits(q, lits)
  }

  /** A literal in the list stays as it came.  Of anything else only a string is taken, as the first of its
      readings, over the numbers in the list, that is in the list too; and it is refused only without one. */
  lemma LiteralsConvert(py: Python, v: Value, lits: seq<Lit>)
    ensures InLits(v, lits) ==> Coerce(py, v, TLiteral(lits)) == Some(v)
    ensures !InLits(v, lits) ==>
              match Coerce(py, v, TLiteral(lits))
              case Some(r) => v.VStr? && IsRead(py, v.s, lits, lits, r)
              case None => v.VStr? ==> forall i, r :: 0 <= i < |lits| && Reads(py, v.s, lits[i], r) ==> !InLits(r, lits)
  {
    if !InLits(v, lits) { FirstReadIs(py, v, lits, lits); }
  }

  lemma {:induction false} FirstReadIs(py: Python, v: Value, targets: seq<Lit>, lits: seq<Lit>)
    requires !InLits(v, lits)
    ensures match FirstRead(py, v, targets, lits)
            case Some(r) => v.VStr? && IsRead(py, v.s, targets, lits, r)
            case None => v.VStr? ==> forall i, r :: 0 <= i < |targets| && Reads(py, v.s, targets[i], r) ==> !InLits(r, lits)
  {
    hide InLits;
    if targets != [] {
      var r0, rest := ReadAs(py, v, targets[0]), targets[1..];
      assert v.VStr? ==> forall q :: Reads(py, v.s, targets[0], q) ==> r0 == q;
      assert r0 == v || (v.VStr? && Reads(py, v.s, targets[0], r0));
      if InLits(r0, lits) {
        assert FirstToRead(py, v.s, targets, lits, 0, r0);
      } else {
        FirstReadIs(py, v, rest, lits);
        assert FirstRead(py, v, targets, lits) == FirstRead(py, v, rest, lits);
        assert forall j :: 0 < j < |targets| ==> targets[j] == rest[j - 1];
        forall i: nat, r | v.VStr? && FirstToRead(py, v.s, rest, lits, i, r)
          ensures FirstToRead(py, v.s, targets, lits, i + 1, r)
        {
          assert forall j :: 0 < j < i + 1 ==> targets[j] == rest[j - 1];
        }
      }
    }
  }

  /** Lists and dicts are converted item by item, and refused with the first that is refused. */
  lemma ContainersConvert(py: Python, v: Value, t: Type)
    ensures (Coerce(py, v, TList(t)).Some? <==> v.VList? && forall i :: 0 <= i < |v.items| ==> Coerce(py, v.items[i], t).Some?)
    ensures Coerce(py, v, TList(t)).Some? ==>
              var r := Coerce(py, v, TList(t)).value;
              r.VList? && |r.items| == |v.items| && forall i :: 0 <= i < |v.items| ==> Some(r.items[i]) == Coerce(py, v.items[i], t)
    ensures (Coerce(py, v, TDict(t)).Some? <==> v.VDict? && forall k <- v.entries :: Coerce(py, v.entries[k], t).Some?)
    ensures Coerce(py, v, TDict(t)).Some? ==>
              var r := Coerce(py, v, TDict(t)).value;
              r.VDict? && r.entries.Keys == v.entries.Keys && forall k <- v.entries :: Some(r.entries[k]) == Coerce(py, v.entries[k], t)
  {
  }

  // --- What a schema asks for -----------------------------------------------------------------------

  /** One type, beside None. */
  predicate IsOptional(options: seq<Type>) {
    TNone in options && exists i :: 0 <= i < |options| && OnlyOne(options, i)
  }

  predicate OnlyOne(options: seq<Type>, i: nat)
    requires i < |options|
  {
    !options[i].TNone? && forall j :: 0 <= j < |options| && j != i ==> options[j].TNone?
  }

  /** All literals, but for None, are of this type. */
  predicate OnePrim(lits: seq<Lit>, p: Prim) {
    && (exists i :: 0 <= i < |lits| && PrimOf(lits[i]) == p)
    && (forall i :: 0 <= i < |lits| ==> PrimOf(lits[i]) == p || PrimOf(lits[i]) == PNull)
  }

  /** The JSON values that the schema of a type is to admit.  An optional type admits its values and not
      null; literals of one type admit those only, and not null beside them; an enum, strings only. */
  ghost predicate Admitted(policy: EnumPolicy, v: Value, t: Type)
    decreases t
  {
    match t
    case TNone => v.VNone?
    case TStr => v.VStr?
    case TInt => v.VInt? || (v.VFloat? && exists n: int :: Equals(n, v.r))
    case TFloat => v.VInt? || v.VFloat?
    case TBool => v.VBool?
    case TList(elem) => v.VList? && forall i :: 0 <= i < |v.items| ==> Admitted(policy, v.items[i], elem)
    case TDict(value) => v.VDict? && forall k <- v.entries :: Admitted(policy, v.entries[k], value)
    case TUnion(options) =>
      exists i :: 0 <= i < |options| && (IsOptional(options) ==> !options[i].TNone?) && Admitted(policy, v, options[i])
    case TLiteral(lits) =>
      (exists i :: 0 <= i < |lits| && JsonEq(v, lits[i])) && forall p :: OnePrim(lits, p) && (p.PNull? ==> Nulls(lits)) ==> OfPrim(v, p)
    case TEnum(name, members) =>
      v.VStr? && (|members| <= policy.maxItems ==> exists i :: 0 <= i < |members| && members[i].value == LStr(v.s))
  }

  predicate Nulls(lits: seq<Lit>) { forall i :: 0 <= i < |lits| ==> lits[i].LNone? }

  lemma SharedPrimIff(lits: seq<Lit>, p: Prim)
    ensures SharedPrim(lits) == Some(p) <==> OnePrim(lits, p) && (p.PNull? ==> Nulls(lits))
  {
    var prims := set i | 0 <= i < |lits| :: PrimOf(lits[i]);
    assert forall i :: 0 <= i < |lits| ==> PrimOf(lits[i]) in prims;
    assert forall i :: 0 <= i < |lits| ==> (lits[i].LNone? <==> PrimOf(lits[i]) == PNull);
    if SharedPrim(lits) == Some(p) {
      assert p in prims && forall q <- prims :: q == p || q == PNull by { OneOfPrims(prims, lits, p); }
    }
    if OnePrim(lits, p) {
      assert p in prims;
      assert prims - {PNull} == if p.PNull? then {} else {p};
    }
  }

  lemma OneOfPrims(prims: set<Prim>, lits: seq<Lit>, p: Prim)
    requires prims == (set i | 0 <= i < |lits| :: PrimOf(lits[i])) && SharedPrim(lits) == Some(p)
    ensures p in prims && forall q <- prims :: q == p || q == PNull
    ensures p.PNull? ==> prims == {PNull}
  {
    assert p.PNull? ==> p in {PNull};
    assert !p.PNull? ==> prims - {PNull} == {p};
    assert !p.PNull? ==> p in prims - {PNull};
    assert forall q <- prims :: q == PNull || q in prims - {PNull};
  }

  /** How many options are not None. */
  function CountTypes(options: seq<Type>): nat {
    if options == [] then 0 else (if options[0].TNone? then 0 else 1) + CountTypes(options[1..])
  }

  lemma {:induction false} NotNoneCounts(options: seq<Type>)
    ensures |NotNone(options)| == CountTypes(options)
    decreases |options|
  {
    if options != [] { NotNoneCounts(options[1..]); }
  }

  lemma {:induction false} NoneOnly(options: seq<Type>, i: nat)
    requires CountTypes(options) == 0 && i < |options|
    ensures options[i].TNone?
    decreases |options|
  {
    if i > 0 { NoneOnly(options[1..], i - 1); }
  }

  lemma {:induction false} NonesCountNothing(options: seq<Type>)
    requires forall i :: 0 <= i < |options| ==> options[i].TNone?
    ensures CountTypes(options) == 0 && NotNone(options) == []
    decreases |options|
  {
    if options != [] {
      forall i | 0 <= i < |options[1..]| ensures options[1..][i].TNone? { assert options[i + 1].TNone?; }
      NonesCountNothing(options[1..]);
    }
  }

  /** If one is, there is a place where it stands, ... */
  lemma {:induction false} OneIsFound(options: seq<Type>) returns (i: nat)
    requires CountTypes(options) == 1
    ensures i < |options| && OnlyOne(options, i)
    decreases |options|
  {
    if options[0].TNone? {
      i := OneIsFound(options[1..]);
      var k := i;
      i := i + 1;
      forall j | 0 <= j < |options| && j != i ensures options[j].TNone? {
        if j > 0 { assert options[1..][j - 1].TNone? || j - 1 == k; }
      }
    } else {
      i := 0;
      forall j | 0 < j < |options| ensures options[j].TNone? { NoneOnly(options[1..], j - 1); }
    }
  }

  /** ... and where there is such a place, that one is all that is left. */
  lemma {:induction false} OneIsLeft(options: seq<Type>, i: nat)
    requires i < |options| && OnlyOne(options, i)
    ensures CountTypes(options) == 1 && NotNone(options) == [options[i]]
    decreases |options|
  {
    var rest := options[1..];
    if i == 0 {
      forall j | 0 <= j < |rest| ensures rest[j].TNone? { assert options[j + 1].TNone?; }
      NonesCountNothing(rest);
    } else {
      assert options[0].TNone?;
      forall j | 0 <= j < |rest| && j != i - 1 ensures rest[j].TNone? { assert options[j + 1].TNone?; }
      OneIsLeft(rest, i - 1);
    }
  }

  /** The schema of a type asks for exactly those. */
  lemma {:induction false} SchemaAdmits(policy: EnumPolicy, v: Value, t: Type)
    requires SchemaOf(policy, t).Some?
    ensures ValidFor(v, SchemaOf(policy, t).value) <==> Admitted(policy, v, t)
    decreases t, 1
  {
    hide SharedPrim, JsonEq;
    match t
    case TNone => LeafAdmits(policy, v, t);
    case TStr => LeafAdmits(policy, v, t);
    case TInt => LeafAdmits(policy, v, t);
    case TFloat => LeafAdmits(policy, v, t);
    case TBool => LeafAdmits(policy, v, t);
    case TList(elem) =>
      if v.VList? {
        forall i | 0 <= i < |v.items|
          ensures ValidFor(v.items[i], SchemaOf(policy, elem).value) <==> Admitted(policy, v.items[i], elem)
        {
          SchemaAdmits(policy, v.items[i], elem);
        }
      }
    case TDict(value) =>
      if v.VDict? {
        forall k <- v.entries
          ensures ValidFor(v.entries[k], SchemaOf(policy, value).value) <==> Admitted(policy, v.entries[k], value)
        {
          SchemaAdmits(policy, v.entries[k], value);
        }
      }
    case TUnion(options) => UnionAdmits(policy, v, options);
    case TLiteral(lits) => LiteralAdmits(policy, v, lits);
    case TEnum(name, members) => EnumAdmits(policy, v, t);
  }

  lemma LeafAdmits(policy: EnumPolicy, v: Value, t: Type)
    requires (t.TNone? || t.TStr? || t.TInt? || t.TFloat? || t.TBool?) && SchemaOf(policy, t).Some?
    ensures ValidFor(v, SchemaOf(policy, t).value) <==> Admitted(policy, v, t)
  {
    if t.TInt? && v.VFloat? { IntegralIff(v.r); }
  }

  lemma IntegralIff(r: real)
    ensures Integral(r) <==> exists n: int :: Equals(n, r)
  {
    if n: int :| Equals(n, r) { assert r.Floor == n; }
    if Integral(r) { assert Equals(r.Floor, r); }
  }

  lemma LiteralAdmits(policy: EnumPolicy, v: Value, lits: seq<Lit>)
    ensures ValidFor(v, SEnum(lits, SharedPrim(lits))) <==> Admitted(policy, v, TLiteral(lits))
  {
    hide SharedPrim, JsonEq, OnePrim, OfPrim;
    forall p ensures SharedPrim(lits) == Some(p) <==> OnePrim(lits, p) && (p.PNull? ==> Nulls(lits)) { SharedPrimIff(lits, p); }
  }

  lemma EnumAdmits(policy: EnumPolicy, v: Value, t: Type)
    requires t.TEnum? && SchemaOf(policy, t).Some?
    ensures ValidFor(v, SchemaOf(policy, t).value) <==> Admitted(policy, v, t)
  {
    var s := SchemaOf(policy, t).value;
    if s.SEnum? && v.VStr? {
      assert forall i :: 0 <= i < |t.members| ==> (JsonEq(v, s.values[i]) <==> t.members[i].value == LStr(v.s));
    }
  }

  lemma {:induction false} UnionAdmits(policy: EnumPolicy, v: Value, options: seq<Type>)
    requires SchemaOf(policy, TUnion(options)).Some?
    ensures ValidFor(v, SchemaOf(policy, TUnion(options)).value) <==> Admitted(policy, v, TUnion(options))
    decreases options, 0
  {
    hide SchemaOf, ValidFor, Admitted;
    if IsOptional(options) {
      var i :| 0 <= i < |options| && OnlyOne(options, i);
      OptionalSchema(policy, v, options, i);
      SchemaAdmits(policy, v, options[i]);
    } else {
      AnyOfSchema(policy, v, options);
      forall i | 0 <= i < |options|
        ensures ValidFor(v, SchemaOf(policy, options[i]).value) <==> Admitted(policy, v, options[i])
      {
        SchemaAdmits(policy, v, options[i]);
      }
    }
  }

  lemma OptionalSchema(policy: EnumPolicy, v: Value, options: seq<Type>, i: nat)
    requires IsOptional(options) && i < |options| && OnlyOne(options, i) && SchemaOf(policy, TUnion(options)).Some?
    ensures SchemaOf(policy, options[i]) == SchemaOf(policy, TUnion(options))
    ensures Admitted(policy, v, TUnion(options)) <==> Admitted(policy, v, options[i])
  {
    OneIsLeft(options, i);
    OptionalIff(options);
    hide NotNone;
    assert forall j :: 0 <= j < |options| && !options[j].TNone? ==> j == i;
  }

  lemma OptionalIff(options: seq<Type>)
    ensures |NotNone(options)| == 1 && TNone in options <==> IsOptional(options)
  {
    hide OnlyOne, NotNone, CountTypes;
    NotNoneCounts(options);
    if CountTypes(options) == 1 { var i := OneIsFound(options); }
    forall i | 0 <= i < |options| && OnlyOne(options, i) ensures CountTypes(options) == 1 { OneIsLeft(options, i); }
  }

  lemma AnyOfIs(policy: EnumPolicy, options: seq<Type>)
    requires !IsOptional(options) && SchemaOf(policy, TUnion(options)).Some?
    ensures var s := SchemaOf(policy, TUnion(options)).value;
            && s.SAnyOf? && |s.options| == |options|
            && forall i :: 0 <= i < |options| ==> SchemaOf(policy, options[i]) == Some(s.options[i])
  {
    OptionalIff(options);
    hide IsOptional, NotNone;
  }

  lemma AnyOfSchema(policy: EnumPolicy, v: Value, options: seq<Type>)
    requires !IsOptional(options) && SchemaOf(policy, TUnion(options)).Some?
    ensures forall i :: 0 <= i < |options| ==> SchemaOf(policy, options[i]).Some?
    ensures ValidFor(v, SchemaOf(policy, TUnion(options)).value) <==>
            exists i :: 0 <= i < |options| && ValidFor(v, SchemaOf(policy, options[i]).value)
    ensures Admitted(policy, v, TUnion(options)) <==> exists i :: 0 <= i < |options| && Admitted(policy, v, options[i])
  {
    AnyOfIs(policy, options);
    hide IsOptional, SchemaOf;
  }

  /** An enum of numbers admits nothing, and coercion takes every one of its values. */
  lemma NumericEnumAdmitsNothing(py: Python, policy: EnumPolicy, v: Value, i: int)
    requires 1 <= policy.maxItems
    ensures var t := TEnum("E", [Member("ONE", LInt(i))]);
            && SchemaOf(policy, t).Some? && !ValidFor(v, SchemaOf(policy, t).value)
            && Coerce(py, VInt(i), t) == Some(VMember("E", 0))
  {
    var t := TEnum("E", [Member("ONE", LInt(i))]);
    SchemaAdmits(policy, v, t);
    var test := (m: Member) => PyEq(VInt(i), m.value);
    assert test(t.members[0]);
  }

  // --- Arguments ------------------------------------------------------------------------------------

  /** The hint of the i-th parameter refuses what it starts out with. */
  predicate Refused(py: Python, params: seq<Param>, args: map<string, Value>, i: nat) {
    && i < |params| && params[i].hint.Some? && (params[i].name in args || params[i].default.Some?)
    && Coerce(py, Supplied(params[i], args), params[i].hint.value).None?
  }

  ghost predicate FirstRefused(py: Python, params: seq<Param>, args: map<string, Value>, name: string) {
    exists i: nat :: Refused(py, params, args, i) && params[i].name == name
                     && forall j: nat :: j < i ==> !Refused(py, params, args, j)
  }

  predicate Unknown(params: seq<Param>, name: string) { forall i :: 0 <= i < |params| ==> params[i].name != name }

  ghost predicate Takes(py: Python, p: Param, args: map<string, Value>, bound: map<string, Value>) {
    && (p.name in args || p.default.Some?) && p.name in bound
    && if p.hint.None? then bound[p.name] == Supplied(p, args)
       else Some(bound[p.name]) == Coerce(py, Supplied(p, args), p.hint.value)
  }

  /** What binding makes of the arguments, or what it says of them: an argument that no parameter takes comes
      before one that is missing, and that before the first that its hint refuses; else every parameter has
      its argument or its default, coerced if it has a hint. */
  lemma BindSays(py: Python, params: seq<Param>, args: map<string, Value>)
    requires DistinctParams(params)
    ensures var unknown := exists name <- args :: Unknown(params, name);
            var missing := exists i :: 0 <= i < |params| && params[i].default.None? && params[i].name !in args;
            match Bind(py, params, args)
            case Err(UnexpectedKeyword) => unknown
            case Err(MissingRequired) => !unknown && missing
            case Err(InvalidValue(name)) => !unknown && !missing && FirstRefused(py, params, args, name)
            case Ok(bound) =>
              && !unknown && !missing && (forall i :: 0 <= i < |params| ==> Takes(py, params[i], args, bound))
              && forall name <- bound :: !Unknown(params, name)
  {
    KnownNames(params, args);
    if args.Keys <= ParamNames(params) && !Missing(params, args) {
      hide Coerce, FirstRefused, Unknown;
      var bound := WithDefaults(params, args);
      WithDefaultsBinds(params, args);
      CoerceArgumentsAt(py, params, bound);
      assert forall i :: 0 <= i < |params| ==> params[i].name in ParamNames(params);
      RefusedFirst(py, params, args, bound);
      KnownNames(params, bound);
    }
  }

  lemma KnownNames(params: seq<Param>, args: map<string, Value>)
    ensures args.Keys <= ParamNames(params) <==> forall name <- args :: !Unknown(params, name)
  {
    forall name ensures name in ParamNames(params) <==> !Unknown(params, name) {}
  }

  lemma {:induction false} RefusedFirst(py: Python, params: seq<Param>, args: map<string, Value>, bound: map<string, Value>)
    requires DistinctParams(params) && ParamNames(params) <= bound.Keys && !Missing(params, args)
    requires forall i :: 0 <= i < |params| ==> params[i].name in bound && bound[params[i].name] == Supplied(params[i], args)
    ensures var r := CoerceArguments(py, params, bound);
            r.Err? ==> r.error.InvalidValue? && FirstRefused(py, params, args, r.error.name)
    decreases |params|
  {
    hide Coerce;
    if params != [] {
      var p, rest := params[0], params[1..];
      TailNames(params, 1);
      assert p.name in ParamNames(params);
      assert forall i :: 0 <= i < |rest| ==> rest[i] == params[i + 1];
      if p.hint.None? {
        RefusedFirst(py, rest, args, bound);
        RefusedLater(py, params, args);
      } else if Coerce(py, bound[p.name], p.hint.value).Some? {
        RefusedFirst(py, rest, args, bound[p.name := Coerce(py, bound[p.name], p.hint.value).value]);
        RefusedLater(py, params, args);
      } else {
        assert Refused(py, params, args, 0);
      }
    }
  }

  lemma RefusedLater(py: Python, params: seq<Param>, args: map<string, Value>)
    requires params != [] && !Refused(py, params, args, 0)
    ensures forall name :: FirstRefused(py, params[1..], args, name) ==> FirstRefused(py, params, args, name)
  {
    hide Coerce;
    var rest := params[1..];
    assert forall i: nat :: i < |rest| ==> (Refused(py, rest, args, i) <==> Refused(py, params, args, i + 1));
    forall name | FirstRefused(py, rest, args, name) ensures FirstRefused(py, params, args, name) {
      var i: nat :| Refused(py, rest, args, i) && rest[i].name == name && forall j: nat :: j < i ==> !Refused(py, rest, args, j);
      assert Refused(py, params, args, i + 1);
      forall j: nat | j < i + 1 ensures !Refused(py, params, args, j) {
        if j > 0 { assert !Refused(py, rest, args, j - 1); }
      }
    }
  }

  /** Arguments and defaults that inhabit their hints are passed on unchanged. */
  lemma BindKeeps(py: Python, params: seq<Param>, args: map<string, Value>)
    requires DistinctParams(params) && args.Keys <= ParamNames(params)
    requires forall i :: 0 <= i < |params| ==>
               && (params[i].default.Some? || params[i].name in args)
               && (params[i].hint.Some? ==>
                     NoUnion(params[i].hint.value) && HasType(Supplied(params[i], args), params[i].hint.value))
    ensures Bind(py, params, args).Ok?
    ensures forall i :: 0 <= i < |params| ==>
              && params[i].name in Bind(py, params, args).value
              && Bind(py, params, args).value[params[i].name] == Supplied(params[i], args)
  {
    assert !Missing(params, args);
    WithDefaultsBinds(params, args);
    forall i | 0 <= i < |params| && params[i].hint.Some?
      ensures Coerce(py, Supplied(params[i], args), params[i].hint.value) == Some(Supplied(params[i], args))
    {
      CoerceKeeps(py, Supplied(params[i], args), params[i].hint.value);
    }
    hide Coerce, HasType;
    CoerceArgumentsAt(py, params, WithDefaults(params, args));
    BindSays(py, params, args);
  }
}
