/** From the tracker to the sidecar's table: what a save makes of the rows, through the text that is written
    and the operations that are read from it. */
module SavedRows {
  import opened Wrappers
  import opened StateTracking
  import opened StateRefinement
  import opened Json
  import opened JsonPrinting
  import opened StateTransaction

  /** A row as the sidecar holds it: the bytes of its value, and the seconds it is to live. */
  datatype Row = Row(value: string, ttl: Option<string>)

  type Table = map<string, Row>

  function At(rows: Table, key: string): Option<Row> { if key in rows then Some(rows[key]) else None }

  function TtlOf(metadata: seq<(string, Json)>): Option<string> {
    match Lookup(metadata, "ttlInSeconds") case Some(JString(seconds)) => Some(seconds) case _ => None
  }

  /** What the sidecar does for an operation of either type. */
  function Perform(rows: Table, op: Operation): Table {
    if op.operationType == "delete" then rows - {op.key}
    else if op.operationType == "upsert" && op.value.Some? then rows[op.key := Row(op.value.value, TtlOf(op.metadata))]
    else rows
  }

  function PerformAll(rows: Table, ops: seq<Operation>): Table
    decreases |ops|
  {
    if ops == [] then rows else PerformAll(Perform(rows, ops[0]), ops[1..])
  }

  /** What a change asks of the row of its name. */
  function Asked(ascii: bool, c: Change<Json>): Option<Row> {
    if c.kind.Remove? || c.value.None? then None
    else Some(Row(Print(ascii, c.value.value), if c.ttl.Some? && c.ttl.value >= 0 then Some(PrintInt(c.ttl.value)) else None))
  }

  /** A change that a dirty entry gives: a removal, or a value to be written. */
  predicate Meant(c: Change<Json>) { c.kind.Remove? || (!c.kind.Unchanged? && c.value.Some?) }

  lemma PerformIntended(ascii: bool, rows: Table, c: Change<Json>, key: string)
    requires Meant(c)
    ensures At(Perform(rows, Intended(ascii, c)), key) == if key == c.name then Asked(ascii, c) else At(rows, key)
  {
    hide Print, PrintInt;
    var op := Intended(ascii, c);
    assert op.operationType == (if c.kind.Remove? then "delete" else "upsert");
    assert "delete" != "upsert" by { assert "delete"[0] != "upsert"[0]; }
  }

  predicate DistinctKeysOf(changes: seq<Change<Json>>) {
    forall i, j :: 0 <= i < j < |changes| ==> changes[i].name != changes[j].name
  }

  function AllIntended(ascii: bool, changes: seq<Change<Json>>): (ops: seq<Operation>)
    ensures |ops| == |changes|
    ensures forall i :: 0 <= i < |changes| ==> ops[i] == Intended(ascii, changes[i])
  {
    seq(|changes|, i requires 0 <= i < |changes| => Intended(ascii, changes[i]))
  }

  /** A transaction does to each row what its one change for that row asks. */
  lemma {:induction false} PerformAllAt(ascii: bool, rows: Table, changes: seq<Change<Json>>, key: string)
    requires DistinctKeysOf(changes) && forall i :: 0 <= i < |changes| ==> Meant(changes[i])
    ensures var end := PerformAll(rows, AllIntended(ascii, changes));
            && (forall i :: 0 <= i < |changes| && changes[i].name == key ==> At(end, key) == Asked(ascii, changes[i]))
            && ((forall i :: 0 <= i < |changes| ==> changes[i].name != key) ==> At(end, key) == At(rows, key))
    decreases |changes|
  {
    hide Intended, Asked, Perform, At, Meant;
    if changes != [] {
      var rest := changes[1..];
      PerformIntended(ascii, rows, changes[0], key);
      assert AllIntended(ascii, changes)[1..] == AllIntended(ascii, rest);
      PerformAllAt(ascii, Perform(rows, Intended(ascii, changes[0])), rest, key);
      assert forall i :: 0 < i < |changes| ==> changes[i] == rest[i - 1];
    }
  }

  /** The whole way of a save: from any honest tracker, whatever order the dirty entries are gathered in, the
      text that is written is read as operations after which the row of every name that was due is the value
      the actor sees, as printed, with the time to live it gave; the row of a removed name is gone; and no
      other row has changed. */
  lemma SavedRowsAre(ascii: bool, s: State<Json>, changes: seq<Change<Json>>, rows: Table, key: string)
    requires Inv(s) && IsBatch(changes, s.tracker) && forall i :: 0 <= i < |changes| ==> Writable(changes[i])
    ensures var read := ReadTransaction(ascii, TransactionText(ascii, changes));
            var t := Abs(s);
            && read.Some?
            && At(PerformAll(rows, read.value), key) ==
               if key !in t.pending then At(rows, key)
               else if key !in t.working then None
               else Some(Row(Print(ascii, t.working[key]),
                             if key in t.ttls && t.ttls[key] >= 0 then Some(PrintInt(t.ttls[key])) else None))
  {
    BatchSubmits(s, changes);
    TransactionReadsBack(ascii, changes);
    SubmittedRowsAre(ascii, Abs(s), changes, rows, key);
    hide *;
    assert AllIntended(ascii, changes) == seq(|changes|, i requires 0 <= i < |changes| => Intended(ascii, changes[i]));
  }

  lemma SubmittedRowsAre(ascii: bool, t: Txn<Json>, changes: seq<Change<Json>>, rows: Table, key: string)
    requires Submits(changes, t)
    ensures At(PerformAll(rows, AllIntended(ascii, changes)), key) ==
            if key !in t.pending then At(rows, key)
            else if key !in t.working then None
            else Some(Row(Print(ascii, t.working[key]),
                          if key in t.ttls && t.ttls[key] >= 0 then Some(PrintInt(t.ttls[key])) else None))
  {
    hide Print, PrintInt, At, PerformAll, Intended;
    forall i | 0 <= i < |changes| ensures Meant(changes[i]) { assert SubmitsOne(changes[i], t); }
    PerformAllAt(ascii, rows, changes, key);
    if key in t.pending {
      var i :| 0 <= i < |changes| && changes[i].name == key;
      assert SubmitsOne(changes[i], t);
    }
  }

  // --- Against the store of the state manager -------------------------------------------------------

  /** A table that holds these rows, printed. */
  predicate Holds(ascii: bool, rows: Table, store: Rows<Json>) {
    && rows.Keys == store.Keys
    && forall key :: key in rows ==> rows[key].value == Print(ascii, store[key])
  }

  lemma {:induction false} PerformsWhatIsApplied(ascii: bool, rows: Table, store: Rows<Json>, changes: seq<Change<Json>>)
    requires Holds(ascii, rows, store) && forall i :: 0 <= i < |changes| ==> Meant(changes[i])
    ensures Holds(ascii, PerformAll(rows, AllIntended(ascii, changes)), ApplyAll(store, changes))
    decreases |changes|
  {
    hide Print, Intended, Meant, Perform;
    if changes != [] {
      var rows', store' := Perform(rows, Intended(ascii, changes[0])), Apply(store, changes[0]);
      PerformsOne(ascii, rows, store, changes[0]);
      assert AllIntended(ascii, changes)[1..] == AllIntended(ascii, changes[1..]);
      PerformsWhatIsApplied(ascii, rows', store', changes[1..]);
    }
  }

  lemma PerformsOne(ascii: bool, rows: Table, store: Rows<Json>, c: Change<Json>)
    requires Holds(ascii, rows, store) && Meant(c)
    ensures Holds(ascii, Perform(rows, Intended(ascii, c)), Apply(store, c))
  {
    hide Print, PrintInt;
    var op := Intended(ascii, c);
    assert op.operationType == (if c.kind.Remove? then "delete" else "upsert");
    assert "delete" != "upsert" by { assert "delete"[0] != "upsert"[0]; }
  }

  /** So where the table held what the store of the state manager says, it holds after a save what the actor
      sees. */
  lemma SaveIsPerformed(ascii: bool, s: State<Json>, changes: seq<Change<Json>>, rows: Table)
    requires Inv(s) && IsBatch(changes, s.tracker) && Holds(ascii, rows, s.store)
    requires forall i :: 0 <= i < |changes| ==> Writable(changes[i])
    ensures var read := ReadTransaction(ascii, TransactionText(ascii, changes));
            read.Some? && Holds(ascii, PerformAll(rows, read.value), View(s))
  {
    BatchSubmits(s, changes);
    forall i | 0 <= i < |changes| ensures Meant(changes[i]) { assert SubmitsOne(changes[i], Abs(s)); }
    TransactionReadsBack(ascii, changes);
    BatchFlushes(s, changes);
    FlushIsView(s);
    PerformsWhatIsApplied(ascii, rows, s.store, changes);
    hide *;
    assert AllIntended(ascii, changes) == seq(|changes|, i requires 0 <= i < |changes| => Intended(ascii, changes[i]));
  }
}
