/** What the logical operations of a history say about the attempts that were recorded, and what a verdict on
    them means for those attempts: one order of everything acknowledged in which every read returns the last
    value written before it. */
module HistoryMeaning {
  import opened Types
  import opened Linearizability
  import opened HistoryRows

  // ---------------------------------------------------------------- attempts

  /** An attempt that matters: acknowledged, or a write nobody can say did not happen. */
  predicate Counts(row: Row) {
    row.outcome.Ok? || (row.outcome.Unknown? && (row.kind.Put? || row.kind.Delete?))
  }

  /** Two attempts at one operation: retries under one logical name, or the attempt itself. */
  predicate SameOperation(a: Row, b: Row) {
    if a.logical.Some? then b.logical == a.logical else b.logical.None? && a.id == b.id
  }

  /** What an attempt recorded: the text put or read, nothing for a delete or a read of an absent key. */
  function Recorded(row: Row): Value {
    match row.kind
    case Delete => None
    case Put => if row.value.Text? then Some(row.value.text) else None
    case Get => if row.value.Text? then Some(row.value.text) else None
  }

  // ---------------------------------------------------------------- attempts and operations

  /** Some attempt at `row`'s operation that counts goes by the name `x`. */
  ghost predicate Tried(rows: seq<Row>, row: Row, x: string) {
    exists i :: 0 <= i < |rows| && rows[i].id == x && Counts(rows[i]) && SameOperation(row, rows[i])
  }

  /** Some attempt at `row`'s operation was acknowledged. */
  ghost predicate Acked(rows: seq<Row>, row: Row) {
    exists i :: 0 <= i < |rows| && rows[i].outcome.Ok? && SameOperation(row, rows[i])
  }

  /** `op` stands for the operation of `row`: for exactly its attempts that count, with its kind, key and value;
      it may be left out exactly when none was acknowledged. */
  ghost predicate StandsFor(rows: seq<Row>, op: Operation, row: Row) {
    && (forall x :: x in op.attempts <==> Tried(rows, row, x))
    && op.kind == row.kind && op.key == row.key && op.value == Recorded(row)
    && (op.optional <==> !Acked(rows, row))
  }

  ghost predicate Attempted(rows: seq<Row>, id: Identity, x: string) {
    exists i :: 0 <= i < |rows| && rows[i].id == x && Contributes(rows[i], id)
  }

  lemma AttemptedSnoc(init: seq<Row>, last: Row, id: Identity, x: string)
    ensures Attempted(init + [last], id, x) <==> Attempted(init, id, x) || (last.id == x && Contributes(last, id))
  {
    var rows := init + [last];
    if Attempted(init, id, x) {
      var i :| 0 <= i < |init| && init[i].id == x && Contributes(init[i], id);
      assert rows[i] == init[i];
    }
    assert rows[|init|] == last;
    if Attempted(rows, id, x) {
      var i :| 0 <= i < |rows| && rows[i].id == x && Contributes(rows[i], id);
      assert i < |init| ==> init[i] == rows[i];
    }
  }

  lemma {:induction false} AttemptsExact(rows: seq<Row>, id: Identity, x: string)
    requires Folded(rows, id).Some?
    ensures x in Folded(rows, id).value.attempts <==> Attempted(rows, id, x)
  {
    var init, last := rows[..|rows| - 1], rows[|rows| - 1];
    assert rows == init + [last];
    AttemptedSnoc(init, last, id, x);
    if Folded(init, id).Some? {
      AttemptsExact(init, id, x);
    } else {
      NoneContributes(init, id);
    }
  }

  lemma {:induction false} FoldedStandsFor(domain: string, initial: map<string, Value>, rows: seq<Row>, i: nat)
    requires RowsOk(domain, initial, rows) && PayloadsAgree(rows) && i < |rows| && Counts(rows[i])
    ensures Folded(rows, IdentityOf(rows[i])).Some? && StandsFor(rows, Folded(rows, IdentityOf(rows[i])).value, rows[i])
  {
    var row, id := rows[i], IdentityOf(rows[i]);
    GroupsAgreeExact(rows);
    assert GroupAgrees(rows, row);
    var op := Folded(rows, id).value;
    forall x ensures x in op.attempts <==> Tried(rows, row, x) {
      AttemptsExact(rows, id, x);
      TriedExact(rows, row, x);
    }
    FoldExact(domain, initial, rows, id, 0);
    AckedExact(rows, row);
  }

  lemma TriedExact(rows: seq<Row>, row: Row, x: string)
    ensures Tried(rows, row, x) <==> Attempted(rows, IdentityOf(row), x)
  {
  }

  lemma AckedExact(rows: seq<Row>, row: Row)
    ensures Acked(rows, row) <==> Acknowledged(rows, IdentityOf(row))
  {
  }

  lemma {:induction false} IdentitiesDistinct(rows: seq<Row>)
    ensures Distinct(Identities(rows))
  {
    if rows != [] { IdentitiesDistinct(rows[..|rows| - 1]); }
  }

  /** Which operation stands for row `i`. */
  lemma OperationOf(rows: seq<Row>, i: nat) returns (k: nat)
    requires i < |rows| && Counts(rows[i])
    ensures k < |Identities(rows)| && Identities(rows)[k] == IdentityOf(rows[i])
  {
    if Folded(rows, IdentityOf(rows[i])).None? { NoneContributes(rows, IdentityOf(rows[i])); }
    k :| 0 <= k < |Identities(rows)| && Identities(rows)[k] == IdentityOf(rows[i]);
  }

  /** Which row operation `k` stands for, as good as any other. */
  lemma RowFor(rows: seq<Row>, k: nat) returns (i: nat)
    requires k < |Identities(rows)|
    ensures i < |rows| && Counts(rows[i]) && Identities(rows)[k] == IdentityOf(rows[i])
  {
    assert Identities(rows)[k] in Identities(rows);
    i := SomeContributes(rows, Identities(rows)[k]);
  }

  /** Some operation stands for the row. */
  ghost predicate HasOperation(rows: seq<Row>, ops: seq<Operation>, row: Row) {
    exists k :: 0 <= k < |ops| && StandsFor(rows, ops[k], row)
  }

  /** The operation stands for some row that counts. */
  ghost predicate HasAttempt(rows: seq<Row>, op: Operation) {
    exists i :: 0 <= i < |rows| && Counts(rows[i]) && StandsFor(rows, op, rows[i])
  }

  /** Every attempt that counts has one operation that stands for it, and only such attempts have one. */
  ghost predicate Accounts(rows: seq<Row>, ops: seq<Operation>) {
    && (forall i :: 0 <= i < |rows| && Counts(rows[i]) ==> HasOperation(rows, ops, rows[i]))
    && (forall k :: 0 <= k < |ops| ==> HasAttempt(rows, ops[k]))
    && (forall k, l, x :: 0 <= k < l < |ops| && x in ops[k].attempts ==> x !in ops[l].attempts)
  }

  lemma {:induction false} OperationsExact(domain: string, initial: map<string, Value>, rows: seq<Row>)
    requires RowsOk(domain, initial, rows) && PayloadsAgree(rows)
    ensures Accounts(rows, LogicalOperations(rows))
  {
    var ops := LogicalOperations(rows);
    forall i | 0 <= i < |rows| && Counts(rows[i]) ensures HasOperation(rows, ops, rows[i]) {
      var k := OperationOf(rows, i);
      FoldedStandsFor(domain, initial, rows, i);
      assert StandsFor(rows, ops[k], rows[i]);
    }
    forall k | 0 <= k < |ops| ensures HasAttempt(rows, ops[k]) {
      var i := RowFor(rows, k);
      FoldedStandsFor(domain, initial, rows, i);
    }
    forall k, l, x | 0 <= k < l < |ops| && x in ops[k].attempts ensures x !in ops[l].attempts {
      OneOperation(rows, k, l, x);
    }
  }

  lemma OneOperation(rows: seq<Row>, k: nat, l: nat, x: string)
    requires forall i, j :: 0 <= i < j < |rows| ==> rows[i].id != rows[j].id
    requires var ops := LogicalOperations(rows); k < l < |ops| && x in ops[k].attempts
    ensures x !in LogicalOperations(rows)[l].attempts
  {
    var ids := Identities(rows);
    AttemptsExact(rows, ids[k], x);
    AttemptsExact(rows, ids[l], x);
    IdentitiesDistinct(rows);
  }

  // ---------------------------------------------------------------- orders of attempts

  /** Some attempt at `a`'s operation was acknowledged before any attempt at `b`'s was made. */
  ghost predicate Finished(rows: seq<Row>, a: Row, b: Row) {
    exists i :: 0 <= i < |rows| && rows[i].outcome.Ok? && SameOperation(a, rows[i]) && rows[i].end.Some?
      && BeganAfter(rows, b, rows[i].end.value)
  }

  ghost predicate BeganAfter(rows: seq<Row>, b: Row, t: nat) {
    forall j :: 0 <= j < |rows| && Counts(rows[j]) && SameOperation(b, rows[j]) ==> t < rows[j].start
  }

  /** What `key` holds before position `p` of an order: what the last write of it before says, or what it held
      at the beginning. */
  function HeldBefore(rows: seq<Row>, initial: map<string, Value>, order: seq<nat>, p: nat, key: string): Value
    requires key in initial && p <= |order| && forall q :: 0 <= q < |order| ==> order[q] < |rows|
  {
    if p == 0 then initial[key]
    else
      var row := rows[order[p - 1]];
      if row.key == key && !row.kind.Get? then Recorded(row) else HeldBefore(rows, initial, order, p - 1, key)
  }

  /** One order of operations, each given by one of its attempts: every acknowledged operation once, unknown
      writes at most once, nothing else; none placed after one that began only after it was acknowledged; and
      every read returned what its key held. */
  ghost predicate Explains(rows: seq<Row>, initial: map<string, Value>, order: seq<nat>) {
    && (forall p :: 0 <= p < |order| ==> order[p] < |rows| && Counts(rows[order[p]]) && rows[order[p]].key in initial)
    && (forall p, q :: 0 <= p < q < |order| ==> !SameOperation(rows[order[p]], rows[order[q]]))
    && (forall i :: 0 <= i < |rows| && rows[i].outcome.Ok? ==> Placed(rows, order, rows[i]))
    && (forall p, q :: 0 <= p < q < |order| ==> !Finished(rows, rows[order[q]], rows[order[p]]))
    && (forall p :: 0 <= p < |order| && rows[order[p]].kind.Get? ==>
          Recorded(rows[order[p]]) == HeldBefore(rows, initial, order, p, rows[order[p]].key))
  }

  ghost predicate Placed(rows: seq<Row>, order: seq<nat>, row: Row) {
    exists p :: 0 <= p < |order| && order[p] < |rows| && SameOperation(rows[order[p]], row)
  }

  /** The history can be explained. */
  ghost predicate Explicable(rows: seq<Row>, initial: map<string, Value>) {
    exists order :: Explains(rows, initial, order)
  }

  // ---------------------------------------------------------------- orders of operations

  /** What `key` holds before position `p` of an order of operations. */
  function OpsBefore(ops: seq<Operation>, store: map<string, Value>, order: seq<nat>, p: nat, key: string): Value
    requires key in store && p <= |order| && InRange(ops, order)
  {
    if p == 0 then store[key]
    else
      var op := ops[order[p - 1]];
      if op.key == key && !op.kind.Get? then op.value else OpsBefore(ops, store, order, p - 1, key)
  }

  ghost predicate ReadsHold(ops: seq<Operation>, store: map<string, Value>, order: seq<nat>)
    requires InRange(ops, order)
  {
    && (forall p :: 0 <= p < |order| ==> ops[order[p]].key in store)
    && (forall p :: 0 <= p < |order| && ops[order[p]].kind.Get? ==>
          ops[order[p]].value == OpsBefore(ops, store, order, p, ops[order[p]].key))
  }

  lemma {:induction false} BeforeRest(ops: seq<Operation>, store: map<string, Value>, order: seq<nat>, p: nat,
                                      key: string)
    requires InRange(ops, order) && 0 < p <= |order| && key in store && ops[order[0]].key in store
    ensures var op := ops[order[0]];
      OpsBefore(ops, store, order, p, key)
      == OpsBefore(ops, store[op.key := After(store[op.key], op)], order[1..], p - 1, key)
  {
    if p > 1 { BeforeRest(ops, store, order, p - 1, key); }
  }

  /** An order is legal exactly when every read returns what its key held. */
  lemma {:induction false} LegalExact(ops: seq<Operation>, store: map<string, Value>, order: seq<nat>)
    requires InRange(ops, order)
    ensures LegalStore(ops, store, order) <==> ReadsHold(ops, store, order)
    decreases |order|
  {
    if order != [] && ops[order[0]].key in store {
      var op, rest := ops[order[0]], order[1..];
      var next := store[op.key := After(store[op.key], op)];
      LegalExact(ops, next, rest);
      forall p | 0 <= p < |rest| && ops[rest[p]].key in store
        ensures OpsBefore(ops, next, rest, p, ops[rest[p]].key)
          == OpsBefore(ops, store, order, p + 1, ops[order[p + 1]].key)
      {
        BeforeRest(ops, store, order, p + 1, ops[rest[p]].key);
      }
      ReadsSplit(ops, store, order);
    }
  }

  lemma ReadsSplit(ops: seq<Operation>, store: map<string, Value>, order: seq<nat>)
    requires InRange(ops, order) && order != [] && ops[order[0]].key in store
    requires var op := ops[order[0]]; var next := store[op.key := After(store[op.key], op)];
      forall p :: 0 <= p < |order| - 1 && ops[order[1..][p]].key in store ==>
        OpsBefore(ops, next, order[1..], p, ops[order[1..][p]].key)
        == OpsBefore(ops, store, order, p + 1, ops[order[p + 1]].key)
    ensures var op := ops[order[0]]; var next := store[op.key := After(store[op.key], op)];
      ReadsHold(ops, store, order) <==> Admits(store[op.key], op) && ReadsHold(ops, next, order[1..])
  {
    var op, rest := ops[order[0]], order[1..];
    var next := store[op.key := After(store[op.key], op)];
    assert forall p :: 0 <= p < |rest| ==> rest[p] == order[p + 1];
    if ReadsHold(ops, store, order) {
      forall p | 0 <= p < |rest| ensures ops[rest[p]].key in next { assert ops[order[p + 1]].key in store; }
    }
    if Admits(store[op.key], op) && ReadsHold(ops, next, rest) {
      forall p | 0 <= p < |order| ensures ops[order[p]].key in store {
        if p > 0 { assert ops[rest[p - 1]].key in next; }
      }
      forall p | 0 <= p < |order| && ops[order[p]].kind.Get?
        ensures ops[order[p]].value == OpsBefore(ops, store, order, p, ops[order[p]].key)
      {
        if p > 0 { assert rest[p - 1] == order[p]; }
      }
    }
  }

  // ---------------------------------------------------------------- the two kinds of order

  /** Some attempt at `a`'s operation was acknowledged at `t`. */
  ghost predicate AckedAt(rows: seq<Row>, a: Row, t: nat) {
    exists i :: 0 <= i < |rows| && rows[i].outcome.Ok? && SameOperation(a, rows[i]) && rows[i].end == Some(t)
  }

  lemma AckExact(rows: seq<Row>, a: Row, t: nat)
    ensures NotAfterAck(rows, IdentityOf(a), t) <==> forall u :: AckedAt(rows, a, u) ==> t <= u
  {
    if NotAfterAck(rows, IdentityOf(a), t) {
      forall u | AckedAt(rows, a, u) ensures t <= u {
        var i :| 0 <= i < |rows| && rows[i].outcome.Ok? && SameOperation(a, rows[i]) && rows[i].end == Some(u);
        assert Contributes(rows[i], IdentityOf(a));
      }
    }
    if forall u :: AckedAt(rows, a, u) ==> t <= u {
      forall i | 0 <= i < |rows| && Contributes(rows[i], IdentityOf(a)) && rows[i].outcome.Ok? && rows[i].end.Some?
        ensures t <= rows[i].end.value
      {
        assert AckedAt(rows, a, rows[i].end.value);
      }
    }
  }

  /** The operation ends with its first acknowledgement. */
  lemma {:induction false} EndExact(domain: string, initial: map<string, Value>, rows: seq<Row>, a: Row)
    requires forall i :: 0 <= i < |rows| ==> RowOk(domain, initial, rows[i])
    requires Folded(rows, IdentityOf(a)).Some?
    ensures var end := Folded(rows, IdentityOf(a)).value.end;
      && (end.Some? ==> AckedAt(rows, a, end.value))
      && forall u :: AckedAt(rows, a, u) ==> end.Some? && end.value <= u
  {
    var end, id := Folded(rows, IdentityOf(a)).value.end, IdentityOf(a);
    if end.Some? {
      FoldExact(domain, initial, rows, id, end.value);
      FoldExact(domain, initial, rows, id, end.value + 1);
      AckExact(rows, a, end.value);
      AckExact(rows, a, end.value + 1);
    } else {
      forall u: nat ensures !AckedAt(rows, a, u) {
        FoldExact(domain, initial, rows, id, u + 1);
        AckExact(rows, a, u + 1);
      }
    }
  }

  /** What finished before what is decided by first acknowledgements and first invocations. */
  lemma {:induction false} BeforeExact(domain: string, initial: map<string, Value>, rows: seq<Row>, a: Row, b: Row)
    requires forall i :: 0 <= i < |rows| ==> RowOk(domain, initial, rows[i])
    requires Folded(rows, IdentityOf(a)).Some? && Folded(rows, IdentityOf(b)).Some?
    ensures Before(Folded(rows, IdentityOf(a)).value, Folded(rows, IdentityOf(b)).value) <==> Finished(rows, a, b)
  {
    var end := Folded(rows, IdentityOf(a)).value.end;
    EndExact(domain, initial, rows, a);
    if end.Some? {
      FoldExact(domain, initial, rows, IdentityOf(b), end.value);
      BeganExact(rows, b, end.value);
    }
    if Finished(rows, a, b) {
      var j :| 0 <= j < |rows| && rows[j].outcome.Ok? && SameOperation(a, rows[j]) && rows[j].end.Some?
        && BeganAfter(rows, b, rows[j].end.value);
      assert AckedAt(rows, a, rows[j].end.value);
      BeganLater(rows, b, end.value, rows[j].end.value);
    }
  }

  lemma BeganExact(rows: seq<Row>, b: Row, t: nat)
    ensures BeganAfter(rows, b, t) <==> !Invoked(rows, IdentityOf(b), t)
  {
  }

  lemma BeganLater(rows: seq<Row>, b: Row, t: nat, u: nat)
    requires BeganAfter(rows, b, u) && t <= u
    ensures BeganAfter(rows, b, t)
  {
  }

  /** Position by position, the row is an attempt at the operation. */
  ghost predicate Aligned(rows: seq<Row>, order: seq<nat>, attempts: seq<nat>) {
    |attempts| == |order| && forall p :: 0 <= p < |order| ==> Matches(rows, order[p], attempts[p])
  }

  ghost predicate Matches(rows: seq<Row>, k: nat, i: nat) {
    k < |Identities(rows)| && i < |rows| && Counts(rows[i]) && IdentityOf(rows[i]) == Identities(rows)[k]
  }

  /** The history is one that normalizes, whatever its size. */
  ghost predicate Sensible(domain: string, initial: map<string, Value>, rows: seq<Row>) {
    RowsOk(domain, initial, rows) && PayloadsAgree(rows)
  }

  lemma {:induction false} MatchStands(domain: string, initial: map<string, Value>, rows: seq<Row>, k: nat, i: nat)
    requires Sensible(domain, initial, rows) && Matches(rows, k, i)
    ensures var ops := LogicalOperations(rows);
      StandsFor(rows, ops[k], rows[i]) && Folded(rows, IdentityOf(rows[i])) == Some(ops[k]) && rows[i].key in initial
  {
    FoldedStandsFor(domain, initial, rows, i);
  }

  lemma {:induction false} DistinctExact(rows: seq<Row>, order: seq<nat>, attempts: seq<nat>)
    requires Aligned(rows, order, attempts)
    ensures Distinct(order) <==>
            forall p, q :: 0 <= p < q < |attempts| ==> !SameOperation(rows[attempts[p]], rows[attempts[q]])
  {
    IdentitiesDistinct(rows);
    forall p, q | 0 <= p < q < |order|
      ensures order[p] == order[q] <==> SameOperation(rows[attempts[p]], rows[attempts[q]])
    {
      assert Matches(rows, order[p], attempts[p]) && Matches(rows, order[q], attempts[q]);
    }
  }

  lemma PlacedExact(rows: seq<Row>, order: seq<nat>, attempts: seq<nat>, k: nat, i: nat)
    requires Aligned(rows, order, attempts) && Matches(rows, k, i)
    ensures k in order <==> Placed(rows, attempts, rows[i])
  {
    IdentitiesDistinct(rows);
    if k in order {
      var p :| 0 <= p < |order| && order[p] == k;
      assert Matches(rows, order[p], attempts[p]) && SameOperation(rows[attempts[p]], rows[i]);
    }
    if Placed(rows, attempts, rows[i]) {
      var p :| 0 <= p < |attempts| && attempts[p] < |rows| && SameOperation(rows[attempts[p]], rows[i]);
      assert Matches(rows, order[p], attempts[p]);
      assert order[p] == k;
    }
  }

  /** The order holds every operation that may not be left out. */
  ghost predicate Covers(ops: seq<Operation>, order: seq<nat>) {
    forall k :: k in All(ops) && !ops[k].optional ==> k in order
  }

  /** Every acknowledged attempt's operation is placed. */
  ghost predicate PlacesAll(rows: seq<Row>, attempts: seq<nat>) {
    forall i :: 0 <= i < |rows| && rows[i].outcome.Ok? ==> Placed(rows, attempts, rows[i])
  }

  lemma CoveredIsPlaced(domain: string, initial: map<string, Value>, rows: seq<Row>, order: seq<nat>,
                        attempts: seq<nat>, i: nat)
    requires Sensible(domain, initial, rows) && Aligned(rows, order, attempts) && Covers(LogicalOperations(rows), order)
    requires i < |rows| && rows[i].outcome.Ok?
    ensures Placed(rows, attempts, rows[i])
  {
    var k := OperationOf(rows, i);
    MatchStands(domain, initial, rows, k, i);
    assert Acked(rows, rows[i]) && k in All(LogicalOperations(rows));
    PlacedExact(rows, order, attempts, k, i);
  }

  lemma PlacedIsCovered(domain: string, initial: map<string, Value>, rows: seq<Row>, order: seq<nat>,
                        attempts: seq<nat>, k: nat)
    requires Sensible(domain, initial, rows) && Aligned(rows, order, attempts) && PlacesAll(rows, attempts)
    requires k < |LogicalOperations(rows)| && !LogicalOperations(rows)[k].optional
    ensures k in order
  {
    var i := RowFor(rows, k);
    MatchStands(domain, initial, rows, k, i);
    assert Acked(rows, rows[i]);
    var j :| 0 <= j < |rows| && rows[j].outcome.Ok? && SameOperation(rows[i], rows[j]);
    assert Matches(rows, k, j);
    PlacedExact(rows, order, attempts, k, j);
  }

  lemma CoverageExact(domain: string, initial: map<string, Value>, rows: seq<Row>, order: seq<nat>, attempts: seq<nat>)
    requires Sensible(domain, initial, rows) && Aligned(rows, order, attempts)
    ensures Covers(LogicalOperations(rows), order) <==> PlacesAll(rows, attempts)
  {
    if Covers(LogicalOperations(rows), order) {
      forall i | 0 <= i < |rows| && rows[i].outcome.Ok? ensures Placed(rows, attempts, rows[i]) {
        CoveredIsPlaced(domain, initial, rows, order, attempts, i);
      }
    }
    if PlacesAll(rows, attempts) {
      forall k | k in All(LogicalOperations(rows)) && !LogicalOperations(rows)[k].optional ensures k in order {
        PlacedIsCovered(domain, initial, rows, order, attempts, k);
      }
    }
  }

  lemma RealTimeExact(domain: string, initial: map<string, Value>, rows: seq<Row>, order: seq<nat>, attempts: seq<nat>)
    requires Sensible(domain, initial, rows) && Aligned(rows, order, attempts)
    ensures var ops := LogicalOperations(rows);
      InRange(ops, order) &&
      (RealTime(ops, order) <==>
       forall p, q :: 0 <= p < q < |attempts| ==> !Finished(rows, rows[attempts[q]], rows[attempts[p]]))
  {
    var ops := LogicalOperations(rows);
    forall p | 0 <= p < |order| ensures order[p] < |ops| { assert Matches(rows, order[p], attempts[p]); }
    forall p, q | 0 <= p < q < |order|
      ensures Before(ops[order[q]], ops[order[p]]) <==> Finished(rows, rows[attempts[q]], rows[attempts[p]])
    {
      assert Matches(rows, order[p], attempts[p]) && Matches(rows, order[q], attempts[q]);
      MatchStands(domain, initial, rows, order[p], attempts[p]);
      MatchStands(domain, initial, rows, order[q], attempts[q]);
      BeforeExact(domain, initial, rows, rows[attempts[q]], rows[attempts[p]]);
    }
  }

  lemma {:induction false} HeldExact(domain: string, initial: map<string, Value>, rows: seq<Row>, order: seq<nat>,
                                     attempts: seq<nat>, p: nat, key: string)
    requires Sensible(domain, initial, rows) && Aligned(rows, order, attempts)
      && InRange(LogicalOperations(rows), order)
    requires p <= |order| && key in initial && forall q :: 0 <= q < |attempts| ==> attempts[q] < |rows|
    ensures OpsBefore(LogicalOperations(rows), initial, order, p, key) == HeldBefore(rows, initial, attempts, p, key)
  {
    if p > 0 {
      assert Matches(rows, order[p - 1], attempts[p - 1]);
      MatchStands(domain, initial, rows, order[p - 1], attempts[p - 1]);
      HeldExact(domain, initial, rows, order, attempts, p - 1, key);
    }
  }

  /** Reads return what was written, in the one order exactly when in the other. */
  lemma {:induction false} ReadsExact(domain: string, initial: map<string, Value>, rows: seq<Row>, order: seq<nat>,
                                      attempts: seq<nat>)
    requires Sensible(domain, initial, rows) && Aligned(rows, order, attempts)
      && InRange(LogicalOperations(rows), order)
    requires forall p :: 0 <= p < |attempts| ==> attempts[p] < |rows| && rows[attempts[p]].key in initial
    ensures ReadsHold(LogicalOperations(rows), initial, order) <==>
            forall p :: 0 <= p < |attempts| && rows[attempts[p]].kind.Get? ==>
              Recorded(rows[attempts[p]]) == HeldBefore(rows, initial, attempts, p, rows[attempts[p]].key)
  {
    var ops := LogicalOperations(rows);
    forall p | 0 <= p < |order|
      ensures var op, row := ops[order[p]], rows[attempts[p]];
        && op.key == row.key && op.kind == row.kind && op.value == Recorded(row)
        && OpsBefore(ops, initial, order, p, row.key) == HeldBefore(rows, initial, attempts, p, row.key)
    {
      assert Matches(rows, order[p], attempts[p]);
      MatchStands(domain, initial, rows, order[p], attempts[p]);
      HeldExact(domain, initial, rows, order, attempts, p, rows[attempts[p]].key);
    }
  }

  /** An order of operations linearizes the store exactly when the aligned order of attempts explains it. */
  lemma AlignedExact(domain: string, initial: map<string, Value>, rows: seq<Row>, order: seq<nat>, attempts: seq<nat>)
    requires Sensible(domain, initial, rows) && Aligned(rows, order, attempts)
    ensures var ops := LogicalOperations(rows);
      LinearizesStore(ops, All(ops), initial, order) <==> Explains(rows, initial, attempts)
  {
    var ops := LogicalOperations(rows);
    forall p | 0 <= p < |attempts|
      ensures attempts[p] < |rows| && Counts(rows[attempts[p]]) && rows[attempts[p]].key in initial
    {
      assert Matches(rows, order[p], attempts[p]);
    }
    RealTimeExact(domain, initial, rows, order, attempts);
    DistinctExact(rows, order, attempts);
    CoverageExact(domain, initial, rows, order, attempts);
    ReadsExact(domain, initial, rows, order, attempts);
    LegalExact(ops, initial, order);
  }

  lemma {:induction false} AlignAttempts(rows: seq<Row>, order: seq<nat>) returns (attempts: seq<nat>)
    requires forall p :: 0 <= p < |order| ==> order[p] < |Identities(rows)|
    ensures Aligned(rows, order, attempts)
    decreases |order|
  {
    if order == [] {
      attempts := [];
    } else {
      var n := |order| - 1;
      var init := AlignAttempts(rows, order[..n]);
      var i := RowFor(rows, order[n]);
      attempts := init + [i];
      AlignedSnoc(rows, order[..n], init, order[n], i);
      assert order[..n] + [order[n]] == order;
    }
  }

  lemma {:induction false} AlignOrder(rows: seq<Row>, attempts: seq<nat>) returns (order: seq<nat>)
    requires forall p :: 0 <= p < |attempts| ==> attempts[p] < |rows| && Counts(rows[attempts[p]])
    ensures Aligned(rows, order, attempts)
    decreases |attempts|
  {
    if attempts == [] {
      order := [];
    } else {
      var n := |attempts| - 1;
      var init := AlignOrder(rows, attempts[..n]);
      var k := OperationOf(rows, attempts[n]);
      order := init + [k];
      AlignedSnoc(rows, init, attempts[..n], k, attempts[n]);
      assert attempts[..n] + [attempts[n]] == attempts;
    }
  }

  lemma AlignedSnoc(rows: seq<Row>, order: seq<nat>, attempts: seq<nat>, k: nat, i: nat)
    requires Aligned(rows, order, attempts) && Matches(rows, k, i)
    ensures Aligned(rows, order + [k], attempts + [i])
  {
  }

  /** Linearizability of the logical operations means, for the attempts recorded, exactly that one order of
      everything acknowledged explains every read. */
  lemma {:induction false} MeaningExact(domain: string, initial: map<string, Value>, rows: seq<Row>)
    requires Sensible(domain, initial, rows)
    ensures StoreLinearizable(LogicalOperations(rows), initial) <==> Explicable(rows, initial)
  {
    var ops := LogicalOperations(rows);
    if StoreLinearizable(ops, initial) {
      var order :| LinearizesStore(ops, All(ops), initial, order);
      var attempts := AlignAttempts(rows, order);
      AlignedExact(domain, initial, rows, order, attempts);
    }
    if Explicable(rows, initial) {
      var attempts :| Explains(rows, initial, attempts);
      var order := AlignOrder(rows, attempts);
      AlignedExact(domain, initial, rows, order, attempts);
    }
  }
}
