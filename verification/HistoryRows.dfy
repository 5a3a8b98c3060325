/** From recorded attempts to logical operations: what a valid history is, and how retries are folded. */
module HistoryRows {
  import opened Types
  import opened Linearizability

  datatype Field = Missing | Null | Text(text: string) | Other

  datatype Outcome = Ok | Unknown | Rejected

  /** One recorded attempt, with its fields already of the right JSON types. */
  datatype Row = Row(
    id: string,
    clockDomain: Option<string>,
    key: string,
    kind: Kind,
    outcome: Outcome,
    start: nat,
    end: Option<nat>,
    value: Field,
    linearizableRead: bool,
    logical: Option<string>,
    retryProtected: bool)

  datatype Identity = Logical(id: string) | Attempt(id: string)

  const MAX_ATTEMPTS: nat := 100000

  predicate RowOk(domain: string, initial: map<string, Value>, row: Row) {
    && row.id != "" && row.key != "" && row.key in initial
    && (row.clockDomain.Some? ==> row.clockDomain.value == domain)
    && (row.end.Some? ==> row.start <= row.end.value)
    && (!row.outcome.Unknown? ==> row.end.Some?)
    && (row.kind.Put? ==> row.value.Text?)
    && (row.kind.Get? && row.outcome.Ok? ==> row.linearizableRead && (row.value.Text? || row.value.Null?))
    && (row.logical.Some? ==> row.logical.value != "" && !row.kind.Get? && row.retryProtected)
  }

  /** A definite rejection is no transition, and an unanswered read constrains nothing. */
  predicate Effective(row: Row) {
    !row.outcome.Rejected? && !(row.kind.Get? && row.outcome.Unknown?)
  }

  function IdentityOf(row: Row): Identity {
    if row.logical.Some? then Logical(row.logical.value) else Attempt(row.id)
  }

  function ValueOf(row: Row): Value {
    if !row.kind.Delete? && row.value.Text? then Some(row.value.text) else None
  }

  function Item(row: Row): Operation {
    Operation(IdentityOf(row).id, [row.id], row.kind, row.key, ValueOf(row), row.start,
              if row.outcome.Ok? then row.end else None, row.outcome.Unknown?)
  }

  predicate SamePayload(op: Operation, row: Row) {
    op.kind == row.kind && op.key == row.key && op.value == ValueOf(row)
  }

  function Earlier(a: Option<nat>, b: Option<nat>): Option<nat> {
    if a.None? then b else if b.None? || a.value <= b.value then a else b
  }

  /** A retry widens the interval to the first invocation and narrows it to the first acknowledgement. */
  function Absorb(op: Operation, row: Row): Operation {
    op.(attempts := op.attempts + [row.id],
        start := if row.start <= op.start then row.start else op.start,
        end := if row.outcome.Ok? then Earlier(op.end, row.end) else op.end,
        optional := op.optional && !row.outcome.Ok?)
  }

  // ---------------------------------------------------------------- specification

  predicate Contributes(row: Row, id: Identity) {
    Effective(row) && IdentityOf(row) == id
  }

  /** All attempts of one identity, folded in recording order. */
  function Folded(rows: seq<Row>, id: Identity): Option<Operation> {
    if rows == [] then None
    else
      var last, before := rows[|rows| - 1], Folded(rows[..|rows| - 1], id);
      if !Contributes(last, id) then before
      else if before.None? then Some(Item(last)) else Some(Absorb(before.value, last))
  }

  /** Identities in order of first appearance. */
  function Identities(rows: seq<Row>): (r: seq<Identity>)
    ensures forall id :: id in r <==> Folded(rows, id).Some?
  {
    if rows == [] then []
    else
      var last, before := rows[|rows| - 1], Identities(rows[..|rows| - 1]);
      if Effective(last) && IdentityOf(last) !in before then before + [IdentityOf(last)] else before
  }

  ghost function LogicalOperations(rows: seq<Row>): (r: seq<Operation>)
    ensures |r| == |Identities(rows)|
    ensures forall i :: 0 <= i < |r| ==> Folded(rows, Identities(rows)[i]) == Some(r[i])
  {
    var ids := Identities(rows);
    assert forall i :: 0 <= i < |ids| ==> ids[i] in ids;
    seq(|ids|, i requires 0 <= i < |ids| => Folded(rows, ids[i]).value)
  }

  ghost predicate RowsOk(domain: string, initial: map<string, Value>, rows: seq<Row>) {
    && (forall i :: 0 <= i < |rows| ==> RowOk(domain, initial, rows[i]))
    && (forall i, j :: 0 <= i < j < |rows| ==> rows[i].id != rows[j].id)
  }

  ghost predicate PayloadsAgree(rows: seq<Row>) {
    forall i, j ::
      0 <= i < j < |rows| && Effective(rows[i]) && Effective(rows[j]) && IdentityOf(rows[i]) == IdentityOf(rows[j]) ==>
      rows[i].kind == rows[j].kind && rows[i].key == rows[j].key && ValueOf(rows[i]) == ValueOf(rows[j])
  }

  /** Exactly the histories that normalize. */
  ghost predicate HistoryOk(domain: string, initial: map<string, Value>, rows: seq<Row>, maxOperations: nat) {
    && domain != "" && |rows| <= MAX_ATTEMPTS && RowsOk(domain, initial, rows) && PayloadsAgree(rows)
    && |Identities(rows)| <= maxOperations
  }

  // ---------------------------------------------------------------- what folding means

  ghost predicate Invoked(rows: seq<Row>, id: Identity, t: nat) {
    exists i :: 0 <= i < |rows| && Contributes(rows[i], id) && rows[i].start <= t
  }

  ghost predicate NotAfterAck(rows: seq<Row>, id: Identity, t: nat) {
    forall i :: 0 <= i < |rows| && Contributes(rows[i], id) && rows[i].outcome.Ok? && rows[i].end.Some? ==>
      t <= rows[i].end.value
  }

  ghost predicate Acknowledged(rows: seq<Row>, id: Identity) {
    exists i :: 0 <= i < |rows| && Contributes(rows[i], id) && rows[i].outcome.Ok?
  }

  /** What folding is to mean for the instant `t`. */
  ghost predicate FoldsTo(initial: map<string, Value>, rows: seq<Row>, id: Identity, op: Operation, t: nat) {
    && (op.start <= t <==> Invoked(rows, id, t))
    && (op.end.None? || t <= op.end.value <==> NotAfterAck(rows, id, t))
    && (op.optional <==> !Acknowledged(rows, id))
    && WellFormed(op) && op.key in initial
  }

  lemma FoldsOne(domain: string, initial: map<string, Value>, init: seq<Row>, last: Row, id: Identity, t: nat)
    requires RowOk(domain, initial, last) && Contributes(last, id)
    requires forall i :: 0 <= i < |init| ==> !Contributes(init[i], id)
    ensures FoldsTo(initial, init + [last], id, Item(last), t)
  {
    SnocFacts(init, last, id, t);
  }

  lemma FoldsMore(domain: string, initial: map<string, Value>, init: seq<Row>, last: Row, id: Identity, op: Operation,
                  t: nat)
    requires RowOk(domain, initial, last) && FoldsTo(initial, init, id, op, t)
    ensures FoldsTo(initial, init + [last], id, if Contributes(last, id) then Absorb(op, last) else op, t)
  {
    SnocFacts(init, last, id, t);
  }

  /** Folding is exact: a logical operation spans precisely the instants after some attempt was invoked
      and not after any attempt was acknowledged, and it is optional exactly when none was. */
  lemma {:induction false} FoldExact(domain: string, initial: map<string, Value>, rows: seq<Row>, id: Identity, t: nat)
    requires forall i :: 0 <= i < |rows| ==> RowOk(domain, initial, rows[i])
    requires Folded(rows, id).Some?
    ensures FoldsTo(initial, rows, id, Folded(rows, id).value, t)
  {
    var last, init := rows[|rows| - 1], rows[..|rows| - 1];
    assert rows == init + [last];
    if Folded(init, id).Some? {
      FoldExact(domain, initial, init, id, t);
      FoldsMore(domain, initial, init, last, id, Folded(init, id).value, t);
    } else {
      NoneContributes(init, id);
      FoldsOne(domain, initial, init, last, id, t);
    }
  }

  lemma SnocFacts(init: seq<Row>, last: Row, id: Identity, t: nat)
    ensures var rows := init + [last]; var mine := Contributes(last, id);
      && (Invoked(rows, id, t) <==> Invoked(init, id, t) || (mine && last.start <= t))
      && (NotAfterAck(rows, id, t) <==>
            NotAfterAck(init, id, t) && (mine && last.outcome.Ok? && last.end.Some? ==> t <= last.end.value))
      && (Acknowledged(rows, id) <==> Acknowledged(init, id) || (mine && last.outcome.Ok?))
  {
    var rows := init + [last];
    assert rows[|init|] == last;
    assert forall i :: 0 <= i < |init| ==> rows[i] == init[i];
  }

  lemma {:induction false} NoneContributes(rows: seq<Row>, id: Identity)
    requires Folded(rows, id).None?
    ensures forall i :: 0 <= i < |rows| ==> !Contributes(rows[i], id)
  {
    if rows != [] {
      NoneContributes(rows[..|rows| - 1], id);
    }
  }

  lemma OperationsWellFormed(domain: string, initial: map<string, Value>, rows: seq<Row>)
    requires RowsOk(domain, initial, rows)
    ensures var ops := LogicalOperations(rows);
      AllWellFormed(ops) && forall i :: 0 <= i < |ops| ==> ops[i].key in initial
  {
    var ops := LogicalOperations(rows);
    forall i | 0 <= i < |ops| ensures WellFormed(ops[i]) && ops[i].key in initial {
      FoldExact(domain, initial, rows, Identities(rows)[i], 0);
    }
  }

  // ---------------------------------------------------------------- agreement of retries

  lemma {:induction false} FoldedSnoc(init: seq<Row>, last: Row, id: Identity)
    ensures Folded(init + [last], id) ==
      if !Contributes(last, id) then Folded(init, id)
      else if Folded(init, id).None? then Some(Item(last)) else Some(Absorb(Folded(init, id).value, last))
  {
    var rows := init + [last];
    assert rows[..|rows| - 1] == init && rows[|rows| - 1] == last;
  }

  /** The folded payload is that of every contributing row exactly when the rows agree. */
  ghost predicate GroupsAgree(rows: seq<Row>) {
    forall i :: 0 <= i < |rows| && Effective(rows[i]) ==> GroupAgrees(rows, rows[i])
  }

  ghost predicate GroupAgrees(rows: seq<Row>, row: Row) {
    var f := Folded(rows, IdentityOf(row));
    f.Some? && SamePayload(f.value, row)
  }

  /** What a new row must meet to join its group. */
  ghost predicate Joins(rows: seq<Row>, row: Row) {
    var f := Folded(rows, IdentityOf(row));
    Effective(row) && f.Some? ==> SamePayload(f.value, row)
  }

  lemma {:induction false} GroupsAgreeExact(rows: seq<Row>)
    ensures GroupsAgree(rows) <==> PayloadsAgree(rows)
  {
    if rows != [] {
      var last, init := rows[|rows| - 1], rows[..|rows| - 1];
      GroupsAgreeExact(init);
      GroupsAgreeSnoc(init, last);
      assert rows == init + [last];
      PayloadsAgreeSnoc(init, last);
    }
  }

  lemma GroupsAgreeSnoc(init: seq<Row>, last: Row)
    ensures GroupsAgree(init + [last]) <==> GroupsAgree(init) && Joins(init, last)
  {
    var rows := init + [last];
    FoldedSnoc(init, last, IdentityOf(last));
    forall i | 0 <= i < |init| && Effective(init[i])
      ensures GroupAgrees(rows, init[i]) <==> GroupAgrees(init, init[i])
    {
      FoldedSnoc(init, last, IdentityOf(init[i]));
      if Folded(init, IdentityOf(init[i])).None? { NoneContributes(init, IdentityOf(init[i])); }
    }
    assert forall i :: 0 <= i < |init| ==> rows[i] == init[i];
    assert rows[|init|] == last;
  }

  lemma PayloadsAgreeSnoc(init: seq<Row>, last: Row)
    requires GroupsAgree(init) <==> PayloadsAgree(init)
    ensures PayloadsAgree(init + [last]) <==> PayloadsAgree(init) && Joins(init, last)
  {
    var rows, id := init + [last], IdentityOf(last);
    assert rows[|init|] == last && forall i :: 0 <= i < |init| ==> rows[i] == init[i];
    if PayloadsAgree(rows) {
      PayloadsAgreePrefix(rows, |init|);
      assert rows[..|init|] == init;
      if Effective(last) && Folded(init, id).Some? {
        var i := SomeContributes(init, id);
        assert GroupAgrees(init, init[i]);
        assert rows[i].kind == rows[|init|].kind;
      }
    }
    if PayloadsAgree(init) && Joins(init, last) {
      forall i, j | 0 <= i < j < |rows| && Effective(rows[i]) && Effective(rows[j])
        && IdentityOf(rows[i]) == IdentityOf(rows[j])
        ensures rows[i].kind == rows[j].kind && rows[i].key == rows[j].key && ValueOf(rows[i]) == ValueOf(rows[j])
      {
        assert GroupAgrees(init, init[i]);
      }
    }
  }

  lemma PayloadsAgreePrefix(rows: seq<Row>, n: nat)
    requires PayloadsAgree(rows) && n <= |rows|
    ensures PayloadsAgree(rows[..n])
  {
  }

  lemma {:induction false} SomeContributes(rows: seq<Row>, id: Identity) returns (i: nat)
    requires Folded(rows, id).Some?
    ensures i < |rows| && Contributes(rows[i], id)
  {
    if Contributes(rows[|rows| - 1], id) {
      i := |rows| - 1;
    } else {
      i := SomeContributes(rows[..|rows| - 1], id);
    }
  }

  /** The dictionary of groups and its insertion order, after the rows so far. */
  ghost predicate Tracks(rows: seq<Row>, groups: map<Identity, Operation>, order: seq<Identity>) {
    order == Identities(rows) && forall id :: Lookup(groups, id) == Folded(rows, id)
  }

  function Lookup(groups: map<Identity, Operation>, id: Identity): Option<Operation> {
    if id in groups then Some(groups[id]) else None
  }

  lemma TracksSnoc(init: seq<Row>, last: Row, groups: map<Identity, Operation>, order: seq<Identity>,
                   groups': map<Identity, Operation>, order': seq<Identity>)
    requires Tracks(init, groups, order)
    requires var id := IdentityOf(last);
      if !Effective(last) then groups' == groups && order' == order
      else if id in groups then groups' == groups[id := Absorb(groups[id], last)] && order' == order
      else groups' == groups[id := Item(last)] && order' == order + [id]
    ensures Tracks(init + [last], groups', order')
  {
    var rows := init + [last];
    assert rows[..|rows| - 1] == init && rows[|rows| - 1] == last;
    assert Lookup(groups, IdentityOf(last)) == Folded(init, IdentityOf(last));
    forall id ensures Lookup(groups', id) == Folded(rows, id) {
      FoldedSnoc(init, last, id);
      assert Lookup(groups, id) == Folded(init, id);
    }
  }

  function Seen(rows: seq<Row>): set<string> {
    set i | 0 <= i < |rows| :: rows[i].id
  }

  lemma RowsOkSnoc(domain: string, initial: map<string, Value>, init: seq<Row>, row: Row)
    requires RowsOk(domain, initial, init) && row.id !in Seen(init) && RowOk(domain, initial, row)
    ensures RowsOk(domain, initial, init + [row]) && Seen(init + [row]) == Seen(init) + {row.id}
  {
    var rows := init + [row];
    assert forall i :: 0 <= i < |init| ==> rows[i] == init[i] && init[i].id in Seen(init);
    assert rows[|init|] == row;
    assert Seen(rows) == Seen(init) + {row.id} by {
      forall x | x in Seen(init) ensures x in Seen(rows) {
        var i :| 0 <= i < |init| && init[i].id == x;
        assert rows[i].id == x;
      }
    }
  }

  lemma BadRow(domain: string, initial: map<string, Value>, rows: seq<Row>, n: nat)
    requires n < |rows| && (rows[n].id in Seen(rows[..n]) || !RowOk(domain, initial, rows[n]))
    ensures !RowsOk(domain, initial, rows)
  {
    if rows[n].id in Seen(rows[..n]) {
      var i :| 0 <= i < n && rows[..n][i].id == rows[n].id;
      assert rows[i].id == rows[n].id;
    }
  }

  /** A disagreement within a prefix is one of the whole. */
  lemma NotAgreeing(rows: seq<Row>, n: nat)
    requires n <= |rows| && !GroupsAgree(rows[..n])
    ensures !PayloadsAgree(rows)
  {
    GroupsAgreeExact(rows[..n]);
    if PayloadsAgree(rows) { PayloadsAgreePrefix(rows, n); }
  }
}
