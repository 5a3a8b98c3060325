/** From recorded attempts to a verdict: each key is searched on its own, and the verdict speaks about the
    whole store, in terms of what was recorded. */
module HistoryCheck {
  import opened Basics
  import opened Types
  import opened Linearizability
  import opened HistorySearch
  import opened HistoryRows
  import opened HistoryMeaning

  // ---------------------------------------------------------------- normalize

  datatype Normalized = Valid(operations: seq<Operation>) | Invalid

  /** Accepts exactly the valid histories, and folds their attempts into the operations that stand for them. */
  method Normalize(domain: string, initial: map<string, Value>, rows: seq<Row>, maxOperations: nat)
    returns (r: Normalized)
    ensures r.Valid? <==> HistoryOk(domain, initial, rows, maxOperations)
    ensures r.Valid? ==> r.operations == LogicalOperations(rows) && Accounts(rows, r.operations)
  {
    if domain == "" || |rows| > MAX_ATTEMPTS { return Invalid; }
    var groups: map<Identity, Operation> := map[];
    var order: seq<Identity> := [];
    var seen: set<string> := {};
    var n := 0;
    while n < |rows|
      invariant n <= |rows| && RowsOk(domain, initial, rows[..n]) && GroupsAgree(rows[..n])
      invariant seen == Seen(rows[..n])
      invariant Tracks(rows[..n], groups, order)
    {
      var row := rows[n];
      ghost var init, before, ordered := rows[..n], groups, order;
      assert rows[..n + 1] == init + [row];
      if row.id in seen || !RowOk(domain, initial, row) {
        BadRow(domain, initial, rows, n);
        return Invalid;
      }
      RowsOkSnoc(domain, initial, init, row);
      GroupsAgreeSnoc(init, row);
      seen := seen + {row.id};
      var id := IdentityOf(row);
      assert Lookup(groups, id) == Folded(init, id);
      if Effective(row) {
        if id !in groups {
          groups, order := groups[id := Item(row)], order + [id];
        } else if !SamePayload(groups[id], row) {
          NotAgreeing(rows, n + 1);
          return Invalid;
        } else {
          groups := groups[id := Absorb(groups[id], row)];
        }
      }
      TracksSnoc(init, row, before, ordered, groups, order);
      n := n + 1;
    }
    assert rows[..n] == rows;
    GroupsAgreeExact(rows);
    if |order| > maxOperations { return Invalid; }
    OperationsExact(domain, initial, rows);
    r := Collect(groups, order, rows);
  }

  method Collect(groups: map<Identity, Operation>, order: seq<Identity>, ghost rows: seq<Row>) returns (r: Normalized)
    requires Tracks(rows, groups, order)
    ensures r == Valid(LogicalOperations(rows))
  {
    forall i | 0 <= i < |order| ensures order[i] in groups {
      assert order[i] in order;
      assert Lookup(groups, order[i]) == Folded(rows, order[i]);
    }
    var operations := seq(|order|, i requires 0 <= i < |order| => groups[order[i]]);
    forall i | 0 <= i < |order| ensures operations[i] == LogicalOperations(rows)[i] {
      assert Lookup(groups, order[i]) == Folded(rows, order[i]);
    }
    r := Valid(operations);
  }

  // ---------------------------------------------------------------- check

  function Selected(ops: seq<Operation>, key: string, from: nat): (r: seq<nat>)
    requires from <= |ops|
    ensures InRange(ops, r) && Distinct(r) && |r| <= |ops| - from
    ensures forall x :: x in r <==> from <= x < |ops| && ops[x].key == key
    decreases |ops| - from
  {
    if from == |ops| then []
    else
      var rest := Selected(ops, key, from + 1);
      if ops[from].key == key then [from] + rest else rest
  }

  lemma {:induction false} SelectedMembers(ops: seq<Operation>, key: string)
    ensures Members(Selected(ops, key, 0)) == OfKey(ops, key)
  {
    var r := Selected(ops, key, 0);
    forall x ensures x in Members(r) <==> x in OfKey(ops, key) {
      assert x in Members(r) <==> x in r;
    }
  }

  datatype Report = Report(verdict: Verdict, states: nat, culprit: Option<string>)

  ghost predicate KeyLinearizes(ops: seq<Operation>, initial: map<string, Value>, key: string)
    requires key in initial
  {
    LinearizableOn(ops, OfKey(ops, key), initial[key])
  }

  ghost predicate EveryKeyLinearizes(ops: seq<Operation>, initial: map<string, Value>) {
    forall k :: k in initial ==> KeyLinearizes(ops, initial, k)
  }

  /** The keys decide the store, and the store the recorded attempts. */
  lemma {:induction false} KeysDecide(domain: string, initial: map<string, Value>, rows: seq<Row>)
    requires Sensible(domain, initial, rows)
    ensures EveryKeyLinearizes(LogicalOperations(rows), initial) <==>
            StoreLinearizable(LogicalOperations(rows), initial)
    ensures EveryKeyLinearizes(LogicalOperations(rows), initial) <==> Explicable(rows, initial)
  {
    OperationsWellFormed(domain, initial, rows);
    LocalityExact(LogicalOperations(rows), initial);
    MeaningExact(domain, initial, rows);
  }

  /** Keys without operations need no search. */
  lemma IdleKey(ops: seq<Operation>, initial: map<string, Value>, key: string)
    requires key in initial && forall i :: 0 <= i < |ops| ==> ops[i].key != key
    ensures KeyLinearizes(ops, initial, key)
  {
    assert Linearizes(ops, OfKey(ops, key), initial[key], []);
  }

  /** One key's turn: the verdict of its own search, about its own operations. */
  method CheckKey(ops: seq<Operation>, initial: map<string, Value>, key: string, budget: nat) returns (r: SearchResult)
    requires AllWellFormed(ops) && key in initial
    ensures r.states <= budget && r.states <= StateBound(|ops|)
    ensures r.verdict.Pass? ==> KeyLinearizes(ops, initial, key)
    ensures r.verdict.Fail? ==> !KeyLinearizes(ops, initial, key)
    ensures r.verdict.Inconclusive? ==> r.states == budget
  {
    var selected := Selected(ops, key, 0);
    BoundMonotone(|selected|, |ops|);
    r := Search(Pick(ops, selected), initial[key], budget);
    PickLinearizable(ops, selected, initial[key]);
    SelectedMembers(ops, key);
    assert r.verdict.Pass? ==> Linearizable(Pick(ops, selected), initial[key]);
  }

  lemma SpendMore(spent: nat, used: nat, turns: nat, bound: nat)
    requires spent <= turns * bound && used <= bound
    ensures spent + used <= (turns + 1) * bound
  {
  }

  lemma SpendAtMost(spent: nat, turns: nat, keys: nat, bound: nat)
    requires spent <= turns * bound && turns <= keys
    ensures spent <= keys * bound
  {
    TimesMonotone(turns, keys, bound, bound);
  }

  /** The turns of all keys with operations, in any order, on one budget. */
  method CheckKeys(ops: seq<Operation>, initial: map<string, Value>, budget: nat) returns (r: Report)
    requires AllWellFormed(ops) && forall i :: 0 <= i < |ops| ==> ops[i].key in initial
    ensures r.states <= budget && r.states <= |initial| * StateBound(|ops|)
    ensures r.verdict.Inconclusive? ==> r.states == budget
    ensures r.verdict.Pass? ==> EveryKeyLinearizes(ops, initial)
    ensures r.verdict.Fail? ==>
      r.culprit.Some? && r.culprit.value in initial && !KeyLinearizes(ops, initial, r.culprit.value)
  {
    var pending := set i | 0 <= i < |ops| :: ops[i].key;
    ghost var keys := pending;
    var remaining: nat, verdict := budget, Pass;
    ghost var bound, turns := StateBound(|ops|), 0;
    assert |keys| <= |initial.Keys| == |initial| by { SubsetSize(keys, initial.Keys); }
    while pending != {}
      invariant remaining <= budget && !verdict.Fail? && (verdict.Inconclusive? ==> remaining == 0)
      invariant pending <= keys && turns + |pending| == |keys| && budget - remaining <= turns * bound
      invariant verdict.Pass? ==> forall k :: k in keys - pending ==> KeyLinearizes(ops, initial, k)
      decreases |pending|
    {
      var key :| key in pending;
      pending := pending - {key};
      var result := CheckKey(ops, initial, key, remaining);
      SpendMore(budget - remaining, result.states, turns, bound);
      remaining, turns := remaining - result.states, turns + 1;
      SpendAtMost(budget - remaining, turns, |initial|, bound);
      if result.verdict.Fail? { return Report(Fail, budget - remaining, Some(key)); }
      if result.verdict.Inconclusive? { verdict := Inconclusive; }
    }
    SpendAtMost(budget - remaining, turns, |initial|, bound);
    if verdict.Pass? {
      forall k | k in initial.Keys ensures KeyLinearizes(ops, initial, k) {
        if k !in keys { IdleKey(ops, initial, k); }
      }
    }
    r := Report(verdict, budget - remaining, None);
  }

  /** PASS means that one order of everything acknowledged, of all keys, explains every read that was recorded;
      FAIL that none does and one key alone shows it. A valid history is inconclusive only on a spent budget, and
      no search spends more than the bound. */
  method Check(domain: string, initial: map<string, Value>, rows: seq<Row>, budget: nat, maxOperations: nat)
    returns (r: Report)
    ensures r.states <= budget
    ensures r.states <= |initial| * StateBound(|LogicalOperations(rows)|)
    ensures HistoryOk(domain, initial, rows, maxOperations) && r.verdict.Inconclusive? ==> r.states == budget
    ensures !HistoryOk(domain, initial, rows, maxOperations) ==> r.verdict.Inconclusive?
    ensures r.verdict.Pass? ==> Explicable(rows, initial) && StoreLinearizable(LogicalOperations(rows), initial)
    ensures r.verdict.Fail? ==> !Explicable(rows, initial) && !StoreLinearizable(LogicalOperations(rows), initial)
    ensures r.verdict.Fail? ==>
      r.culprit.Some? && r.culprit.value in initial && !KeyLinearizes(LogicalOperations(rows), initial, r.culprit.value)
  {
    if budget < 1 { return Report(Inconclusive, 0, None); }
    var normalized := Normalize(domain, initial, rows, maxOperations);
    if normalized.Invalid? { return Report(Inconclusive, 0, None); }
    OperationsWellFormed(domain, initial, rows);
    r := CheckKeys(normalized.operations, initial, budget);
    KeysDecide(domain, initial, rows);
  }
}
