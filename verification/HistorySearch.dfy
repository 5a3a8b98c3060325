/** The history checker's memoized backtracking search, its read reduction, and why both are exact. */
module HistorySearch {
  import opened Basics
  import opened Types
  import opened Linearizability

  /** What a witness says happened to one operation. */
  datatype Action = OmitUnknown | ApplyUnknown | Apply(kind: Kind)

  datatype Decision = Decision(index: nat, action: Action)

  function Predecessors(ops: seq<Operation>, i: nat): set<nat>
    requires i < |ops|
  {
    set j: nat | j < |ops| && Before(ops[j], ops[i])
  }

  predicate ActionOk(op: Operation, value: Value, action: Action) {
    match action
    case OmitUnknown => op.optional
    case ApplyUnknown => op.optional && Admits(value, op)
    case Apply(kind) => !op.optional && kind == op.kind && Admits(value, op)
  }

  function Result(op: Operation, value: Value, action: Action): Value {
    if action.OmitUnknown? then value else After(value, op)
  }

  /** `w` disposes of the `remaining` operations one by one, never one whose predecessor still waits. */
  predicate Completes(ops: seq<Operation>, remaining: set<nat>, value: Value, w: seq<Decision>)
    decreases w
  {
    if w == [] then remaining == {}
    else
      && w[0].index in remaining && w[0].index < |ops|
      && Predecessors(ops, w[0].index) !! remaining
      && ActionOk(ops[w[0].index], value, w[0].action)
      && Completes(ops, remaining - {w[0].index}, Result(ops[w[0].index], value, w[0].action), w[1..])
  }

  ghost predicate Completable(ops: seq<Operation>, remaining: set<nat>, value: Value) {
    exists w :: Completes(ops, remaining, value, w)
  }

  // ---------------------------------------------------------------- the search space is exact

  /** The operations a witness applies, in order. */
  function Applied(w: seq<Decision>): seq<nat> {
    if w == [] then []
    else (if w[0].action.OmitUnknown? then [] else [w[0].index]) + Applied(w[1..])
  }

  lemma {:induction false} WitnessLinearizes(ops: seq<Operation>, remaining: set<nat>, value: Value, w: seq<Decision>)
    requires remaining <= All(ops) && Completes(ops, remaining, value, w)
    ensures Linearizes(ops, remaining, value, Applied(w))
    decreases w
  {
    if w != [] {
      var x := w[0].index;
      WitnessLinearizes(ops, remaining - {x}, Result(ops[x], value, w[0].action), w[1..]);
      if w[0].action.OmitUnknown? {
        assert Applied(w) == Applied(w[1..]);
      } else {
        ConsLinearizes(ops, remaining, x, value, Applied(w[1..]));
      }
    }
  }

  lemma ConsLinearizes(ops: seq<Operation>, remaining: set<nat>, x: nat, value: Value, rest: seq<nat>)
    requires remaining <= All(ops) && x in remaining && Predecessors(ops, x) !! remaining && Admits(value, ops[x])
    requires Linearizes(ops, remaining - {x}, After(value, ops[x]), rest)
    ensures Linearizes(ops, remaining, value, [x] + rest)
  {
    forall j | 0 <= j < |rest| ensures rest[j] != x && !Before(ops[rest[j]], ops[x]) {
      assert rest[j] in rest;
    }
    ConsOrders(ops, x, rest);
    assert ([x] + rest)[1..] == rest;
  }

  lemma {:induction false} LinearizationCompletes(ops: seq<Operation>, remaining: set<nat>, value: Value,
                                                  order: seq<nat>)
    returns (w: seq<Decision>)
    requires AllWellFormed(ops) && remaining <= All(ops) && Linearizes(ops, remaining, value, order)
    ensures Completes(ops, remaining, value, w)
    decreases |remaining|
  {
    if remaining == {} {
      w := [];
    } else if order == [] {
      var x :| x in remaining;
      var rest := LinearizationCompletes(ops, remaining - {x}, value, order);
      w := [Decision(x, OmitUnknown)] + rest;
      ExtendCompletes(ops, remaining, value, x, OmitUnknown, rest);
    } else {
      var x, tail := order[0], order[1..];
      assert x in order;
      FirstIsFree(ops, remaining, order);
      TailOrders(ops, remaining, order);
      var rest := LinearizationCompletes(ops, remaining - {x}, After(value, ops[x]), tail);
      var action := if ops[x].optional then ApplyUnknown else Apply(ops[x].kind);
      w := [Decision(x, action)] + rest;
      ExtendCompletes(ops, remaining, value, x, action, rest);
    }
  }

  lemma FirstIsFree(ops: seq<Operation>, remaining: set<nat>, order: seq<nat>)
    requires AllWellFormed(ops) && remaining <= All(ops) && Orders(ops, remaining, order) && order != []
    ensures Predecessors(ops, order[0]) !! remaining
  {
    forall y | y in remaining ensures !Before(ops[y], ops[order[0]]) {
      if !ops[y].optional {
        var j :| 0 <= j < |order| && order[j] == y;
        assert WellFormed(ops[y]);
        assert j > 0 ==> !Before(ops[order[j]], ops[order[0]]);
      }
    }
  }

  lemma TailOrders(ops: seq<Operation>, remaining: set<nat>, order: seq<nat>)
    requires Orders(ops, remaining, order) && order != []
    ensures Orders(ops, remaining - {order[0]}, order[1..])
  {
    assert order == [order[0]] + order[1..];
  }

  /** The searched completions are exactly the linearizations: an order of all required operations and
      some subset of the unknown mutations. */
  lemma CompletableExact(ops: seq<Operation>, value: Value)
    requires AllWellFormed(ops)
    ensures Completable(ops, All(ops), value) <==> Linearizable(ops, value)
  {
    if Completable(ops, All(ops), value) {
      var w :| Completes(ops, All(ops), value, w);
      WitnessLinearizes(ops, All(ops), value, w);
    }
    if Linearizable(ops, value) {
      var order :| Linearizes(ops, All(ops), value, order);
      var w := LinearizationCompletes(ops, All(ops), value, order);
    }
  }

  // ---------------------------------------------------------------- how many states there are

  function Subsets(n: nat): set<set<nat>> {
    if n == 0 then {{}}
    else
      var smaller := Subsets(n - 1);
      smaller + set s | s in smaller :: s + {n - 1}
  }

  lemma {:induction false} SubsetsComplete(n: nat, s: set<nat>)
    requires forall x :: x in s ==> x < n
    ensures s in Subsets(n)
  {
    if n == 0 {
      assert s == {};
    } else {
      var m: nat := n - 1;
      SubsetsComplete(m, s - {m});
      assert m in s ==> s == s - {m} + {m};
      assert m !in s ==> s == s - {m};
    }
  }

  lemma {:induction false} SubsetsBound(n: nat)
    ensures |Subsets(n)| <= Power(n)
  {
    if n > 0 {
      SubsetsBound(n - 1);
      var smaller := Subsets(n - 1);
      var added := set s | s in smaller :: s + {n - 1};
      ImageBound(smaller, s => s + {n - 1}, added);
    }
  }

  lemma {:induction false} ImageBound<A, B>(a: set<A>, f: A -> B, b: set<B>)
    requires forall y :: y in b ==> exists x :: x in a && f(x) == y
    ensures |b| <= |a|
    decreases |a|
  {
    if b != {} {
      var y :| y in b;
      var x :| x in a && f(x) == y;
      ImageBound(a - {x}, f, b - {y});
    }
  }

  /** The values a register can hold during a search. */
  function Values(ops: seq<Operation>, initial: Value): set<Value> {
    {initial} + set i | 0 <= i < |ops| :: ops[i].value
  }

  lemma ValuesBound(ops: seq<Operation>, initial: Value)
    ensures |Values(ops, initial)| <= |ops| + 1
  {
    var written := set i | 0 <= i < |ops| :: ops[i].value;
    var positions := Members(Range(|ops|));
    forall y | y in written
      ensures exists x :: x in positions && (if 0 <= x < |ops| then ops[x].value else initial) == y
    {
      var i :| 0 <= i < |ops| && ops[i].value == y;
      assert Range(|ops|)[i] in positions;
    }
    ImageBound<nat, Value>(positions, x => if 0 <= x < |ops| then ops[x].value else initial, written);
    RangeSize(|ops|);
  }

  lemma {:induction false} RangeSize(n: nat)
    ensures |Members(Range(n))| == n
  {
    if n > 0 {
      RangeSize(n - 1);
      forall x: nat ensures x in Members(Range(n)) <==> x in Members(Range(n - 1)) + {n - 1} {
        RangeMember(n, x);
        RangeMember(n - 1, x);
      }
      assert Members(Range(n)) == Members(Range(n - 1)) + {n - 1};
      RangeMember(n - 1, n - 1);
    }
  }

  lemma RangeMember(n: nat, x: nat)
    ensures x in Members(Range(n)) <==> x < n
  {
    if x < n { assert Range(n)[x] == x; }
  }

  ghost predicate Reachable(ops: seq<Operation>, initial: Value, m: (set<nat>, Value)) {
    m.0 <= All(ops) && m.1 in Values(ops, initial)
  }

  lemma {:induction false} PairsBound(subsets: set<set<nat>>, values: set<Value>, pairs: set<(set<nat>, Value)>)
    requires forall m :: m in pairs ==> m.0 in subsets && m.1 in values
    ensures |pairs| <= |subsets| * |values|
    decreases |subsets|
  {
    if subsets == {} {
      assert pairs == {};
    } else {
      var s :| s in subsets;
      var own, others := set m | m in pairs && m.0 == s, set m | m in pairs && m.0 != s;
      PairsBound(subsets - {s}, values, others);
      forall y | y in own ensures exists x :: x in values && (s, x) == y { assert y == (s, y.1); }
      ImageBound(values, x => (s, x), own);
      assert pairs == own + others;
      assert |subsets| * |values| == (|subsets| - 1) * |values| + |values|;
    }
  }

  /** There are at most `2^n * (n + 1)` search states. */
  lemma {:induction false} StatesBound(ops: seq<Operation>, initial: Value, pairs: set<(set<nat>, Value)>)
    requires forall m :: m in pairs ==> Reachable(ops, initial, m)
    ensures |pairs| <= Power(|ops|) * (|ops| + 1)
  {
    forall m | m in pairs ensures m.0 in Subsets(|ops|) { SubsetsComplete(|ops|, m.0); }
    PairsBound(Subsets(|ops|), Values(ops, initial), pairs);
    SubsetsBound(|ops|);
    ValuesBound(ops, initial);
    TimesMonotone(|Subsets(|ops|)|, Power(|ops|), |Values(ops, initial)|, |ops| + 1);
  }

  lemma TimesMonotone(a: nat, b: nat, c: nat, d: nat)
    requires a <= b && c <= d
    ensures a * c <= b * d
  {
    assert a * c <= b * c by { assert (b - a) * c >= 0; }
    assert b * c <= b * d by { assert b * (d - c) >= 0; }
  }

  // ---------------------------------------------------------------- the search

  datatype Visit = Found(steps: seq<Decision>) | Dead | Exhausted

  /** No completion starts with an operation before position `i`. */
  ghost predicate NoneBelow(ops: seq<Operation>, remaining: set<nat>, value: Value, i: nat) {
    forall w: seq<Decision> :: Completes(ops, remaining, value, w) ==> w != [] && i <= w[0].index
  }

  lemma SkipBlocked(ops: seq<Operation>, remaining: set<nat>, value: Value, i: nat)
    requires NoneBelow(ops, remaining, value, i) && i < |ops|
    requires i !in remaining || !(Predecessors(ops, i) !! remaining)
    ensures NoneBelow(ops, remaining, value, i + 1)
  {
    forall w: seq<Decision> | Completes(ops, remaining, value, w) ensures i + 1 <= w[0].index {
    }
  }

  lemma SkipTried(ops: seq<Operation>, remaining: set<nat>, value: Value, i: nat)
    requires NoneBelow(ops, remaining, value, i) && i < |ops|
    requires ops[i].optional ==> !Completable(ops, remaining - {i}, value)
    requires Admits(value, ops[i]) ==> !Completable(ops, remaining - {i}, After(value, ops[i]))
    ensures NoneBelow(ops, remaining, value, i + 1)
  {
    forall w: seq<Decision> | Completes(ops, remaining, value, w) ensures i + 1 <= w[0].index {
      var action, rest := w[0].action, w[1..];
      assert w[0].index == i ==> Completes(ops, remaining - {i}, Result(ops[i], value, action), rest);
    }
  }

  lemma NoneAtAll(ops: seq<Operation>, remaining: set<nat>, value: Value)
    requires NoneBelow(ops, remaining, value, |ops|)
    ensures !Completable(ops, remaining, value)
  {
    forall w: seq<Decision> ensures !Completes(ops, remaining, value, w) {
    }
  }

  /** Put one decision before a witness; exhaustion passes through. */
  function Extend(i: nat, action: Action, v: Visit): Visit {
    if v.Found? then Found([Decision(i, action)] + v.steps) else v
  }

  lemma {:induction false} ExtendCompletes(ops: seq<Operation>, remaining: set<nat>, value: Value, i: nat,
                                           action: Action, rest: seq<Decision>)
    requires i < |ops| && i in remaining && Predecessors(ops, i) !! remaining && ActionOk(ops[i], value, action)
    requires Completes(ops, remaining - {i}, Result(ops[i], value, action), rest)
    ensures Completes(ops, remaining, value, [Decision(i, action)] + rest)
  {
    assert ([Decision(i, action)] + rest)[1..] == rest;
  }

  /** One run of the search: its memo of dead states and its count of visited ones. */
  class Searcher {
    const ops: seq<Operation>
    const initial: Value
    const budget: nat
    const predecessors: seq<set<nat>>
    var failed: set<(set<nat>, Value)>
    var states: nat

    /** Every memoized state truly has no completion, and the budget is kept. */
    ghost predicate Valid()
      reads this
    {
      && |predecessors| == |ops| && (forall i :: 0 <= i < |ops| ==> predecessors[i] == Predecessors(ops, i))
      && (forall m :: m in failed ==> Reachable(ops, initial, m) && !Completable(ops, m.0, m.1))
      && states <= budget
    }

    constructor (ops: seq<Operation>, initial: Value, budget: nat)
      ensures Valid() && this.ops == ops && this.initial == initial && this.budget == budget && states == 0
        && failed == {}
    {
      this.ops, this.initial, this.budget := ops, initial, budget;
      predecessors := seq(|ops|, i requires 0 <= i < |ops| => Predecessors(ops, i));
      failed, states := {}, 0;
    }

    /** A witness, a proof that there is none, or an exhausted budget. Memoization counts each dead
        state once: what was visited beyond the memo is the current path. */
    method Visit(remaining: set<nat>, value: Value) returns (r: Visit)
      requires Valid() && remaining <= All(ops) && value in Values(ops, initial)
      modifies this
      ensures Valid() && old(failed) <= failed && old(states) <= states
      ensures r.Found? ==> Completes(ops, remaining, value, r.steps)
      ensures r.Dead? ==> !Completable(ops, remaining, value)
      ensures r.Exhausted? ==> states == budget
      ensures forall m :: m in failed && m !in old(failed) ==> m.0 <= remaining
      ensures states - |failed| <= old(states - |failed|) + if r.Dead? then 0 else |remaining|
      decreases |remaining|, 2
    {
      if remaining == {} {
        assert Completes(ops, remaining, value, []);
        return Found([]);
      }
      var memo := (remaining, value);
      if memo in failed { return Dead; }
      if states >= budget { return Exhausted; }
      states := states + 1;
      var i := 0;
      while i < |ops|
        invariant i <= |ops| && Valid() && old(failed) <= failed && old(states) <= states
        invariant NoneBelow(ops, remaining, value, i)
        invariant forall m :: m in failed && m !in old(failed) ==> m.0 < remaining
        invariant states - |failed| <= old(states - |failed|) + 1
      {
        r := Try(i, remaining, value);
        if !r.Dead? { return; }
        i := i + 1;
      }
      NoneAtAll(ops, remaining, value);
      failed := failed + {memo};
      return Dead;
    }

    /** One turn of the loop: dispose of operation `i` first, omitting it before applying it. */
    method Try(i: nat, remaining: set<nat>, value: Value) returns (r: Visit)
      requires Valid() && remaining <= All(ops) && value in Values(ops, initial)
      requires i < |ops| && NoneBelow(ops, remaining, value, i)
      modifies this
      ensures Valid() && old(failed) <= failed && old(states) <= states
      ensures r.Found? ==> Completes(ops, remaining, value, r.steps)
      ensures r.Dead? ==> NoneBelow(ops, remaining, value, i + 1)
      ensures r.Exhausted? ==> states == budget
      ensures forall m :: m in failed && m !in old(failed) ==> m.0 < remaining
      ensures states - |failed| <= old(states - |failed|) + if r.Dead? then 0 else |remaining| - 1
      decreases |remaining|, 1
    {
      if i !in remaining || predecessors[i] * remaining != {} {
        SkipBlocked(ops, remaining, value, i);
        return Dead;
      }
      assert Predecessors(ops, i) !! remaining by {
        assert predecessors[i] == Predecessors(ops, i);
        forall x | x in Predecessors(ops, i) ensures x !in remaining {
          assert (x in predecessors[i] * remaining) == (x in remaining);
        }
      }
      if ops[i].optional {
        r := Dispose(i, OmitUnknown, remaining, value);
        if !r.Dead? { return; }
      }
      if Admits(value, ops[i]) {
        r := Dispose(i, if ops[i].optional then ApplyUnknown else Apply(ops[i].kind), remaining, value);
        if !r.Dead? { return; }
      }
      SkipTried(ops, remaining, value, i);
      return Dead;
    }

    /** Take one action on a free operation, then search the rest. */
    method Dispose(i: nat, action: Action, remaining: set<nat>, value: Value) returns (r: Visit)
      requires Valid() && remaining <= All(ops) && value in Values(ops, initial)
      requires i < |ops| && i in remaining && Predecessors(ops, i) !! remaining && ActionOk(ops[i], value, action)
      modifies this
      ensures Valid() && old(failed) <= failed && old(states) <= states
      ensures r.Found? ==> Completes(ops, remaining, value, r.steps)
      ensures r.Dead? ==> !Completable(ops, remaining - {i}, Result(ops[i], value, action))
      ensures r.Exhausted? ==> states == budget
      ensures forall m :: m in failed && m !in old(failed) ==> m.0 < remaining
      ensures states - |failed| <= old(states - |failed|) + if r.Dead? then 0 else |remaining| - 1
      decreases |remaining|, 0
    {
      var rest := remaining - {i};
      r := Visit(rest, Result(ops[i], value, action));
      if r.Found? { ExtendCompletes(ops, remaining, value, i, action, r.steps); }
      r := Extend(i, action, r);
    }
  }

  lemma AllSize(ops: seq<Operation>)
    ensures |All(ops)| == |ops|
  {
    RangeSize(|ops|);
    assert All(ops) == Members(Range(|ops|)) by {
      forall x: nat | x < |ops| ensures x in Members(Range(|ops|)) { assert Range(|ops|)[x] == x; }
    }
  }

  datatype Verdict = Pass | Fail | Inconclusive

  datatype SearchResult = SearchResult(verdict: Verdict, states: nat, steps: seq<Decision>)

  /** How many states a search over `n` operations can visit: the dead ones, and one path beyond them. */
  function StateBound(n: nat): nat {
    Power(n) * (n + 1) + n
  }

  lemma {:induction false} PowerMonotone(m: nat, n: nat)
    requires m <= n
    ensures Power(m) <= Power(n)
    decreases n
  {
    if m < n { PowerMonotone(m, n - 1); }
  }

  lemma BoundMonotone(m: nat, n: nat)
    requires m <= n
    ensures StateBound(m) <= StateBound(n)
  {
    PowerMonotone(m, n);
    TimesMonotone(Power(m), Power(n), m + 1, n + 1);
  }

  /** PASS and FAIL are both exact, and only a spent budget is inconclusive: more than `StateBound` never is. */
  method Search(ops: seq<Operation>, initial: Value, budget: nat) returns (r: SearchResult)
    requires AllWellFormed(ops)
    ensures r.states <= budget && r.states <= StateBound(|ops|)
    ensures r.verdict.Pass? ==> Completes(ops, All(ops), initial, r.steps)
    ensures r.verdict.Pass? ==> Linearizes(ops, All(ops), initial, Applied(r.steps))
    ensures r.verdict.Fail? ==> !Linearizable(ops, initial)
    ensures r.verdict.Inconclusive? ==> r.states == budget
  {
    var s := new Searcher(ops, initial, budget);
    var v := s.Visit(All(ops), initial);
    CompletableExact(ops, initial);
    StatesBound(ops, initial, s.failed);
    AllSize(ops);
    match v
    case Found(w) =>
      WitnessLinearizes(ops, All(ops), initial, w);
      r := SearchResult(Pass, s.states, w);
    case Dead => r := SearchResult(Fail, s.states, []);
    case Exhausted => r := SearchResult(Inconclusive, s.states, []);
  }

  // ---------------------------------------------------------------- read reduction

  lemma {:induction false} WithoutDistinct(order: seq<nat>, x: nat)
    requires Distinct(order)
    ensures Distinct(Without(order, x))
  {
    if order != [] {
      WithoutDistinct(order[1..], x);
      var rest := Without(order[1..], x);
      assert order[0] !in order[1..];
      if order[0] != x { ConsDistinct(order[0], rest); }
    }
  }

  lemma {:induction false} WithoutMembers(order: seq<nat>, x: nat)
    ensures Members(Without(order, x)) == Members(order) - {x}
  {
    forall y ensures y in Members(Without(order, x)) <==> y in Members(order) - {x} {
      assert y in Members(order) <==> y in order;
      assert y in Members(Without(order, x)) <==> y in Without(order, x);
    }
  }

  function Range(n: nat): (r: seq<nat>)
    ensures |r| == n && forall i :: 0 <= i < n ==> r[i] == i
  {
    seq(n, i => i)
  }

  /** Removing any one of the reads below `upto` that `kept` still holds makes the history linearizable. */
  ghost predicate ReadsNeeded(ops: seq<Operation>, initial: Value, kept: set<nat>, upto: nat) {
    forall x: nat :: x < upto && x < |ops| && x in kept && ops[x].kind.Get? ==> LinearizableOn(ops, kept - {x}, initial)
  }

  lemma NeededStill(ops: seq<Operation>, initial: Value, kept: set<nat>, upto: nat, dropped: nat)
    requires ReadsNeeded(ops, initial, kept, upto) && dropped < |ops| && ops[dropped].kind.Get?
    ensures ReadsNeeded(ops, initial, kept - {dropped}, upto)
  {
    forall x: nat | x < upto && x < |ops| && x in kept - {dropped} && ops[x].kind.Get?
      ensures LinearizableOn(ops, kept - {dropped} - {x}, initial)
    {
      DropRead(ops, kept - {x}, initial, dropped);
      assert kept - {x} - {dropped} == kept - {dropped} - {x};
    }
  }

  /** Positions of a sub-history that keeps every write and is linearizable exactly when the whole is;
      when complete, no single remaining read can be dropped without making it linearizable. */
  method Counterexample(ops: seq<Operation>, initial: Value, budget: nat)
    returns (reduced: seq<nat>, states: nat, complete: bool)
    requires AllWellFormed(ops)
    ensures InRange(ops, reduced) && Distinct(reduced) && states <= budget
    ensures forall x: nat :: x < |ops| && !ops[x].kind.Get? ==> x in reduced
    ensures LinearizableOn(ops, Members(reduced), initial) <==> Linearizable(ops, initial)
    ensures complete ==> ReadsNeeded(ops, initial, Members(reduced), |ops|)
    ensures !complete ==> states == budget
  {
    reduced, states, complete := Range(|ops|), 0, true;
    assert Members(reduced) == All(ops) by {
      forall x: nat | x < |ops| ensures x in Members(reduced) { assert reduced[x] == x; }
    }
    forall x: nat | x < |ops| ensures x in reduced { assert reduced[x] == x; }
    var i := 0;
    while i < |ops|
      invariant i <= |ops| && InRange(ops, reduced) && Distinct(reduced) && states <= budget
      invariant forall x: nat :: x < |ops| && (!ops[x].kind.Get? || i <= x) ==> x in reduced
      invariant LinearizableOn(ops, Members(reduced), initial) <==> Linearizable(ops, initial)
      invariant complete && ReadsNeeded(ops, initial, Members(reduced), i)
    {
      if ops[i].kind.Get? {
        var candidate := Without(reduced, i);
        WithoutDistinct(reduced, i);
        WithoutMembers(reduced, i);
        forall k | 0 <= k < |candidate| ensures candidate[k] < |ops| { assert candidate[k] in candidate; }
        if states >= budget { complete := false; return; }
        var result := Search(Pick(ops, candidate), initial, budget - states);
        PickLinearizable(ops, candidate, initial);
        states := states + result.states;
        match result.verdict
        case Fail =>
          if LinearizableOn(ops, Members(reduced), initial) { DropRead(ops, Members(reduced), initial, i); }
          NeededStill(ops, initial, Members(reduced), i, i);
          reduced := candidate;
        case Inconclusive => complete := false; return;
        case Pass => assert Linearizable(Pick(ops, candidate), initial);
      }
      i := i + 1;
    }
  }
}
