/** What it means for a recorded history of register operations to be linearizable, and the facts
    the history checker relies on: linearization points, locality across keys, and that a read can
    always be dropped. */
module Linearizability {
  import opened Types

  datatype Kind = Put | Delete | Get

  type Value = Option<string>

  /** `end` is the first acknowledged completion; an unknown mutation has none and may be omitted. */
  datatype Operation = Operation(
    identity: string,
    attempts: seq<string>,
    kind: Kind,
    key: string,
    value: Value,
    start: nat,
    end: Option<nat>,
    optional: bool)

  /** What normalization guarantees of every operation it hands to the search. */
  predicate WellFormed(op: Operation) {
    && (op.optional <==> op.end.None?)
    && (op.end.Some? ==> op.start <= op.end.value)
    && (op.kind.Get? ==> !op.optional)
  }

  predicate AllWellFormed(ops: seq<Operation>) {
    forall i :: 0 <= i < |ops| ==> WellFormed(ops[i])
  }

  /** Real time: `a` completed before `b` was invoked. */
  predicate Before(a: Operation, b: Operation) {
    a.end.Some? && a.end.value < b.start
  }

  predicate Admits(value: Value, op: Operation) {
    op.kind.Get? ==> op.value == value
  }

  function After(value: Value, op: Operation): Value {
    if op.kind.Get? then value else op.value
  }

  // ---------------------------------------------------------------- orders

  predicate InRange(ops: seq<Operation>, order: seq<nat>) {
    forall i :: 0 <= i < |order| ==> order[i] < |ops|
  }

  predicate Distinct<T(==)>(s: seq<T>) {
    forall i, j :: 0 <= i < j < |s| ==> s[i] != s[j]
  }

  /** No operation is placed after one that it completed before. */
  predicate RealTime(ops: seq<Operation>, order: seq<nat>)
    requires InRange(ops, order)
  {
    forall i, j :: 0 <= i < j < |order| ==> !Before(ops[order[j]], ops[order[i]])
  }

  /** Every read of `order` returns the latest value written before it. */
  predicate Legal(ops: seq<Operation>, value: Value, order: seq<nat>)
    requires InRange(ops, order)
    decreases order
  {
    order == [] || (Admits(value, ops[order[0]]) && Legal(ops, After(value, ops[order[0]]), order[1..]))
  }

  /** The same over a store of independent registers. */
  predicate LegalStore(ops: seq<Operation>, store: map<string, Value>, order: seq<nat>)
    requires InRange(ops, order)
  {
    order == [] ||
    (var op := ops[order[0]];
     op.key in store && Admits(store[op.key], op)
       && LegalStore(ops, store[op.key := After(store[op.key], op)], order[1..]))
  }

  function All(ops: seq<Operation>): set<nat> {
    set i: nat {:trigger ops[i]} | i < |ops|
  }

  function OfKey(ops: seq<Operation>, key: string): set<nat> {
    set i: nat | i < |ops| && ops[i].key == key
  }

  /** `order` orders the operations `dom`, all required ones and some of the unknown ones, respecting real time. */
  ghost predicate Orders(ops: seq<Operation>, dom: set<nat>, order: seq<nat>) {
    && InRange(ops, order) && Distinct(order)
    && (forall x :: x in order ==> x in dom)
    && (forall x :: x in dom && x < |ops| && !ops[x].optional ==> x in order)
    && RealTime(ops, order)
  }

  /** `order` linearizes the operations `dom` on one register holding `value`. */
  ghost predicate Linearizes(ops: seq<Operation>, dom: set<nat>, value: Value, order: seq<nat>) {
    Orders(ops, dom, order) && Legal(ops, value, order)
  }

  ghost predicate LinearizableOn(ops: seq<Operation>, dom: set<nat>, value: Value) {
    exists order :: Linearizes(ops, dom, value, order)
  }

  ghost predicate Linearizable(ops: seq<Operation>, value: Value) {
    LinearizableOn(ops, All(ops), value)
  }

  /** `order` linearizes the operations `dom` of many keys in one global order. */
  ghost predicate LinearizesStore(ops: seq<Operation>, dom: set<nat>, store: map<string, Value>, order: seq<nat>) {
    Orders(ops, dom, order) && LegalStore(ops, store, order)
  }

  ghost predicate StoreLinearizable(ops: seq<Operation>, store: map<string, Value>) {
    exists order :: LinearizesStore(ops, All(ops), store, order)
  }

  // ---------------------------------------------------------------- linearization points

  /** An operation together with the instant it is taken to act. */
  datatype Placed = Placed(index: nat, point: nat)

  function Indexes(placed: seq<Placed>): (r: seq<nat>)
    ensures |r| == |placed| && forall i :: 0 <= i < |r| ==> r[i] == placed[i].index
  {
    if placed == [] then [] else [placed[0].index] + Indexes(placed[1..])
  }

  /** Points never go back, and each falls within its operation's interval. */
  predicate Timed(ops: seq<Operation>, placed: seq<Placed>) {
    && (forall i, j :: 0 <= i < j < |placed| ==> placed[i].point <= placed[j].point)
    && (forall i :: 0 <= i < |placed| ==> Within(ops, placed[i]))
  }

  /** Points as running maxima of the start times, from `floor` on. */
  function Place(ops: seq<Operation>, order: seq<nat>, floor: nat): (r: seq<Placed>)
    requires InRange(ops, order)
    ensures Indexes(r) == order
  {
    if order == [] then []
    else
      var point := if floor <= ops[order[0]].start then ops[order[0]].start else floor;
      var rest := Place(ops, order[1..], point);
      assert ([Placed(order[0], point)] + rest)[1..] == rest;
      [Placed(order[0], point)] + rest
  }

  /** The point lies within the operation's interval. */
  predicate Within(ops: seq<Operation>, p: Placed) {
    p.index < |ops| && ops[p.index].start <= p.point && (ops[p.index].end.Some? ==> p.point <= ops[p.index].end.value)
  }

  lemma ConsTimed(ops: seq<Operation>, head: Placed, tail: seq<Placed>)
    requires Timed(ops, tail) && Within(ops, head)
    requires forall i :: 0 <= i < |tail| ==> head.point <= tail[i].point
    ensures Timed(ops, [head] + tail)
  {
  }

  lemma {:induction false} PlaceTimed(ops: seq<Operation>, order: seq<nat>, floor: nat)
    requires AllWellFormed(ops) && InRange(ops, order) && RealTime(ops, order)
    requires forall i :: 0 <= i < |order| && ops[order[i]].end.Some? ==> floor <= ops[order[i]].end.value
    ensures Timed(ops, Place(ops, order, floor))
    ensures forall i :: 0 <= i < |order| ==> floor <= Place(ops, order, floor)[i].point
  {
    if order != [] {
      var first := ops[order[0]];
      var point := if floor <= first.start then first.start else floor;
      var rest := order[1..];
      forall i | 0 <= i < |rest| && ops[rest[i]].end.Some? ensures point <= ops[rest[i]].end.value {
        assert !Before(ops[order[i + 1]], ops[order[0]]);
      }
      PlaceTimed(ops, rest, point);
      ConsTimed(ops, Placed(order[0], point), Place(ops, rest, point));
    }
  }

  /** Any placement at nondecreasing points inside the intervals respects real time. */
  lemma {:induction false} TimedRealTime(ops: seq<Operation>, placed: seq<Placed>)
    requires Timed(ops, placed)
    ensures InRange(ops, Indexes(placed)) && RealTime(ops, Indexes(placed))
  {
    forall i, j | 0 <= i < j < |placed| ensures !Before(ops[placed[j].index], ops[placed[i].index]) {
      assert placed[i].point <= placed[j].point;
    }
  }

  // ---------------------------------------------------------------- merging keys

  function Merge(a: seq<Placed>, b: seq<Placed>): (r: seq<Placed>)
    decreases |a| + |b|
  {
    if a == [] then b
    else if b == [] then a
    else if a[0].point <= b[0].point then [a[0]] + Merge(a[1..], b)
    else [b[0]] + Merge(a, b[1..])
  }

  lemma {:induction false} MergeMembers(a: seq<Placed>, b: seq<Placed>, p: Placed)
    ensures p in Merge(a, b) <==> p in a || p in b
    decreases |a| + |b|
  {
    if a != [] && b != [] {
      if a[0].point <= b[0].point {
        MergeMembers(a[1..], b, p);
        assert a == [a[0]] + a[1..];
      } else {
        MergeMembers(a, b[1..], p);
        assert b == [b[0]] + b[1..];
      }
    }
  }

  lemma {:induction false} InIndexes(placed: seq<Placed>, x: nat)
    ensures x in Indexes(placed) <==> exists p :: p in placed && p.index == x
  {
    if x in Indexes(placed) {
      var i :| 0 <= i < |placed| && Indexes(placed)[i] == x;
      assert placed[i] in placed;
    }
    if p :| p in placed && p.index == x {
      var i :| 0 <= i < |placed| && placed[i] == p;
      assert Indexes(placed)[i] == x;
    }
  }

  lemma {:induction false} MergeIndexes(a: seq<Placed>, b: seq<Placed>, x: nat)
    ensures x in Indexes(Merge(a, b)) <==> x in Indexes(a) || x in Indexes(b)
  {
    InIndexes(Merge(a, b), x);
    InIndexes(a, x);
    InIndexes(b, x);
    forall p ensures p in Merge(a, b) <==> p in a || p in b {
      MergeMembers(a, b, p);
    }
  }

  ghost predicate Apart(a: seq<Placed>, b: seq<Placed>) {
    forall x :: x in Indexes(a) ==> x !in Indexes(b)
  }

  lemma {:induction false} HeadTail(placed: seq<Placed>)
    requires placed != []
    ensures Indexes(placed) == [placed[0].index] + Indexes(placed[1..])
  {
  }

  lemma {:induction false} MergeDistinct(a: seq<Placed>, b: seq<Placed>)
    requires Distinct(Indexes(a)) && Distinct(Indexes(b)) && Apart(a, b)
    ensures Distinct(Indexes(Merge(a, b)))
    decreases |a| + |b|
  {
    if a != [] && b != [] {
      HeadTail(a);
      HeadTail(b);
      var m := Merge(a, b);
      HeadTail(m);
      if a[0].point <= b[0].point {
        MergeDistinct(a[1..], b);
        MergeIndexes(a[1..], b, a[0].index);
        assert m[1..] == Merge(a[1..], b);
        ConsDistinct(a[0].index, Indexes(m[1..]));
      } else {
        MergeDistinct(a, b[1..]);
        MergeIndexes(a, b[1..], b[0].index);
        assert m[1..] == Merge(a, b[1..]);
        ConsDistinct(b[0].index, Indexes(m[1..]));
      }
    }
  }

  lemma ConsDistinct(x: nat, s: seq<nat>)
    requires Distinct(s) && x !in s
    ensures Distinct([x] + s)
  {
  }

  lemma {:induction false} MergeTimed(ops: seq<Operation>, a: seq<Placed>, b: seq<Placed>)
    requires Timed(ops, a) && Timed(ops, b)
    ensures Timed(ops, Merge(a, b))
    decreases |a| + |b|
  {
    if a != [] && b != [] {
      var head, tail := if a[0].point <= b[0].point then a[0] else b[0],
                        if a[0].point <= b[0].point then Merge(a[1..], b) else Merge(a, b[1..]);
      if a[0].point <= b[0].point { MergeTimed(ops, a[1..], b); } else { MergeTimed(ops, a, b[1..]); }
      forall i | 0 <= i < |tail| ensures head.point <= tail[i].point {
        if a[0].point <= b[0].point { MergeMembers(a[1..], b, tail[i]); } else { MergeMembers(a, b[1..], tail[i]); }
      }
      ConsTimed(ops, head, tail);
    }
  }

  /** Legality of an order depends only on the registers its operations name. */
  lemma {:induction false} StoreFrame(ops: seq<Operation>, s: map<string, Value>, t: map<string, Value>,
                                      order: seq<nat>)
    requires InRange(ops, order) && LegalStore(ops, s, order)
    requires forall x :: x in order ==> ops[x].key in s ==> ops[x].key in t && s[ops[x].key] == t[ops[x].key]
    ensures LegalStore(ops, t, order)
  {
    if order != [] {
      var op := ops[order[0]];
      assert order[0] in order;
      StoreFrame(ops, s[op.key := After(s[op.key], op)], t[op.key := After(t[op.key], op)], order[1..]);
    }
  }

  ghost predicate KeysApart(ops: seq<Operation>, a: seq<nat>, b: seq<nat>)
    requires InRange(ops, a) && InRange(ops, b)
  {
    forall x, y :: x in a && y in b ==> ops[x].key != ops[y].key
  }

  lemma {:induction false} MergeLegal(ops: seq<Operation>, store: map<string, Value>, a: seq<Placed>, b: seq<Placed>)
    requires InRange(ops, Indexes(a)) && InRange(ops, Indexes(b)) && KeysApart(ops, Indexes(a), Indexes(b))
    requires LegalStore(ops, store, Indexes(a)) && LegalStore(ops, store, Indexes(b))
    ensures InRange(ops, Indexes(Merge(a, b))) && LegalStore(ops, store, Indexes(Merge(a, b)))
    decreases |a| + |b|
  {
    if a != [] && b != [] {
      if a[0].point <= b[0].point {
        TakeLegal(ops, store, a, b);
        var op := ops[a[0].index];
        MergeLegal(ops, store[op.key := After(store[op.key], op)], a[1..], b);
        HeadTail(Merge(a, b));
        assert Merge(a, b)[1..] == Merge(a[1..], b);
      } else {
        TakeLegal(ops, store, b, a);
        var op := ops[b[0].index];
        MergeLegal(ops, store[op.key := After(store[op.key], op)], a, b[1..]);
        HeadTail(Merge(a, b));
        assert Merge(a, b)[1..] == Merge(a, b[1..]);
      }
    }
  }

  /** Performing the first operation of `a` keeps both remainders legal. */
  lemma TakeLegal(ops: seq<Operation>, store: map<string, Value>, a: seq<Placed>, b: seq<Placed>)
    requires InRange(ops, Indexes(a)) && InRange(ops, Indexes(b)) && KeysApart(ops, Indexes(a), Indexes(b)) && a != []
    requires LegalStore(ops, store, Indexes(a)) && LegalStore(ops, store, Indexes(b))
    ensures var op := ops[a[0].index];
      && op.key in store && Admits(store[op.key], op)
      && InRange(ops, Indexes(a[1..])) && KeysApart(ops, Indexes(a[1..]), Indexes(b))
      && LegalStore(ops, store[op.key := After(store[op.key], op)], Indexes(a[1..]))
      && LegalStore(ops, store[op.key := After(store[op.key], op)], Indexes(b))
  {
    HeadTail(a);
    var op := ops[a[0].index];
    assert Indexes(a)[0] == a[0].index && Indexes(a)[1..] == Indexes(a[1..]);
    assert a[0].index in Indexes(a);
    StoreFrame(ops, store, store[op.key := After(store[op.key], op)], Indexes(b));
  }

  // ---------------------------------------------------------------- locality

  /** On operations of one key a register and a store agree. */
  lemma {:induction false} RegisterIsStore(ops: seq<Operation>, store: map<string, Value>, key: string, order: seq<nat>)
    requires InRange(ops, order) && key in store && forall x :: x in order ==> ops[x].key == key
    ensures Legal(ops, store[key], order) <==> LegalStore(ops, store, order)
    decreases order
  {
    if order != [] {
      var op := ops[order[0]];
      assert order[0] in order;
      RegisterIsStore(ops, store[key := After(store[key], op)], key, order[1..]);
    }
  }

  function OfKeys(ops: seq<Operation>, keys: set<string>): set<nat> {
    set i: nat | i < |ops| && ops[i].key in keys
  }

  /** Orders over disjoint keys share no operation and no key. */
  lemma OrdersApart(ops: seq<Operation>, a: set<string>, b: set<string>, order: seq<nat>, other: seq<nat>)
    requires a !! b && Orders(ops, OfKeys(ops, a), order) && Orders(ops, OfKeys(ops, b), other)
    ensures KeysApart(ops, order, other) && forall x :: x in order ==> x !in other
  {
  }

  /** Merging two placements at their points respects real time and repeats nothing. */
  lemma {:induction false} MergedOrder(ops: seq<Operation>, p: seq<Placed>, q: seq<Placed>)
    requires Timed(ops, p) && Timed(ops, q) && Distinct(Indexes(p)) && Distinct(Indexes(q)) && Apart(p, q)
    ensures var merged := Indexes(Merge(p, q)); InRange(ops, merged) && RealTime(ops, merged) && Distinct(merged)
  {
    MergeTimed(ops, p, q);
    TimedRealTime(ops, Merge(p, q));
    MergeDistinct(p, q);
  }

  lemma OrdersJoin(ops: seq<Operation>, a: set<string>, b: set<string>, order: seq<nat>, other: seq<nat>,
                   merged: seq<nat>)
    requires Orders(ops, OfKeys(ops, a), order) && Orders(ops, OfKeys(ops, b), other)
    requires InRange(ops, merged) && RealTime(ops, merged) && Distinct(merged)
    requires forall x: nat :: x in merged <==> x in order || x in other
    ensures Orders(ops, OfKeys(ops, a + b), merged)
  {
  }

  /** Two orders over disjoint keys interleave into one. */
  lemma Interleave(ops: seq<Operation>, store: map<string, Value>, a: set<string>, b: set<string>,
                   order: seq<nat>, other: seq<nat>) returns (merged: seq<nat>)
    requires AllWellFormed(ops) && a !! b
    requires LinearizesStore(ops, OfKeys(ops, a), store, order) && LinearizesStore(ops, OfKeys(ops, b), store, other)
    ensures LinearizesStore(ops, OfKeys(ops, a + b), store, merged)
  {
    var p, q := Place(ops, order, 0), Place(ops, other, 0);
    PlaceTimed(ops, order, 0);
    PlaceTimed(ops, other, 0);
    OrdersApart(ops, a, b, order, other);
    MergedOrder(ops, p, q);
    MergeLegal(ops, store, p, q);
    merged := Indexes(Merge(p, q));
    forall x: nat ensures x in merged <==> x in order || x in other { MergeIndexes(p, q, x); }
    OrdersJoin(ops, a, b, order, other, merged);
  }

  /** Locality: if every key's operations linearize on their own register, all operations linearize
      in one global order that respects real time across keys. */
  lemma {:induction false} Locality(ops: seq<Operation>, store: map<string, Value>, keys: set<string>)
    returns (order: seq<nat>)
    requires AllWellFormed(ops)
    requires forall k :: k in keys ==> k in store && LinearizableOn(ops, OfKey(ops, k), store[k])
    ensures LinearizesStore(ops, OfKeys(ops, keys), store, order)
    decreases |keys|
  {
    if keys == {} {
      order := [];
    } else {
      var k :| k in keys;
      var rest := Locality(ops, store, keys - {k});
      var own :| Linearizes(ops, OfKey(ops, k), store[k], own);
      RegisterIsStore(ops, store, k, own);
      assert OfKey(ops, k) == OfKeys(ops, {k});
      order := Interleave(ops, store, keys - {k}, {k}, rest, own);
      assert keys - {k} + {k} == keys;
    }
  }

  /** The operations of one key, in their global order. */
  function Project(ops: seq<Operation>, order: seq<nat>, key: string): (r: seq<nat>)
    requires InRange(ops, order)
    ensures InRange(ops, r)
    ensures forall x :: x in r <==> x in order && ops[x].key == key
  {
    if order == [] then []
    else
      var rest := Project(ops, order[1..], key);
      assert order == [order[0]] + order[1..];
      if ops[order[0]].key == key then [order[0]] + rest else rest
  }

  lemma {:induction false} ProjectOrders(ops: seq<Operation>, order: seq<nat>, key: string)
    requires InRange(ops, order) && Distinct(order) && RealTime(ops, order)
    ensures var r := Project(ops, order, key); Distinct(r) && RealTime(ops, r)
  {
    if order != [] {
      var rest, tail := order[1..], Project(ops, order[1..], key);
      ProjectOrders(ops, rest, key);
      if ops[order[0]].key == key {
        forall j | 0 <= j < |tail| ensures tail[j] != order[0] && !Before(ops[tail[j]], ops[order[0]]) {
          assert tail[j] in tail;
          var i :| 0 <= i < |rest| && rest[i] == tail[j];
          assert order[i + 1] == tail[j];
        }
        ConsOrders(ops, order[0], tail);
      }
    }
  }

  lemma ConsOrders(ops: seq<Operation>, x: nat, tail: seq<nat>)
    requires x < |ops| && InRange(ops, tail) && Distinct(tail) && RealTime(ops, tail)
    requires forall j :: 0 <= j < |tail| ==> tail[j] != x && !Before(ops[tail[j]], ops[x])
    ensures Distinct([x] + tail) && RealTime(ops, [x] + tail)
  {
  }

  lemma {:induction false} ProjectLegal(ops: seq<Operation>, store: map<string, Value>, order: seq<nat>, key: string)
    requires InRange(ops, order) && key in store && LegalStore(ops, store, order)
    ensures Legal(ops, store[key], Project(ops, order, key))
    decreases order
  {
    if order != [] {
      var op := ops[order[0]];
      ProjectLegal(ops, store[op.key := After(store[op.key], op)], order[1..], key);
      if op.key == key {
        assert Project(ops, order, key)[1..] == Project(ops, order[1..], key);
      }
    }
  }

  /** The converse of locality: a global linearization linearizes every key. */
  lemma {:induction false} KeyOfGlobal(ops: seq<Operation>, store: map<string, Value>, order: seq<nat>, key: string)
    requires LinearizesStore(ops, All(ops), store, order) && key in store
    ensures Linearizes(ops, OfKey(ops, key), store[key], Project(ops, order, key))
  {
    ProjectOrders(ops, order, key);
    ProjectLegal(ops, store, order, key);
  }

  /** Herlihy and Wing's locality, both ways: the whole history linearizes exactly when each key's does. */
  lemma LocalityExact(ops: seq<Operation>, store: map<string, Value>)
    requires AllWellFormed(ops) && forall i :: 0 <= i < |ops| ==> ops[i].key in store
    ensures StoreLinearizable(ops, store) <==>
            forall k :: k in store.Keys ==> LinearizableOn(ops, OfKey(ops, k), store[k])
  {
    if StoreLinearizable(ops, store) {
      var order :| LinearizesStore(ops, All(ops), store, order);
      forall k | k in store ensures LinearizableOn(ops, OfKey(ops, k), store[k]) {
        KeyOfGlobal(ops, store, order, k);
      }
    }
    if forall k :: k in store.Keys ==> LinearizableOn(ops, OfKey(ops, k), store[k]) {
      var order := Locality(ops, store, store.Keys);
      assert OfKeys(ops, store.Keys) == All(ops);
    }
  }

  // ---------------------------------------------------------------- dropping a read

  function Without(order: seq<nat>, x: nat): (r: seq<nat>)
    ensures forall y :: y in r <==> y in order && y != x
  {
    if order == [] then []
    else
      assert order == [order[0]] + order[1..];
      if order[0] == x then Without(order[1..], x) else [order[0]] + Without(order[1..], x)
  }

  lemma {:induction false} WithoutOrders(ops: seq<Operation>, order: seq<nat>, x: nat)
    requires InRange(ops, order) && Distinct(order) && RealTime(ops, order)
    ensures var r := Without(order, x); InRange(ops, r) && Distinct(r) && RealTime(ops, r)
  {
    if order != [] {
      var rest, tail := order[1..], Without(order[1..], x);
      WithoutOrders(ops, rest, x);
      if order[0] != x {
        forall j | 0 <= j < |tail| ensures tail[j] != order[0] && !Before(ops[tail[j]], ops[order[0]]) {
          assert tail[j] in tail;
          var i :| 0 <= i < |rest| && rest[i] == tail[j];
          assert order[i + 1] == tail[j];
        }
        ConsOrders(ops, order[0], tail);
      }
    }
  }

  lemma {:induction false} WithoutLegal(ops: seq<Operation>, value: Value, order: seq<nat>, x: nat)
    requires InRange(ops, order) && Legal(ops, value, order) && x < |ops| && ops[x].kind.Get?
    ensures InRange(ops, Without(order, x)) && Legal(ops, value, Without(order, x))
    decreases order
  {
    if order != [] {
      WithoutLegal(ops, After(value, ops[order[0]]), order[1..], x);
      if order[0] != x {
        assert Without(order, x)[1..] == Without(order[1..], x);
      }
    }
  }

  /** Dropping a read keeps a history linearizable. */
  lemma DropRead(ops: seq<Operation>, dom: set<nat>, value: Value, x: nat)
    requires LinearizableOn(ops, dom, value) && x < |ops| && ops[x].kind.Get?
    ensures LinearizableOn(ops, dom - {x}, value)
  {
    var order :| Linearizes(ops, dom, value, order);
    WithoutOrders(ops, order, x);
    WithoutLegal(ops, value, order, x);
    assert Linearizes(ops, dom - {x}, value, Without(order, x));
  }

  // ---------------------------------------------------------------- sub-histories

  function Pick<T>(s: seq<T>, idx: seq<nat>): (r: seq<T>)
    requires forall i :: 0 <= i < |idx| ==> idx[i] < |s|
    ensures |r| == |idx| && forall i :: 0 <= i < |r| ==> r[i] == s[idx[i]]
  {
    seq(|idx|, i requires 0 <= i < |idx| => s[idx[i]])
  }

  function Members(idx: seq<nat>): set<nat> {
    set i | 0 <= i < |idx| :: idx[i]
  }

  lemma {:induction false} PickLegal(ops: seq<Operation>, idx: seq<nat>, value: Value, order: seq<nat>)
    requires InRange(ops, idx) && InRange(Pick(ops, idx), order)
    ensures InRange(ops, Pick(idx, order))
    ensures Legal(Pick(ops, idx), value, order) <==> Legal(ops, value, Pick(idx, order))
    decreases order
  {
    if order != [] {
      PickLegal(ops, idx, After(value, ops[idx[order[0]]]), order[1..]);
      assert Pick(idx, order)[1..] == Pick(idx, order[1..]);
    }
  }

  function Position(idx: seq<nat>, x: nat): (i: nat)
    requires x in idx
    ensures i < |idx| && idx[i] == x
  {
    if idx[0] == x then 0 else 1 + Position(idx[1..], x)
  }

  /** Searching a sub-list is the same as searching those positions of the whole list. */
  lemma PickLinearizable(ops: seq<Operation>, idx: seq<nat>, value: Value)
    requires InRange(ops, idx) && Distinct(idx)
    ensures Linearizable(Pick(ops, idx), value) <==> LinearizableOn(ops, Members(idx), value)
  {
    var sub := Pick(ops, idx);
    if Linearizable(sub, value) {
      var order :| Linearizes(sub, All(sub), value, order);
      PickLegal(ops, idx, value, order);
      PickForward(ops, idx, order);
      assert Linearizes(ops, Members(idx), value, Pick(idx, order));
    }
    if LinearizableOn(ops, Members(idx), value) {
      var whole :| Linearizes(ops, Members(idx), value, whole);
      forall i | 0 <= i < |whole| ensures whole[i] in idx { assert whole[i] in whole; }
      var order: seq<nat> := seq(|whole|, i requires 0 <= i < |whole| => Position(idx, whole[i]));
      assert Pick(idx, order) == whole;
      PickLegal(ops, idx, value, order);
      PickBack(ops, idx, order);
      assert Linearizes(sub, All(sub), value, order);
    }
  }

  lemma PickForward(ops: seq<Operation>, idx: seq<nat>, order: seq<nat>)
    requires InRange(ops, idx) && Distinct(idx) && Orders(Pick(ops, idx), All(Pick(ops, idx)), order)
    ensures Orders(ops, Members(idx), Pick(idx, order))
  {
    var whole := Pick(idx, order);
    forall i, j | 0 <= i < j < |whole| ensures whole[i] != whole[j] && !Before(ops[whole[j]], ops[whole[i]]) {
      assert order[i] != order[j];
      assert order[i] < order[j] || order[j] < order[i];
      assert !Before(Pick(ops, idx)[order[j]], Pick(ops, idx)[order[i]]);
    }
    forall x | x in Members(idx) && !ops[x].optional ensures x in whole {
      var p: nat :| p < |idx| && idx[p] == x;
      assert p in All(Pick(ops, idx)) && !Pick(ops, idx)[p].optional;
      var i :| 0 <= i < |order| && order[i] == p;
      assert whole[i] == x;
    }
  }

  lemma PickBack(ops: seq<Operation>, idx: seq<nat>, order: seq<nat>)
    requires InRange(ops, idx) && Distinct(idx) && InRange(Pick(ops, idx), order)
    requires Orders(ops, Members(idx), Pick(idx, order))
    ensures Orders(Pick(ops, idx), All(Pick(ops, idx)), order)
  {
    var sub, whole := Pick(ops, idx), Pick(idx, order);
    forall i, j | 0 <= i < j < |order| ensures order[i] != order[j] && !Before(sub[order[j]], sub[order[i]]) {
      assert whole[i] != whole[j];
      assert !Before(ops[whole[j]], ops[whole[i]]);
    }
    forall p: nat | p < |sub| && !sub[p].optional ensures p in order {
      assert idx[p] in Members(idx);
      var i :| 0 <= i < |whole| && whole[i] == idx[p];
      assert order[i] == p;
    }
  }
}
