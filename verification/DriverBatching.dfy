/** Admission of client proposals in batches: first come first served, within record and byte limits,
    never scanning more than a bounded number of requests at a time. */
module DriverBatching {
  import opened Types

  const MAX_BATCH_BYTES: nat := 1048576
  const MAX_PROPOSAL_BATCH: nat := 16

  /** `size` is the encoded command size. */
  datatype Request = Request(id: nat, size: nat)

  /** What became of a request that was taken up. */
  datatype Fate = Admitted | Cancelled | Oversized | Deferred

  datatype Verdict = Verdict(request: Request, fate: Fate)

  /** The verdicts are on the first requests of `line`, one each, in order. */
  predicate Judges(v: seq<Verdict>, line: seq<Request>) {
    |v| <= |line| && forall i :: 0 <= i < |v| ==> v[i].request == line[i]
  }

  function Admissions(v: seq<Verdict>): seq<Request> {
    if v == [] then []
    else Admissions(v[..|v| - 1]) + if v[|v| - 1].fate.Admitted? then [v[|v| - 1].request] else []
  }

  function Total(batch: seq<Request>): nat {
    if batch == [] then 0 else Total(batch[..|batch| - 1]) + batch[|batch| - 1].size
  }

  lemma {:induction false} AdmissionsSnoc(v: seq<Verdict>, x: Verdict)
    ensures Admissions(v + [x]) == Admissions(v) + if x.fate.Admitted? then [x.request] else []
  {
    assert (v + [x])[..|v|] == v;
  }

  lemma {:induction false} TotalSnoc(batch: seq<Request>, x: Request)
    ensures Total(batch + [x]) == Total(batch) + x.size
  {
    assert (batch + [x])[..|batch|] == batch;
  }

  /** The fates of one call are earned: oversized means over the limit, a deferral is the last verdict and
      would have burst the batch admitted so far. */
  ghost predicate Earned(v: seq<Verdict>) {
    forall i {:trigger EarnedAt(v, i)} :: 0 <= i < |v| ==> EarnedAt(v, i)
  }

  ghost predicate EarnedAt(v: seq<Verdict>, i: nat)
    requires i < |v|
  {
    && (v[i].fate.Oversized? <==> !v[i].fate.Cancelled? && v[i].request.size > MAX_BATCH_BYTES)
    && (v[i].fate.Deferred? ==> i == |v| - 1 && Total(Admissions(v[..i])) + v[i].request.size > MAX_BATCH_BYTES)
  }

  lemma {:induction false} EarnedSnoc(v: seq<Verdict>, x: Verdict)
    requires Earned(v) && (v == [] || !v[|v| - 1].fate.Deferred?)
    requires x.fate.Oversized? <==> !x.fate.Cancelled? && x.request.size > MAX_BATCH_BYTES
    requires x.fate.Deferred? ==> Total(Admissions(v)) + x.request.size > MAX_BATCH_BYTES
    ensures Earned(v + [x])
  {
    var w := v + [x];
    forall i: nat | i < |w| ensures EarnedAt(w, i) {
      assert w[..i] == v[..i];
      if i < |v| {
        assert EarnedAt(v, i);
      } else {
        assert v[..i] == v;
      }
    }
  }

  /** A request is dropped as cancelled exactly when its client was gone at the moment it was looked at. */
  ghost predicate Watched(v: seq<Verdict>, closed: (Request, nat) -> bool, clock: nat) {
    forall i :: 0 <= i < |v| ==> (v[i].fate.Cancelled? <==> closed(v[i].request, clock + i))
  }

  /** One call's verdicts so far. */
  ghost predicate Judged(v: seq<Verdict>, line: seq<Request>, closed: (Request, nat) -> bool, clock: nat) {
    Judges(v, line) && Earned(v) && Watched(v, closed, clock)
  }

  /** The verdict on the next request, given the bytes admitted so far. */
  function Judge(request: Request, bytes: nat, gone: bool): Verdict {
    Verdict(request,
            if gone then Cancelled
            else if request.size > MAX_BATCH_BYTES then Oversized
            else if bytes + request.size > MAX_BATCH_BYTES then Fate.Deferred
            else Admitted)
  }

  ghost predicate Tallies(v: seq<Verdict>, line: seq<Request>, closed: (Request, nat) -> bool, clock: nat,
                          batch: seq<Request>, bytes: nat) {
    Judged(v, line, closed, clock) && batch == Admissions(v) && bytes == Total(batch)
  }

  /** `batch` are the requests admitted so far and `bytes` their size. Stated through a quantifier so that
      it unfolds only where `Tallies` is mentioned. */
  ghost predicate Gathers(v: seq<Verdict>, line: seq<Request>, closed: (Request, nat) -> bool, clock: nat,
                          batch: seq<Request>, bytes: nat) {
    forall b {:trigger Tallies(v, line, closed, clock, b, bytes)} :: b == batch ==>
      Tallies(v, line, closed, clock, b, bytes)
  }

  lemma Unfold(v: seq<Verdict>, line: seq<Request>, closed: (Request, nat) -> bool, clock: nat, batch: seq<Request>,
               bytes: nat)
    ensures Gathers(v, line, closed, clock, batch, bytes) <==> Tallies(v, line, closed, clock, batch, bytes)
  {
  }

  lemma NothingYet(line: seq<Request>, closed: (Request, nat) -> bool, clock: nat)
    ensures Gathers([], line, closed, clock, [], 0)
  {
    Unfold([], line, closed, clock, [], 0);
  }

  lemma {:induction false} JudgeSnoc(v: seq<Verdict>, line: seq<Request>, closed: (Request, nat) -> bool, clock: nat,
                                     batch: seq<Request>, bytes: nat)
    requires Gathers(v, line, closed, clock, batch, bytes) && |v| < |line| && (v == [] || !v[|v| - 1].fate.Deferred?)
    ensures var x := Judge(line[|v|], bytes, closed(line[|v|], clock + |v|));
      if x.fate.Admitted? then Gathers(v + [x], line, closed, clock, batch + [line[|v|]], bytes + line[|v|].size)
      else Gathers(v + [x], line, closed, clock, batch, bytes)
  {
    Unfold(v, line, closed, clock, batch, bytes);
    var x := Judge(line[|v|], bytes, closed(line[|v|], clock + |v|));
    AdmissionsSnoc(v, x);
    EarnedSnoc(v, x);
    TotalSnoc(batch, line[|v|]);
    if !x.fate.Admitted? { assert batch + [] == batch; }
  }

  /** A settled request was dropped only if its client was gone, refused only if it fits no batch. */
  ghost predicate Deserved(v: seq<Verdict>, closed: (Request, nat) -> bool) {
    forall i :: 0 <= i < |v| ==>
      && (v[i].fate.Cancelled? ==> exists t: nat :: closed(v[i].request, t))
      && (v[i].fate.Oversized? <==> !v[i].fate.Cancelled? && v[i].request.size > MAX_BATCH_BYTES)
  }

  /** One batch. `line` is the request that opened the batch, then the queue behind it. Collection ends
      when the batch is full, the scan bound is met, a request would burst the batch, or waiting ends:
      `closed` says whether a request's client is gone when it is looked at, `stops` whether shutdown,
      the deadline or an empty queue ends the wait. */
  method Collect(line: seq<Request>, records: nat, closed: (Request, nat) -> bool, stops: nat -> bool, clock: nat)
    returns (batch: seq<Request>, bytes: nat, deferred: Option<Request>, verdicts: seq<Verdict>, scanned: nat)
    requires line != [] && 0 < records <= MAX_PROPOSAL_BATCH
    ensures 0 < |verdicts| == scanned <= MAX_PROPOSAL_BATCH && scanned <= |line|
      && Gathers(verdicts, line, closed, clock, batch, bytes)
    ensures |batch| <= records && bytes <= MAX_BATCH_BYTES
    ensures deferred == if verdicts[scanned - 1].fate.Deferred? then Some(line[scanned - 1]) else None
    ensures deferred.Some? || |batch| == records || scanned == MAX_PROPOSAL_BATCH || scanned == |line|
      || stops(clock + scanned)
  {
    batch, bytes, deferred, verdicts, scanned := [], 0, None, [], 0;
    NothingYet(line, closed, clock);
    while true
      invariant scanned == |verdicts| < MAX_PROPOSAL_BATCH && scanned < |line| && |batch| < records && deferred.None?
      invariant Gathers(verdicts, line, closed, clock, batch, bytes) && bytes <= MAX_BATCH_BYTES
      invariant verdicts == [] || !verdicts[|verdicts| - 1].fate.Deferred?
      decreases MAX_PROPOSAL_BATCH - scanned
    {
      var request := line[scanned];
      var gone := closed(request, clock + scanned);
      JudgeSnoc(verdicts, line, closed, clock, batch, bytes);
      verdicts := verdicts + [Judge(request, bytes, gone)];
      scanned := scanned + 1;
      if !gone && request.size <= MAX_BATCH_BYTES {
        if bytes + request.size > MAX_BATCH_BYTES {
          deferred := Some(request);
          return;
        }
        batch, bytes := batch + [request], bytes + request.size;
      }
      if |batch| >= records || scanned >= MAX_PROPOSAL_BATCH || stops(clock + scanned) || scanned == |line| { return; }
    }
  }

  // ---------------------------------------------------------------- repeated calls

  lemma {:induction false} AdmissionsJoin(a: seq<Verdict>, b: seq<Verdict>)
    ensures Admissions(a + b) == Admissions(a) + Admissions(b)
    decreases |b|
  {
    if b == [] {
      assert a + b == a;
    } else {
      assert (a + b)[..|a + b| - 1] == a + b[..|b| - 1];
      AdmissionsJoin(a, b[..|b| - 1]);
    }
  }

  function Flatten(batches: seq<seq<Request>>): seq<Request> {
    if batches == [] then [] else Flatten(batches[..|batches| - 1]) + batches[|batches| - 1]
  }

  ghost predicate WithinLimits(batches: seq<seq<Request>>, records: nat) {
    forall i :: 0 <= i < |batches| ==> |batches[i]| <= records && Total(batches[i]) <= MAX_BATCH_BYTES
  }

  ghost predicate NoneDeferred(v: seq<Verdict>) {
    forall i :: 0 <= i < |v| ==> !v[i].fate.Deferred?
  }

  /** One call's verdicts without a final deferral, which only postpones its request. */
  function Settled(v: seq<Verdict>): seq<Verdict> {
    if v != [] && v[|v| - 1].fate.Deferred? then v[..|v| - 1] else v
  }

  lemma {:induction false} SettledOnward(settled: seq<Verdict>, v: seq<Verdict>, arrivals: seq<Request>)
    requires Judges(settled, arrivals) && NoneDeferred(settled) && Judges(v, arrivals[|settled|..]) && Earned(v)
      && v != []
    ensures var next := settled + Settled(v);
      && Judges(next, arrivals) && NoneDeferred(next) && Admissions(next) == Admissions(settled) + Admissions(v)
      && (v[|v| - 1].fate.Deferred? ==> |next| < |arrivals| && v[|v| - 1].request == arrivals[|next|])
  {
    var s := Settled(v);
    AdmissionsJoin(settled, s);
    assert Admissions(s) == Admissions(v);
    forall i | 0 <= i < |settled + s|
      ensures (settled + s)[i].request == arrivals[i] && !(settled + s)[i].fate.Deferred?
    {
      if i >= |settled| { assert (settled + s)[i] == v[i - |settled|] && EarnedAt(v, i - |settled|); }
    }
  }

  lemma {:induction false} SettledDeserved(settled: seq<Verdict>, v: seq<Verdict>, closed: (Request, nat) -> bool,
                                           clock: nat)
    requires Deserved(settled, closed) && Earned(v) && Watched(v, closed, clock) && v != []
    ensures Deserved(settled + Settled(v), closed) && Settled(v) != []
  {
    assert EarnedAt(v, 0) && v[..0] == [];
    forall i | 0 <= i < |Settled(v)|
      ensures Settled(v)[i].fate.Cancelled? ==> exists t: nat :: closed(Settled(v)[i].request, t)
      ensures Settled(v)[i].fate.Oversized? <==>
              !Settled(v)[i].fate.Cancelled? && Settled(v)[i].request.size > MAX_BATCH_BYTES
    {
      assert EarnedAt(v, i) && (v[i].fate.Cancelled? <==> closed(v[i].request, clock + i));
    }
  }

  /** What repeated calls have achieved: the settled requests are the first arrivals, in order, each once, and
      the batches are exactly the admitted ones, each within the limits. */
  ghost predicate Served(arrivals: seq<Request>, records: nat, closed: (Request, nat) -> bool, settled: seq<Verdict>,
                         batches: seq<seq<Request>>) {
    && Judges(settled, arrivals) && NoneDeferred(settled) && Deserved(settled, closed)
    && Flatten(batches) == Admissions(settled) && WithinLimits(batches, records)
    && |batches| <= |settled| <= MAX_PROPOSAL_BATCH * |batches|
  }

  lemma {:induction false} ServedOnward(arrivals: seq<Request>, records: nat, closed: (Request, nat) -> bool,
                                        settled: seq<Verdict>, batches: seq<seq<Request>>, v: seq<Verdict>,
                                        clock: nat, batch: seq<Request>, bytes: nat)
    requires Served(arrivals, records, closed, settled, batches)
    requires Gathers(v, arrivals[|settled|..], closed, clock, batch, bytes) && 0 < |v| <= MAX_PROPOSAL_BATCH
    requires |batch| <= records && bytes <= MAX_BATCH_BYTES
    ensures Served(arrivals, records, closed, settled + Settled(v), batches + [batch])
  {
    Unfold(v, arrivals[|settled|..], closed, clock, batch, bytes);
    SettledOnward(settled, v, arrivals);
    SettledDeserved(settled, v, closed, clock);
    assert (batches + [batch])[..|batches|] == batches;
  }

  /** FIFO batching over repeated calls: at most one request is held back, it is the next in line, and it
      opens the next batch; calls end early only when every arrival is settled. */
  method Serve(arrivals: seq<Request>, records: nat, closed: (Request, nat) -> bool, stops: nat -> bool, calls: nat)
    returns (batches: seq<seq<Request>>, deferred: Option<Request>, settled: seq<Verdict>)
    requires 0 < records <= MAX_PROPOSAL_BATCH
    ensures Served(arrivals, records, closed, settled, batches)
    ensures deferred.Some? ==> |settled| < |arrivals| && deferred.value == arrivals[|settled|]
    ensures |batches| == calls || (|batches| < calls && |settled| == |arrivals| && deferred.None?)
  {
    batches, deferred, settled := [], None, [];
    var at, n := 0, 0;
    while n < calls && at < |arrivals|
      invariant n <= calls && |batches| == n && Served(arrivals, records, closed, settled, batches)
      invariant at == |settled| <= |arrivals|
      invariant deferred.Some? ==> at < |arrivals| && deferred.value == arrivals[at]
    {
      var batch, bytes, held, verdicts, scanned :=
        Collect(arrivals[at..], records, closed, stops, n * MAX_PROPOSAL_BATCH);
      ServedOnward(arrivals, records, closed, settled, batches, verdicts, n * MAX_PROPOSAL_BATCH, batch, bytes);
      batches, deferred := batches + [batch], held;
      at := at + if held.Some? then scanned - 1 else scanned;
      settled := settled + Settled(verdicts);
      n := n + 1;
    }
  }
}
