/** Applying committed entries in groups: cells are coalesced under a byte budget and committed in one
    engine transaction, and nobody can tell the difference from one entry at a time. */
module GroupApply {
  import opened Basics
  import opened Types
  import opened Application
  import opened ApplicationInvariant
  import opened AppliedStore
  import opened StateMachine

  const MAX_ENGINE_KEY_BYTES: nat := 4096
  const MAX_ENGINE_VALUE_BYTES: nat := 1048576
  const MAX_BATCH_BYTES: nat := 16777216
  const MAX_BATCH_RECORDS: nat := 65536
  const MAX_APPLY_RANGE: nat := 256

  /** The encoded length of a cell's content. */
  type Size = Content -> nat

  /** Cells awaiting one engine transaction; `None` deletes. */
  type Pending = map<CellKey, Option<Content>>

  function ContentBytes(size: Size, v: Option<Content>): nat {
    if v.Some? then size(v.value) else 0
  }

  function CellBytes(size: Size, k: CellKey, v: Option<Content>): nat {
    |EncodeKey(k)| + ContentBytes(size, v)
  }

  // ---------------------------------------------------------------- counting bytes

  /** Every pending byte; the running count must be their number. */
  function ByteSet(size: Size, m: Pending): set<(CellKey, int)> {
    set k, i | k in m && 0 <= i < CellBytes(size, k, m[k]) :: (k, i)
  }

  function OwnBytes(k: CellKey, n: nat): set<(CellKey, int)> {
    set i | 0 <= i < n :: (k, i)
  }

  lemma {:induction false} OwnSize(k: CellKey, n: nat)
    ensures |OwnBytes(k, n)| == n
  {
    if n > 0 {
      OwnSize(k, n - 1);
      assert OwnBytes(k, n) == OwnBytes(k, n - 1) + {(k, n - 1)};
    }
  }

  function Total(size: Size, m: Pending): nat {
    |ByteSet(size, m)|
  }

  lemma ByteSetUpdate(size: Size, m: Pending, k: CellKey, v: Option<Content>)
    ensures var old_ := OwnBytes(k, if k in m then CellBytes(size, k, m[k]) else 0);
      var new_ := OwnBytes(k, CellBytes(size, k, v));
      && old_ <= ByteSet(size, m) && (ByteSet(size, m) - old_) !! new_
      && ByteSet(size, m[k := v]) == (ByteSet(size, m) - old_) + new_
  {
  }

  lemma TotalUpdate(size: Size, m: Pending, k: CellKey, v: Option<Content>)
    ensures Total(size, m[k := v])
      == Total(size, m) - (if k in m then CellBytes(size, k, m[k]) else 0) + CellBytes(size, k, v)
  {
    var before := if k in m then CellBytes(size, k, m[k]) else 0;
    ByteSetUpdate(size, m, k, v);
    OwnSize(k, before);
    OwnSize(k, CellBytes(size, k, v));
    SubsetSize(OwnBytes(k, before), ByteSet(size, m));
    DisjointSize(ByteSet(size, m) - OwnBytes(k, before), OwnBytes(k, CellBytes(size, k, v)));
  }

  // ---------------------------------------------------------------- coalescing

  function Coalesce(m: Pending, cells: seq<Cell>): Pending {
    if cells == [] then m
    else
      var last := cells[|cells| - 1];
      Coalesce(m, cells[..|cells| - 1])[last.key := last.content]
  }

  predicate CellBounded(size: Size, c: Cell) {
    0 < |EncodeKey(c.key)| <= MAX_ENGINE_KEY_BYTES && ContentBytes(size, c.content) <= MAX_ENGINE_VALUE_BYTES
  }

  predicate ChangesOk(size: Size, cells: seq<Cell>) {
    CellsDistinct(cells) && forall i :: 0 <= i < |cells| ==> CellBounded(size, cells[i])
  }

  predicate Fits(size: Size, m: Pending) {
    Total(size, m) <= MAX_BATCH_BYTES && |m| <= MAX_BATCH_RECORDS
  }

  lemma {:induction false} CoalesceOther(m: Pending, cells: seq<Cell>, k: CellKey)
    requires forall i :: 0 <= i < |cells| ==> cells[i].key != k
    ensures k in Coalesce(m, cells) <==> k in m
    ensures k in m ==> Coalesce(m, cells)[k] == m[k]
  {
    if cells != [] { CoalesceOther(m, cells[..|cells| - 1], k); }
  }

  lemma {:induction false} CoalesceSnoc(m: Pending, cells: seq<Cell>, n: nat)
    requires n < |cells|
    ensures Coalesce(m, cells[..n + 1]) == Coalesce(m, cells[..n])[cells[n].key := cells[n].content]
  {
    assert cells[..n + 1][..n] == cells[..n];
  }

  ghost predicate Seen(changes: seq<Cell>, n: nat, seen: set<CellKey>) {
    n <= |changes| && forall k :: k in seen <==> exists i :: 0 <= i < n && changes[i].key == k
  }

  lemma GoodChange(size: Size, changes: seq<Cell>, n: nat, seen: set<CellKey>)
    requires n < |changes| && ChangesOk(size, changes[..n]) && Seen(changes, n, seen)
    requires CellBounded(size, changes[n]) && changes[n].key !in seen
    ensures ChangesOk(size, changes[..n + 1]) && Seen(changes, n + 1, seen + {changes[n].key})
    ensures forall i :: 0 <= i < n ==> changes[i].key != changes[n].key
  {
    assert changes[..n + 1] == changes[..n] + [changes[n]];
  }

  lemma BadChange(size: Size, changes: seq<Cell>, n: nat, seen: set<CellKey>)
    requires n < |changes| && Seen(changes, n, seen) && (changes[n].key in seen || !CellBounded(size, changes[n]))
    ensures !ChangesOk(size, changes)
  {
  }

  /** One more change moves the counts as if its key's old cell were taken out and the new one put in. */
  lemma {:induction false} SizeChange(size: Size, m: Pending, changes: seq<Cell>, n: nat)
    requires n < |changes| && forall i :: 0 <= i < n ==> changes[i].key != changes[n].key
    ensures var c, so := changes[n], Coalesce(m, changes[..n]);
      && Coalesce(m, changes[..n + 1]) == so[c.key := c.content]
      && Total(size, so[c.key := c.content])
         == Total(size, so) - (if c.key in m then CellBytes(size, c.key, m[c.key]) else 0)
           + CellBytes(size, c.key, c.content)
      && |so[c.key := c.content]| == |so| + (if c.key in m then 0 else 1)
  {
    var c, so := changes[n], Coalesce(m, changes[..n]);
    CoalesceOther(m, changes[..n], c.key);
    CoalesceSnoc(m, changes, n);
    TotalUpdate(size, so, c.key, c.content);
    RecordsUpdate(so, c.key, c.content);
  }

  lemma RecordsUpdate(m: Pending, k: CellKey, v: Option<Content>)
    ensures |m[k := v]| == |m| + (if k in m then 0 else 1)
  {
    assert m[k := v].Keys == m.Keys + {k};
  }

  datatype Merge = Merged | Full | Invalid

  /** The cells accumulated for one engine transaction, with their running byte count. */
  class Batch {
    const size: Size
    var cells: Pending
    var bytes: nat

    ghost predicate Valid()
      reads this
    {
      bytes == Total(size, cells)
    }

    constructor (size: Size)
      ensures Valid() && this.size == size && cells == map[]
    {
      this.size := size;
      cells, bytes := map[], 0;
      assert ByteSet(size, map[]) == {};
    }

    /** Coalesce one entry's cells, or leave the batch as it was. */
    method Add(changes: seq<Cell>) returns (r: Merge)
      requires Valid()
      modifies this
      ensures Valid()
      ensures r.Invalid? <==> !ChangesOk(size, changes)
      ensures r.Merged? <==> ChangesOk(size, changes) && Fits(size, Coalesce(old(cells), changes))
      ensures cells == if r.Merged? then Coalesce(old(cells), changes) else old(cells)
    {
      var measured := Measure(changes);
      if measured.None? { return Invalid; }
      if measured.value.0 > MAX_BATCH_BYTES || measured.value.1 > MAX_BATCH_RECORDS { return Full; }
      Insert(changes);
      bytes := measured.value.0;
      return Merged;
    }

    /** The byte and record counts the batch would have, without touching it. */
    method Measure(changes: seq<Cell>) returns (r: Option<(nat, nat)>)
      requires Valid()
      ensures r.Some? <==> ChangesOk(size, changes)
      ensures r.Some? ==> r.value == (Total(size, Coalesce(cells, changes)), |Coalesce(cells, changes)|)
    {
      var total, count, seen := bytes, |cells|, {};
      ghost var so: Pending := cells;
      var n := 0;
      while n < |changes|
        invariant n <= |changes| && ChangesOk(size, changes[..n]) && Seen(changes, n, seen)
        invariant so == Coalesce(cells, changes[..n]) && total == Total(size, so) && count == |so|
      {
        var c := changes[n];
        if c.key in seen || !CellBounded(size, c) {
          BadChange(size, changes, n, seen);
          return None;
        }
        GoodChange(size, changes, n, seen);
        SizeChange(size, cells, changes, n);
        if c.key in cells {
          total := total - CellBytes(size, c.key, cells[c.key]);
        } else {
          count := count + 1;
        }
        total, seen, so := total + CellBytes(size, c.key, c.content), seen + {c.key}, so[c.key := c.content];
        n := n + 1;
      }
      assert changes[..n] == changes;
      r := Some((total, count));
    }

    method Insert(changes: seq<Cell>)
      modifies `cells
      ensures cells == Coalesce(old(cells), changes)
    {
      var n := 0;
      while n < |changes|
        invariant n <= |changes| && cells == Coalesce(old(cells), changes[..n])
      {
        assert changes[..n + 1][..n] == changes[..n];
        cells := cells[changes[n].key := changes[n].content];
        n := n + 1;
      }
      assert changes[..n] == changes;
    }
  }

  // ---------------------------------------------------------------- the engine sees the same rows

  /** The rows after one transaction of pending cells. */
  function Overlay(rows: Rows, m: Pending): Rows {
    map k | k in rows.Keys + m.Keys
      && (if k in m then m[k].Some? else k in rows) :: if k in m then m[k].value else rows[k]
  }

  lemma OverlayStep(rows: Rows, m: Pending, c: Cell)
    ensures Overlay(rows, m[c.key := c.content]) == Write(Overlay(rows, m), c)
  {
  }

  lemma {:induction false} WriteAllSnoc(rows: Rows, cells: seq<Cell>, c: Cell)
    ensures WriteAll(rows, cells + [c]) == Write(WriteAll(rows, cells), c)
    decreases |cells|
  {
    if cells == [] {
      assert [c][1..] == [];
    } else {
      assert (cells + [c])[1..] == cells[1..] + [c];
      WriteAllSnoc(Write(rows, cells[0]), cells[1..], c);
    }
  }

  /** Coalescing is invisible: one transaction of merged cells equals writing every change in order. */
  lemma {:induction false} OverlayCoalesce(rows: Rows, m: Pending, cells: seq<Cell>)
    ensures Overlay(rows, Coalesce(m, cells)) == WriteAll(Overlay(rows, m), cells)
  {
    if cells != [] {
      var init, last := cells[..|cells| - 1], cells[|cells| - 1];
      OverlayCoalesce(rows, m, init);
      OverlayStep(rows, Coalesce(m, init), last);
      WriteAllSnoc(Overlay(rows, m), init, last);
      assert cells == init + [last];
    }
  }

  // ---------------------------------------------------------------- one at a time

  datatype Progress = Progress(app: App, rows: Rows, outcomes: seq<(LogIndex, Outcome)>)

  /** Apply an entry, write its cells, answer it. */
  function Advance(hash: Hash, identity: string, p: Option<Progress>, entry: Entry): Option<Progress> {
    if p.None? then None else Next(hash, identity, p.value, entry)
  }

  type Stepper = (Option<Progress>, Entry) -> Option<Progress>

  function Run(step: Stepper, p: Option<Progress>, entries: seq<Entry>): Option<Progress>
    decreases |entries|
  {
    if entries == [] then p else step(Run(step, p, entries[..|entries| - 1]), entries[|entries| - 1])
  }

  function Advancing(hash: Hash, identity: string): Stepper {
    (p, entry) => Advance(hash, identity, p, entry)
  }

  /** The reference: the entries one at a time. */
  function OneByOne(hash: Hash, identity: string, app: App, rows: Rows, entries: seq<Entry>): Option<Progress> {
    Run(Advancing(hash, identity), Some(Progress(app, rows, [])), entries)
  }

  function Next(hash: Hash, identity: string, p: Progress, entry: Entry): Option<Progress> {
    match Apply(hash, p.app, entry)
    case None => None
    case Some(step) =>
      match EntryCells(step.app, identity, entry)
      case None => None
      case Some(cells) => Some(Progress(step.app, WriteAll(p.rows, cells), p.outcomes + [(entry.index, step.outcome)]))
  }

  lemma {:induction false} RunSplit(step: Stepper, p: Option<Progress>, entries: seq<Entry>, n: nat)
    requires n <= |entries|
    ensures Run(step, p, entries) == Run(step, Run(step, p, entries[..n]), entries[n..])
    decreases |entries|
  {
    if n == |entries| {
      assert entries[..n] == entries && entries[n..] == [];
    } else {
      var init, tail := entries[..|entries| - 1], entries[n..];
      assert init[..n] == entries[..n] && init[n..] == tail[..|tail| - 1] && tail[|tail| - 1] == entries[|entries| - 1];
      RunSplit(step, p, init, n);
    }
  }

  /** The same progress with earlier answers in front. */
  function After(earlier: seq<(LogIndex, Outcome)>, p: Option<Progress>): Option<Progress> {
    if p.None? then None else Some(p.value.(outcomes := earlier + p.value.outcomes))
  }

  lemma {:induction false} RunAfter(step: Stepper, earlier: seq<(LogIndex, Outcome)>, p: Option<Progress>,
                                    entries: seq<Entry>)
    requires forall q, e :: step(After(earlier, q), e) == After(earlier, step(q, e))
    ensures Run(step, After(earlier, p), entries) == After(earlier, Run(step, p, entries))
    decreases |entries|
  {
    if entries != [] { RunAfter(step, earlier, p, entries[..|entries| - 1]); }
  }

  lemma AdvanceAfter(hash: Hash, identity: string, earlier: seq<(LogIndex, Outcome)>, p: Option<Progress>, entry: Entry)
    ensures Advance(hash, identity, After(earlier, p), entry) == After(earlier, Advance(hash, identity, p, entry))
  {
    if p.Some? && Next(hash, identity, p.value, entry).Some? {
      var answer := (entry.index, Apply(hash, p.value.app, entry).value.outcome);
      assert earlier + p.value.outcomes + [answer] == earlier + (p.value.outcomes + [answer]);
    }
  }

  /** Earlier answers do not influence a step. */
  ghost predicate Uniform(step: Stepper) {
    forall earlier, q, e :: step(After(earlier, q), e) == After(earlier, step(q, e))
  }

  lemma AdvancingUniform(hash: Hash, identity: string)
    ensures Uniform(Advancing(hash, identity))
  {
    forall earlier, q, e
      ensures Advancing(hash, identity)(After(earlier, q), e) == After(earlier, Advancing(hash, identity)(q, e))
    {
      AdvanceAfter(hash, identity, earlier, q, e);
    }
  }

  lemma {:induction false} RunResumes(step: Stepper, start: Option<Progress>, entries: seq<Entry>, n: nat)
    requires Uniform(step) && n <= |entries| && Run(step, start, entries[..n]).Some?
    ensures var p := Run(step, start, entries[..n]).value;
      Run(step, start, entries) == After(p.outcomes, Run(step, Some(p.(outcomes := [])), entries[n..]))
  {
    var p := Run(step, start, entries[..n]).value;
    RunSplit(step, start, entries, n);
    RunAfter(step, p.outcomes, Some(p.(outcomes := [])), entries[n..]);
    assert p.outcomes + [] == p.outcomes;
  }

  /** Splitting the reference run anywhere gives the same run. */
  lemma OneByOneSplit(hash: Hash, identity: string, app: App, rows: Rows, entries: seq<Entry>, n: nat)
    requires n <= |entries| && OneByOne(hash, identity, app, rows, entries[..n]).Some?
    ensures var p := OneByOne(hash, identity, app, rows, entries[..n]).value;
      OneByOne(hash, identity, app, rows, entries)
        == After(p.outcomes, OneByOne(hash, identity, p.app, p.rows, entries[n..]))
  {
    AdvancingUniform(hash, identity);
    RunResumes(Advancing(hash, identity), Some(Progress(app, rows, [])), entries, n);
  }

  lemma OneByOneSnoc(hash: Hash, identity: string, app: App, rows: Rows, entries: seq<Entry>, n: nat)
    requires n < |entries|
    ensures OneByOne(hash, identity, app, rows, entries[..n + 1])
         == Advance(hash, identity, OneByOne(hash, identity, app, rows, entries[..n]), entries[n])
  {
    assert entries[..n + 1][..n] == entries[..n];
  }

  // ---------------------------------------------------------------- the group

  /** The store behind the application: engine rows and watermark. */
  class Store {
    const identity: string
    var rows: Rows
    var index: LogIndex
    var term: Term
    var poisoned: bool

    constructor (identity: string)
      ensures this.identity == identity && rows == map[] && index == 0 && !poisoned
    {
      this.identity := identity;
      rows, index, term, poisoned := map[], 0, 0, false;
    }

    /** One engine transaction: all cells and the watermark, or nothing. `engineOk` is the engine's own verdict. */
    method Commit(first: LogIndex, last: LogIndex, lastTerm: Term, cells: Pending, engineOk: bool) returns (ok: bool)
      modifies this
      ensures ok <==> !old(poisoned) && first == old(index) + 1 && engineOk
      ensures ok ==> rows == Overlay(old(rows), cells) && index == last && term == lastTerm && !poisoned
      ensures !ok ==> rows == old(rows) && index == old(index) && term == old(term)
      ensures poisoned <==> old(poisoned) || (first == old(index) + 1 && !engineOk)
    {
      if poisoned { return false; }
      if first != index + 1 { return false; }
      if !engineOk {
        poisoned := true;
        return false;
      }
      rows, index, term := Overlay(rows, cells), last, lastTerm;
      return true;
    }
  }

  /** What an entry would write, read off the state after it. */
  function Writes(hash: Hash, app: App, entry: Entry, identity: string): Option<seq<Cell>> {
    match Apply(hash, app, entry)
    case None => None
    case Some(step) => EntryCells(step.app, identity, entry)
  }

  /** The reference run gets as far as `n`, and entry `n` is within the engine's bounds on its own. */
  ghost predicate CleanAt(size: Size, hash: Hash, identity: string, app: App, rows: Rows, entries: seq<Entry>, n: nat)
    requires n <= |entries|
  {
    var p := OneByOne(hash, identity, app, rows, entries[..n]);
    p.Some? && (n < |entries| ==>
      var cells := Writes(hash, p.value.app, entries[n], identity);
      cells.Some? ==> ChangesOk(size, cells.value) && Fits(size, Coalesce(map[], cells.value)))
  }

  /** The reference run succeeds and no single entry exceeds the engine's bounds. */
  ghost predicate Clean(size: Size, hash: Hash, identity: string, app: App, rows: Rows, entries: seq<Entry>) {
    forall n {:trigger CleanAt(size, hash, identity, app, rows, entries, n)} :: 0 <= n <= |entries| ==>
      CleanAt(size, hash, identity, app, rows, entries, n)
  }

  ghost predicate RunsTo(hash: Hash, identity: string, app: App, rows: Rows, entries: seq<Entry>, p: Progress) {
    OneByOne(hash, identity, app, rows, entries) == Some(p)
  }

  /** The reference run of the entries gives `p`. Said through a quantifier, so that proofs open the
      run only where they name it. */
  ghost predicate Matches(hash: Hash, identity: string, app: App, rows: Rows, entries: seq<Entry>, p: Progress) {
    forall log {:trigger RunsTo(hash, identity, app, rows, log, p)} :: log == entries ==>
      RunsTo(hash, identity, app, rows, log, p)
  }

  lemma MatchesExact(hash: Hash, identity: string, app: App, rows: Rows, entries: seq<Entry>, p: Progress)
    ensures Matches(hash, identity, app, rows, entries, p) <==> OneByOne(hash, identity, app, rows, entries) == Some(p)
  {
    assert RunsTo(hash, identity, app, rows, entries, p) <==> OneByOne(hash, identity, app, rows, entries) == Some(p);
  }

  lemma {:induction false} MatchesNext(hash: Hash, identity: string, app: App, rows: Rows, entries: seq<Entry>, n: nat,
                                       now: App, staged: Pending, outcomes: seq<(LogIndex, Outcome)>,
                                       step: Step<Outcome>, cells: seq<Cell>)
    requires n < |entries|
      && Matches(hash, identity, app, rows, entries[..n], Progress(now, Overlay(rows, staged), outcomes))
    requires Takes(hash, identity, now, entries[n], step, cells)
    ensures Matches(hash, identity, app, rows, entries[..n + 1],
                    Progress(step.app, Overlay(rows, Coalesce(staged, cells)),
                             outcomes + [(entries[n].index, step.outcome)]))
  {
    var p := Progress(now, Overlay(rows, staged), outcomes);
    var q := Progress(step.app, Overlay(rows, Coalesce(staged, cells)), outcomes + [(entries[n].index, step.outcome)]);
    MatchesExact(hash, identity, app, rows, entries[..n], p);
    assert TakesTo(hash, identity, now, entries[n], step, cells);
    OneByOneSnoc(hash, identity, app, rows, entries, n);
    OverlayCoalesce(rows, staged, cells);
    MatchesExact(hash, identity, app, rows, entries[..n + 1], q);
  }

  /** A run that cannot get past entry `n` is not clean. */
  lemma StopsAt(size: Size, hash: Hash, identity: string, app: App, rows: Rows, entries: seq<Entry>, n: nat,
                p: Progress)
    requires n < |entries| && Matches(hash, identity, app, rows, entries[..n], p)
    requires Unfit(size, hash, identity, p.app, entries[n]) || Overflows(size, hash, identity, p.app, entries[n], map[])
    ensures !Clean(size, hash, identity, app, rows, entries)
  {
    MatchesExact(hash, identity, app, rows, entries[..n], p);
    assert UnfitFor(size, hash, identity, p.app, entries[n])
      || OverflowsOn(size, hash, identity, p.app, entries[n], map[]);
    OneByOneSnoc(hash, identity, app, rows, entries, n);
    assert !CleanAt(size, hash, identity, app, rows, entries, n)
      || !CleanAt(size, hash, identity, app, rows, entries, n + 1);
  }

  lemma NothingYet(hash: Hash, identity: string, app: App, rows: Rows, entries: seq<Entry>)
    ensures Overlay(rows, map[]) == rows && Matches(hash, identity, app, rows, entries[..0], Progress(app, rows, []))
  {
    MatchesExact(hash, identity, app, rows, entries[..0], Progress(app, rows, []));
    assert entries[..0] == [];
  }

  ghost predicate TakesTo(hash: Hash, identity: string, app: App, entry: Entry, step: Step<Outcome>, cells: seq<Cell>) {
    Apply(hash, app, entry) == Some(step) && EntryCells(step.app, identity, entry) == Some(cells)
  }

  /** Applying `entry` to `app` leads to `step` and writes `cells`; protected like `Matches`. */
  ghost predicate Takes(hash: Hash, identity: string, app: App, entry: Entry, step: Step<Outcome>, cells: seq<Cell>) {
    forall e {:trigger TakesTo(hash, identity, app, e, step, cells)} :: e == entry ==>
      TakesTo(hash, identity, app, e, step, cells)
  }

  ghost predicate UnfitFor(size: Size, hash: Hash, identity: string, app: App, entry: Entry) {
    var cells := Writes(hash, app, entry, identity);
    cells.None? || !ChangesOk(size, cells.value)
  }

  /** `entry` cannot be applied or breaks the engine's bounds; protected like `Matches`. */
  ghost predicate Unfit(size: Size, hash: Hash, identity: string, app: App, entry: Entry) {
    forall e {:trigger UnfitFor(size, hash, identity, app, e)} :: e == entry ==> UnfitFor(size, hash, identity, app, e)
  }

  ghost predicate OverflowsOn(size: Size, hash: Hash, identity: string, app: App, entry: Entry, m: Pending) {
    var cells := Writes(hash, app, entry, identity);
    cells.Some? && ChangesOk(size, cells.value) && !Fits(size, Coalesce(m, cells.value))
  }

  /** `entry` is in order, but what it writes does not fit on top of `m`; protected like `Matches`. */
  ghost predicate Overflows(size: Size, hash: Hash, identity: string, app: App, entry: Entry, m: Pending) {
    forall e {:trigger OverflowsOn(size, hash, identity, app, e, m)} :: e == entry ==>
      OverflowsOn(size, hash, identity, app, e, m)
  }

  // ---------------------------------------------------------------- what a range writes

  /** The state after the entries and all they write, coalesced; `None` if one of them cannot be applied. */
  function Staging(hash: Hash, identity: string, app: App, entries: seq<Entry>): Option<(App, Pending)> {
    if entries == [] then Some((app, map[]))
    else
      match Staging(hash, identity, app, entries[..|entries| - 1])
      case None => None
      case Some((now, m)) =>
        match Apply(hash, now, entries[|entries| - 1])
        case None => None
        case Some(step) =>
          match EntryCells(step.app, identity, entries[|entries| - 1])
          case None => None
          case Some(cells) => Some((step.app, Coalesce(m, cells)))
  }

  ghost predicate StagesTo(hash: Hash, identity: string, app: App, entries: seq<Entry>, now: App, m: Pending) {
    Staging(hash, identity, app, entries) == Some((now, m))
  }

  /** Applying the entries to `app` leads to `now` and writes exactly `m`; protected like `Matches`. */
  ghost predicate Gathered(hash: Hash, identity: string, app: App, entries: seq<Entry>, now: App, m: Pending) {
    forall log {:trigger StagesTo(hash, identity, app, log, now, m)} :: log == entries ==>
      StagesTo(hash, identity, app, log, now, m)
  }

  lemma {:induction false} GatheredExact(hash: Hash, identity: string, app: App, entries: seq<Entry>, now: App,
                                         m: Pending)
    ensures Gathered(hash, identity, app, entries, now, m) <==> Staging(hash, identity, app, entries) == Some((now, m))
  {
    assert StagesTo(hash, identity, app, entries, now, m) <==> Staging(hash, identity, app, entries) == Some((now, m));
  }

  lemma GatheredNone(hash: Hash, identity: string, app: App, entries: seq<Entry>)
    ensures Gathered(hash, identity, app, entries[..0], app, map[])
  {
    assert entries[..0] == [];
    GatheredExact(hash, identity, app, [], app, map[]);
  }

  lemma {:induction false} GatheredNext(hash: Hash, identity: string, app: App, entries: seq<Entry>, n: nat, now: App,
                                        m: Pending, step: Step<Outcome>, cells: seq<Cell>)
    requires n < |entries| && Gathered(hash, identity, app, entries[..n], now, m)
      && Takes(hash, identity, now, entries[n], step, cells)
    ensures Gathered(hash, identity, app, entries[..n + 1], step.app, Coalesce(m, cells))
  {
    GatheredExact(hash, identity, app, entries[..n], now, m);
    assert TakesTo(hash, identity, now, entries[n], step, cells);
    assert entries[..n + 1][..n] == entries[..n];
    GatheredExact(hash, identity, app, entries[..n + 1], step.app, Coalesce(m, cells));
  }

  datatype Turn = Took(outcome: Outcome, cells: seq<Cell>) | NoRoom | Failed

  /** One entry: applied and merged, rolled back for lack of room, or refused. */
  method StageOne(tx: Transaction, batch: Batch, identity: string, entry: Entry) returns (r: Turn)
    requires tx.Valid() && !tx.committed && batch.Valid()
    modifies tx, tx.machine, batch
    ensures tx.Valid() && !tx.committed && batch.Valid() && tx.trail[0] == old(tx.trail[0])
    ensures r.Took? ==>
      Takes(tx.machine.hash, identity, old(tx.machine.View()), entry, Step(tx.machine.View(), r.outcome), r.cells)
    ensures r.Took? ==> batch.cells == Coalesce(old(batch.cells), r.cells)
    ensures r.NoRoom? ==> tx.machine.View() == old(tx.machine.View()) && batch.cells == old(batch.cells)
    ensures r.NoRoom? ==>
      Overflows(batch.size, tx.machine.hash, identity, old(tx.machine.View()), entry, old(batch.cells))
    ensures r.Failed? ==> Unfit(batch.size, tx.machine.hash, identity, old(tx.machine.View()), entry)
  {
    var outcome := tx.Apply(entry);
    if outcome.None? { return Failed; }
    var changes := EntryCells(tx.machine.View(), identity, entry);
    if changes.None? { return Failed; }
    var merged := batch.Add(changes.value);
    if merged.Invalid? { return Failed; }
    if merged.Full? {
      tx.UndoLast();
      return NoRoom;
    }
    return Took(outcome.value, changes.value);
  }

  /** Apply provisionally as many entries as the batch takes. */
  method Stage(tx: Transaction, batch: Batch, identity: string, entries: seq<Entry>, ghost rows: Rows)
    returns (r: Option<(seq<(LogIndex, Outcome)>, Term)>)
    requires tx.Valid() && tx.entries == [] && !tx.committed && batch.Valid() && batch.cells == map[] && entries != []
    modifies tx, tx.machine, batch
    ensures tx.Valid() && !tx.committed && tx.trail[0] == old(tx.machine.View())
    ensures r.Some? ==>
      0 < |r.value.0| <= |entries| && |r.value.0| <= MAX_APPLY_RANGE && r.value.1 == entries[|r.value.0| - 1].term
    ensures r.Some? ==> Matches(tx.machine.hash, identity, old(tx.machine.View()), rows, entries[..|r.value.0|],
                                Progress(tx.machine.View(), Overlay(rows, batch.cells), r.value.0))
    ensures r.Some? ==>
      Gathered(tx.machine.hash, identity, old(tx.machine.View()), entries[..|r.value.0|], tx.machine.View(),
               batch.cells)
    ensures r.Some? && |r.value.0| < |entries| && |r.value.0| < MAX_APPLY_RANGE ==>
              Overflows(batch.size, tx.machine.hash, identity, tx.machine.View(), entries[|r.value.0|], batch.cells)
    ensures Clean(batch.size, tx.machine.hash, identity, old(tx.machine.View()), rows, entries) ==> r.Some?
  {
    ghost var hash, app := tx.machine.hash, tx.machine.View();
    var outcomes: seq<(LogIndex, Outcome)>, term := [], 0;
    NothingYet(hash, identity, app, rows, entries);
    GatheredNone(hash, identity, app, entries);
    assert tx.trail[0] == app;
    while |outcomes| < |entries| && |outcomes| < MAX_APPLY_RANGE
      invariant |outcomes| <= |entries| && |outcomes| <= MAX_APPLY_RANGE && tx.Valid() && !tx.committed
        && tx.trail[0] == app && batch.Valid()
      invariant Matches(hash, identity, app, rows, entries[..|outcomes|],
                        Progress(tx.machine.View(), Overlay(rows, batch.cells), outcomes))
      invariant Gathered(hash, identity, app, entries[..|outcomes|], tx.machine.View(), batch.cells)
      invariant outcomes == [] ==> batch.cells == map[]
      invariant outcomes != [] ==> term == entries[|outcomes| - 1].term
    {
      var n, entry := |outcomes|, entries[|outcomes|];
      ghost var before, staged := tx.machine.View(), batch.cells;
      var turn := StageOne(tx, batch, identity, entry);
      if turn.Failed? || (turn.NoRoom? && outcomes == []) {
        StopsAt(batch.size, hash, identity, app, rows, entries, n, Progress(before, Overlay(rows, staged), outcomes));
        return None;
      }
      if turn.NoRoom? { break; }
      MatchesNext(hash, identity, app, rows, entries, n, before, staged, outcomes,
                  Step(tx.machine.View(), turn.outcome), turn.cells);
      GatheredNext(hash, identity, app, entries, n, before, staged, Step(tx.machine.View(), turn.outcome), turn.cells);
      outcomes, term := outcomes + [(entry.index, turn.outcome)], entry.term;
    }
    r := Some((outcomes, term));
  }

  /** A group of entries: a nonempty prefix is applied exactly as one entry at a time would, behind one
      engine transaction of exactly the `cells` it writes, or nothing changes at all. The prefix stops short
      only where what the next entry writes does not fit on top of these. */
  method Group(machine: Machine, store: Store, size: Size, entries: seq<Entry>, engineOk: bool)
    returns (r: Option<seq<(LogIndex, Outcome)>>, ghost cells: Pending)
    requires Sound(machine.hash, machine.View()) && store.index == machine.lastApplied
    modifies machine, store
    ensures Sound(machine.hash, machine.View()) && store.index == machine.lastApplied
    ensures r.None? ==> machine.View() == old(machine.View()) && store.rows == old(store.rows)
    ensures r.Some? ==> 0 < |r.value| <= |entries| && |r.value| <= MAX_APPLY_RANGE && !store.poisoned
    ensures r.Some? ==>
      Gathered(machine.hash, store.identity, old(machine.View()), entries[..|r.value|], machine.View(), cells)
    ensures r.Some? ==> store.rows == Overlay(old(store.rows), cells)
    ensures r.Some? && |r.value| < |entries| && |r.value| < MAX_APPLY_RANGE ==>
              Overflows(size, machine.hash, store.identity, machine.View(), entries[|r.value|], cells)
    ensures r.Some? ==>
      Matches(machine.hash, store.identity, old(machine.View()), old(store.rows), entries[..|r.value|],
                                Progress(machine.View(), store.rows, r.value))
    ensures (entries != [] && engineOk && !old(store.poisoned)
             && Clean(size, machine.hash, store.identity, old(machine.View()), old(store.rows), entries)) ==> r.Some?
  {
    cells := map[];
    if entries == [] { return None, cells; }
    var tx := new Transaction(machine);
    var batch := new Batch(size);
    ghost var app, rows := machine.View(), store.rows;
    var staged := Stage(tx, batch, store.identity, entries, store.rows);
    if staged.None? {
      tx.Drop();
      return None, cells;
    }
    var (outcomes, term) := staged.value;
    cells := batch.cells;
    GroupIndices(machine.hash, store.identity, app, rows, entries, |outcomes|,
                 Progress(machine.View(), Overlay(rows, batch.cells), outcomes));
    var ok := store.Commit(entries[0].index, outcomes[|outcomes| - 1].0, term, batch.cells, engineOk);
    if !ok {
      tx.Drop();
      return None, cells;
    }
    tx.Commit();
    r := Some(outcomes);
  }

  /** A group starts right after the watermark and ends at its last answered index. */
  lemma GroupIndices(hash: Hash, identity: string, app: App, rows: Rows, entries: seq<Entry>, n: nat, p: Progress)
    requires 0 < n <= |entries| && Matches(hash, identity, app, rows, entries[..n], p)
    ensures entries[0].index == app.lastApplied + 1 && |p.outcomes| == n && p.outcomes[n - 1].0 == p.app.lastApplied
  {
    MatchesExact(hash, identity, app, rows, entries[..n], p);
    RunIndices(hash, identity, app, rows, entries, n);
  }

  lemma {:induction false} RunIndices(hash: Hash, identity: string, app: App, rows: Rows, entries: seq<Entry>, n: nat)
    requires 0 < n <= |entries| && OneByOne(hash, identity, app, rows, entries[..n]).Some?
    ensures var p := OneByOne(hash, identity, app, rows, entries[..n]).value;
      entries[0].index == app.lastApplied + 1 && |p.outcomes| == n && p.outcomes[n - 1].0 == p.app.lastApplied
  {
    OneByOneSnoc(hash, identity, app, rows, entries, n - 1);
    if n > 1 {
      RunIndices(hash, identity, app, rows, entries, n - 1);
    } else {
      assert entries[..0] == [];
    }
  }

  // ---------------------------------------------------------------- the driver's loop

  /** What remains of a clean run is clean from where it stands. */
  lemma CleanSuffix(size: Size, hash: Hash, identity: string, app: App, rows: Rows, entries: seq<Entry>, n: nat,
                    p: Progress)
    requires Clean(size, hash, identity, app, rows, entries) && n <= |entries|
      && OneByOne(hash, identity, app, rows, entries[..n]) == Some(p)
    ensures Clean(size, hash, identity, p.app, p.rows, entries[n..])
  {
    var tail := entries[n..];
    forall m: nat | m <= |tail| ensures CleanAt(size, hash, identity, p.app, p.rows, tail, m) {
      assert CleanAt(size, hash, identity, app, rows, entries, n + m);
      assert entries[..n + m][..n] == entries[..n] && entries[..n + m][n..] == tail[..m];
      OneByOneSplit(hash, identity, app, rows, entries[..n + m], n);
    }
  }

  lemma CleanPrefix(size: Size, hash: Hash, identity: string, app: App, rows: Rows, entries: seq<Entry>, n: nat)
    requires Clean(size, hash, identity, app, rows, entries) && n <= |entries|
    ensures Clean(size, hash, identity, app, rows, entries[..n])
  {
    var head := entries[..n];
    forall m: nat | m <= n ensures CleanAt(size, hash, identity, app, rows, head, m) {
      assert CleanAt(size, hash, identity, app, rows, entries, m);
      assert head[..m] == entries[..m];
    }
  }

  lemma CleanPart(size: Size, hash: Hash, identity: string, app: App, rows: Rows, entries: seq<Entry>, done: nat,
                  n: nat, p: Progress)
    requires Clean(size, hash, identity, app, rows, entries) && done + n <= |entries|
      && Matches(hash, identity, app, rows, entries[..done], p)
    ensures Clean(size, hash, identity, p.app, p.rows, entries[done..][..n])
  {
    MatchesExact(hash, identity, app, rows, entries[..done], p);
    CleanSuffix(size, hash, identity, app, rows, entries, done, p);
    CleanPrefix(size, hash, identity, p.app, p.rows, entries[done..], n);
  }

  /** After a group of `n` more, the run so far is the reference run of that many more entries. */
  lemma Resume(hash: Hash, identity: string, app: App, rows: Rows, entries: seq<Entry>, done: nat, n: nat, p: Progress,
               q: Progress)
    requires done + n <= |entries| && Matches(hash, identity, app, rows, entries[..done], p)
    requires Matches(hash, identity, p.app, p.rows, entries[done..][..n], q)
    ensures Matches(hash, identity, app, rows, entries[..done + n], q.(outcomes := p.outcomes + q.outcomes))
  {
    MatchesExact(hash, identity, app, rows, entries[..done], p);
    MatchesExact(hash, identity, p.app, p.rows, entries[done..][..n], q);
    MatchesExact(hash, identity, app, rows, entries[..done + n], q.(outcomes := p.outcomes + q.outcomes));
    var both := entries[..done + n];
    assert both[..done] == entries[..done] && both[done..] == entries[done..][..n];
    OneByOneSplit(hash, identity, app, rows, both, done);
  }

  lemma Gathering(entries: seq<Entry>, done: nat, k: nat)
    requires done + k <= |entries|
    ensures k == |entries| - done ==> entries[done..] == entries[done..][..k]
  {
  }

  /** Returning the untouched suffix to the front leaves the queue as if only `n` had been taken. */
  lemma PushingBack(entries: seq<Entry>, done: nat, k: nat, n: nat)
    requires n <= k && done + k <= |entries|
    ensures var queue := entries[done..]; var gathered := queue[..k];
      gathered[..n] == queue[..n] && gathered[n..] + queue[k..] == entries[done + n..]
  {
  }

  /** Grouping is invisible: draining a queue of committed entries through groups of at most 256, with
      unapplied suffixes pushed back, ends, and leaves exactly what one entry at a time would. */
  method Drain(machine: Machine, store: Store, size: Size, entries: seq<Entry>, engine: nat -> bool)
    returns (outcomes: seq<(LogIndex, Outcome)>, ok: bool)
    requires Sound(machine.hash, machine.View()) && store.index == machine.lastApplied
    modifies machine, store
    ensures |outcomes| <= |entries| && (ok ==> |outcomes| == |entries|)
    ensures Matches(machine.hash, store.identity, old(machine.View()), old(store.rows), entries[..|outcomes|],
                    Progress(machine.View(), store.rows, outcomes))
    ensures ((forall i :: engine(i)) && !old(store.poisoned)
             && Clean(size, machine.hash, store.identity, old(machine.View()), old(store.rows), entries)) ==> ok
  {
    ghost var app, rows := machine.View(), store.rows;
    ghost var clean := (forall i :: engine(i)) && !store.poisoned
      && Clean(size, machine.hash, store.identity, app, rows, entries);
    var queue, round := entries, 0;
    outcomes := [];
    NothingYet(machine.hash, store.identity, app, rows, entries);
    while queue != []
      invariant |outcomes| <= |entries| && queue == entries[|outcomes|..]
      invariant Sound(machine.hash, machine.View()) && store.index == machine.lastApplied && (clean ==> !store.poisoned)
      invariant Matches(machine.hash, store.identity, app, rows, entries[..|outcomes|],
                        Progress(machine.View(), store.rows, outcomes))
      decreases |queue|
    {
      var gathered := if |queue| <= MAX_APPLY_RANGE then queue else queue[..MAX_APPLY_RANGE];
      ghost var p := Progress(machine.View(), store.rows, outcomes);
      Gathering(entries, |outcomes|, |gathered|);
      if clean { CleanPart(size, machine.hash, store.identity, app, rows, entries, |outcomes|, |gathered|, p); }
      var applied, _ := Group(machine, store, size, gathered, engine(round));
      if applied.None? { return outcomes, false; }
      var n := |applied.value|;
      PushingBack(entries, |outcomes|, |gathered|, n);
      Resume(machine.hash, store.identity, app, rows, entries, |outcomes|, n, p,
             Progress(machine.View(), store.rows, applied.value));
      queue := gathered[n..] + queue[|gathered|..];
      outcomes, round := outcomes + applied.value, round + 1;
    }
    assert entries[..|outcomes|] == entries;
    return outcomes, true;
  }
}
