/** Reassembly of a chunked snapshot transfer into one file, under duplicates, restarts, stale
    leaders, cancellations and I/O failures. */
module SnapshotReceiver {
  import opened Types

  const CHUNK: nat := 65536
  const MIN_BYTES: nat := 48
  const MAX_BYTES: nat := 67108864

  datatype TransferId = TransferId(leader: NodeId, term: Term, incarnation: nat, sequence: nat)

  datatype Descriptor = Descriptor(index: LogIndex, term: Term, members: seq<NodeId>, totalLen: nat, sha256: Bytes)

  predicate DescriptorOk(d: Descriptor) {
    && 0 < d.index < U64_MAX && d.term > 0
    && 0 < |d.members| <= 256 && (forall i :: 0 < i < |d.members| ==> d.members[i - 1] < d.members[i])
    && MIN_BYTES <= d.totalLen <= MAX_BYTES
  }

  /** `hash` is SHA-256, `decode` the image parser: the descriptor an image's own content yields. */
  datatype Env = Env(hash: Bytes -> Bytes, decode: Bytes -> Option<Descriptor>)

  datatype Transfer = Transfer(id: TransferId, descriptor: Descriptor, nextOffset: nat, complete: Option<Bytes>)

  /** The one transfer slot: its bookkeeping, its file, and whether I/O has failed. */
  datatype State = State(active: Option<Transfer>, file: Bytes, poisoned: bool)

  /** Where the filesystem fails during a call, if at all. */
  datatype Fault = NoFault | OpenFails | SeekFails | WriteFails(written: nat) | ReadFails

  datatype Chunk = Chunk(
    id: TransferId,
    descriptor: Descriptor,
    offset: nat,
    bytes: Bytes,
    minimumIndex: LogIndex,
    members: seq<NodeId>,
    installed: Option<(Descriptor, Bytes)>,
    authorized: bool)

  datatype Reply = Staged(nextOffset: nat, complete: bool) | Rejected | IoError | Cancelled(hit: bool)

  datatype Outcome = Outcome(state: State, reply: Reply)

  // ---------------------------------------------------------------- specification

  function Min(a: nat, b: nat): nat { if a <= b then a else b }

  /** A canonical segment: aligned, and exactly as long as its position demands. */
  predicate Canonical(d: Descriptor, offset: nat, bytes: Bytes) {
    offset < d.totalLen && offset % CHUNK == 0 && |bytes| == Min(d.totalLen - offset, CHUNK)
  }

  predicate Admitted(c: Chunk) {
    && DescriptorOk(c.descriptor)
    && c.id.sequence != 0 && c.id.term >= c.descriptor.term
    && (c.authorized || c.id.leader in c.members) && c.descriptor.members == c.members
    && Canonical(c.descriptor, c.offset, c.bytes)
  }

  predicate HoldsAt(file: Bytes, offset: nat, bytes: Bytes) {
    offset + |bytes| <= |file| && file[offset..offset + |bytes|] == bytes
  }

  /** A transfer that may replace the active one. */
  predicate Supersedes(id: TransferId, d: Descriptor, t: Transfer) {
    && (id.term > t.id.term
        || (id.term == t.id.term && id.leader == t.id.leader && id.incarnation == t.id.incarnation
            && id.sequence > t.id.sequence))
    && d.index >= t.descriptor.index
  }

  function Stage(env: Env, s: State, c: Chunk, fault: Fault): Outcome {
    if s.poisoned then Outcome(s, IoError)
    else if !Admitted(c) then Outcome(s, Rejected)
    else if c.installed.Some? && c.installed.value.0 == c.descriptor then
      Outcome(s, if HoldsAt(c.installed.value.1, c.offset, c.bytes) then Staged(c.descriptor.totalLen, true)
              else Rejected)
    else if c.descriptor.index <= c.minimumIndex then Outcome(s, Rejected)
    else if s.active.Some? && s.active.value.id == c.id then
      if s.active.value.descriptor != c.descriptor then Outcome(s, Rejected)
        else Accept(env, s, s.active.value, c, fault)
    else if c.offset != 0 then Outcome(s, Rejected)
    else if s.active.Some? && !Supersedes(c.id, c.descriptor, s.active.value) then Outcome(s, Rejected)
    else if fault.OpenFails? then Outcome(s.(poisoned := true), IoError)
    else
      var t := Transfer(c.id, c.descriptor, 0, None);
      Accept(env, State(Some(t), [], false), t, c, fault)
  }

  /** A chunk of the active transfer: a duplicate is compared, the next one written. */
  function Accept(env: Env, s: State, t: Transfer, c: Chunk, fault: Fault): Outcome {
    if c.offset > t.nextOffset then Outcome(s, Rejected)
    else if fault.SeekFails? then Outcome(s.(poisoned := true), IoError)
    else if c.offset < t.nextOffset then
      if fault.ReadFails? || c.offset + |c.bytes| > |s.file| then Outcome(s.(poisoned := true), IoError)
      else if !HoldsAt(s.file, c.offset, c.bytes) then Outcome(s, Rejected)
      else Finish(env, s, t, fault)
    else if fault.WriteFails? then
      Outcome(s.(file := s.file + c.bytes[..Min(fault.written, |c.bytes|)], poisoned := true), IoError)
    else
      var next := t.(nextOffset := t.nextOffset + |c.bytes|);
      Finish(env, State(Some(next), s.file + c.bytes, false), next, fault)
  }

  /** The last chunk triggers validation of the whole file. */
  function Finish(env: Env, s: State, t: Transfer, fault: Fault): Outcome {
    if t.nextOffset != t.descriptor.totalLen || t.complete.Some? then Outcome(s, Staged(t.nextOffset, t.complete.Some?))
    else if fault.ReadFails? then Outcome(s.(poisoned := true), IoError)
    else if |s.file| != t.descriptor.totalLen || env.hash(s.file) != t.descriptor.sha256
            || env.decode(s.file) != Some(t.descriptor) then Outcome(s, Rejected)
    else Outcome(s.(active := Some(t.(complete := Some(s.file)))), Staged(t.nextOffset, true))
  }

  function Cancel(s: State, id: TransferId, syncOk: bool): Outcome {
    if s.poisoned then Outcome(s, IoError)
    else if s.active.None? || s.active.value.id != id then Outcome(s, Cancelled(false))
    else if !syncOk then Outcome(s.(file := [], poisoned := true), IoError)
    else Outcome(State(None, [], false), Cancelled(true))
  }

  // ---------------------------------------------------------------- the object

  class Receiver {
    const env: Env
    var active: Option<Transfer>
    var file: Bytes
    var poisoned: bool

    function View(): State
      reads this
    {
      State(active, file, poisoned)
    }

    /** Reassembly is sound: see `Sound`. */
    ghost predicate Valid()
      reads this
    {
      Sound(env, View())
    }

    constructor (env: Env)
      ensures Valid() && this.env == env && View() == State(None, [], false)
    {
      this.env, active, file, poisoned := env, None, [], false;
    }

    method StageChunk(c: Chunk, fault: Fault) returns (reply: Reply)
      requires Valid()
      modifies this
      ensures Valid() && Outcome(View(), reply) == Stage(env, old(View()), c, fault)
    {
      AfterSound(env, View(), ChunkArrives(c, fault));
      if poisoned { return IoError; }
      if !Admitted(c) { return Rejected; }
      if c.installed.Some? && c.installed.value.0 == c.descriptor {
        if !HoldsAt(c.installed.value.1, c.offset, c.bytes) { return Rejected; }
        return Staged(c.descriptor.totalLen, true);
      }
      if c.descriptor.index <= c.minimumIndex { return Rejected; }
      var same := active.Some? && active.value.id == c.id;
      if same && active.value.descriptor != c.descriptor { return Rejected; }
      if !same {
        if c.offset != 0 { return Rejected; }
        if active.Some? && !Supersedes(c.id, c.descriptor, active.value) { return Rejected; }
        if fault.OpenFails? {
          poisoned := true;
          return IoError;
        }
        active, file := Some(Transfer(c.id, c.descriptor, 0, None)), [];
      }
      if c.offset > active.value.nextOffset { return Rejected; }
      reply := Transact(c, fault);
      if reply.IoError? { poisoned := true; }
    }

    /** The file work of one chunk; the caller poisons the receiver on an I/O error. */
    method Transact(c: Chunk, fault: Fault) returns (reply: Reply)
      requires !poisoned && active.Some? && c.offset <= active.value.nextOffset
      modifies `active, `file
      ensures Outcome(if reply.IoError? then View().(poisoned := true) else View(), reply)
           == Accept(env, old(View()), old(active.value), c, fault)
    {
      if fault.SeekFails? { return IoError; }
      if c.offset < active.value.nextOffset {
        if fault.ReadFails? || c.offset + |c.bytes| > |file| { return IoError; }
        if file[c.offset..c.offset + |c.bytes|] != c.bytes { return Rejected; }
      } else {
        if fault.WriteFails? {
          file := file + c.bytes[..Min(fault.written, |c.bytes|)];
          return IoError;
        }
        file := file + c.bytes;
        active := Some(active.value.(nextOffset := active.value.nextOffset + |c.bytes|));
      }
      if active.value.nextOffset == active.value.descriptor.totalLen && active.value.complete.None? {
        if fault.ReadFails? { return IoError; }
        var whole := file;
        if |whole| != active.value.descriptor.totalLen || env.hash(whole) != active.value.descriptor.sha256 {
          return Rejected;
        }
        if env.decode(whole) != Some(active.value.descriptor) { return Rejected; }
        active := Some(active.value.(complete := Some(whole)));
      }
      return Staged(active.value.nextOffset, active.value.complete.Some?);
    }

    method CancelTransfer(id: TransferId, syncOk: bool) returns (reply: Reply)
      requires Valid()
      modifies this
      ensures Valid() && Outcome(View(), reply) == Cancel(old(View()), id, syncOk)
    {
      if poisoned { return IoError; }
      if active.None? || active.value.id != id { return Cancelled(false); }
      file := [];
      if !syncOk {
        poisoned := true;
        return IoError;
      }
      active := None;
      return Cancelled(true);
    }

    /** An image handed out for installation is the whole file of that transfer, with the length, digest and
        content its descriptor declares. */
    method Completed(id: TransferId) returns (image: Option<Bytes>)
      requires Valid()
      ensures image.Some? ==>
        && !poisoned && active.Some? && active.value.id == id && image.value == file
        && |file| == active.value.nextOffset
        && |image.value| == active.value.descriptor.totalLen && env.hash(image.value) == active.value.descriptor.sha256
        && env.decode(image.value) == Some(active.value.descriptor)
      ensures image.None? && !poisoned && active.Some? && active.value.id == id ==>
        Bad(env, active.value.descriptor, file)
    {
      if poisoned || active.None? || active.value.id != id { return None; }
      return active.value.complete;
    }
  }

  // ---------------------------------------------------------------- runs

  datatype Event = ChunkArrives(chunk: Chunk, fault: Fault) | CancelArrives(id: TransferId, syncOk: bool)

  function After(env: Env, s: State, e: Event): State {
    match e
    case ChunkArrives(c, fault) => Stage(env, s, c, fault).state
    case CancelArrives(id, syncOk) => Cancel(s, id, syncOk).state
  }

  /** The state after the first `n` events of a run. */
  function At(env: Env, events: seq<Event>, n: nat): State
    requires n <= |events|
  {
    if n == 0 then State(None, [], false) else After(env, At(env, events, n - 1), events[n - 1])
  }

  /** The file is not the image the descriptor declares. */
  predicate Bad(env: Env, d: Descriptor, file: Bytes) {
    |file| != d.totalLen || env.hash(file) != d.sha256 || env.decode(file) != Some(d)
  }

  /** While no I/O has failed: the file is exactly the accepted bytes, ends on a segment boundary, and the
      transfer is complete, with the whole file, exactly when the file has the declared length, digest and
      content. */
  ghost predicate Sound(env: Env, s: State) {
    !s.poisoned && s.active.Some? ==>
      var t := s.active.value;
      && DescriptorOk(t.descriptor)
      && |s.file| == t.nextOffset <= t.descriptor.totalLen
      && (t.nextOffset == t.descriptor.totalLen || t.nextOffset % CHUNK == 0)
      && t.complete == if Bad(env, t.descriptor, s.file) then None else Some(s.file)
  }

  lemma AcceptSound(env: Env, s: State, t: Transfer, c: Chunk, fault: Fault)
    requires Sound(env, s) && !s.poisoned && s.active == Some(t) && t.descriptor == c.descriptor
    requires Canonical(c.descriptor, c.offset, c.bytes)
    ensures Sound(env, Accept(env, s, t, c, fault).state)
  {
    if c.offset == t.nextOffset && |c.bytes| == CHUNK {
      assert (c.offset + CHUNK) % CHUNK == c.offset % CHUNK;
    }
  }

  lemma AfterSound(env: Env, s: State, e: Event)
    requires Sound(env, s)
    ensures Sound(env, After(env, s, e))
  {
    if e.ChunkArrives? {
      var c := e.chunk;
      if Admitted(c) && !s.poisoned {
        if s.active.Some? && s.active.value.id == c.id {
          if s.active.value.descriptor == c.descriptor { AcceptSound(env, s, s.active.value, c, e.fault); }
        } else {
          var t := Transfer(c.id, c.descriptor, 0, None);
          AcceptSound(env, State(Some(t), [], false), t, c, e.fault);
        }
      }
    }
  }

  /** Reassembly is sound in every state of every run. */
  lemma {:induction false} RunSound(env: Env, events: seq<Event>, n: nat)
    requires n <= |events|
    ensures Sound(env, At(env, events, n))
  {
    if n > 0 {
      RunSound(env, events, n - 1);
      AfterSound(env, At(env, events, n - 1), events[n - 1]);
    }
  }

  // ---------------------------------------------------------------- the file is the accepted chunks

  function Join(parts: seq<Bytes>): Bytes {
    if parts == [] then [] else Join(parts[..|parts| - 1]) + parts[|parts| - 1]
  }

  /** How far transfer `id` had come. */
  function Progress(s: State, id: TransferId): nat {
    if s.active.Some? && s.active.value.id == id then s.active.value.nextOffset else 0
  }

  /** The chunks that moved the active transfer forward: `parts` before the event, then after it. */
  function Extended(parts: seq<Bytes>, was: State, e: Event, now: State): seq<Bytes> {
    if now.poisoned || now.active.None? then []
    else
      var id := now.active.value.id;
      var kept := if was.active.Some? && was.active.value.id == id then parts else [];
      if e.ChunkArrives? && Progress(was, id) < now.active.value.nextOffset then kept + [e.chunk.bytes] else kept
  }

  /** The chunks that moved the active transfer forward, in order of arrival. */
  function Parts(env: Env, events: seq<Event>, n: nat): seq<Bytes>
    requires n <= |events|
  {
    if n == 0 then []
    else Extended(Parts(env, events, n - 1), At(env, events, n - 1), events[n - 1], At(env, events, n))
  }

  lemma {:induction false} JoinSnoc(parts: seq<Bytes>, part: Bytes)
    ensures Join(parts + [part]) == Join(parts) + part
  {
    assert (parts + [part])[..|parts|] == parts;
  }

  /** One event leaves the file alone, starts it afresh, or appends its own chunk to it. */
  lemma AfterAppends(env: Env, s: State, e: Event)
    requires Sound(env, s)
    ensures var now := After(env, s, e); !now.poisoned && now.active.Some? ==>
      var id := now.active.value.id;
      var kept := if s.active.Some? && s.active.value.id == id then s.file else [];
      && !s.poisoned
      && now.file == if e.ChunkArrives? && Progress(s, id) < now.active.value.nextOffset then kept + e.chunk.bytes
         else kept
  {
  }

  lemma {:induction false} ExtendedJoins(env: Env, parts: seq<Bytes>, s: State, e: Event)
    requires Sound(env, s) && (!s.poisoned && s.active.Some? ==> s.file == Join(parts))
    ensures var now := After(env, s, e); !now.poisoned && now.active.Some? ==>
      now.file == Join(Extended(parts, s, e, now))
  {
    AfterAppends(env, s, e);
    if e.ChunkArrives? {
      JoinSnoc(parts, e.chunk.bytes);
      JoinSnoc([], e.chunk.bytes);
    }
  }

  /** Reassembly: in every state of every run the file is the gap-free concatenation of the chunks that
      moved the active transfer forward. Duplicates and rejected chunks never alter it. */
  lemma {:induction false} FileIsParts(env: Env, events: seq<Event>, n: nat)
    requires n <= |events|
    ensures var s := At(env, events, n); !s.poisoned && s.active.Some? ==> s.file == Join(Parts(env, events, n))
  {
    if n > 0 {
      RunSound(env, events, n - 1);
      FileIsParts(env, events, n - 1);
      ExtendedJoins(env, Parts(env, events, n - 1), At(env, events, n - 1), events[n - 1]);
    }
  }

  // ---------------------------------------------------------------- duplicates

  /** A chunk of the active transfer that lies before its offset lies inside the file: both are whole segments. */
  lemma DuplicateInside(env: Env, s: State, c: Chunk)
    requires Sound(env, s) && !s.poisoned && s.active.Some? && s.active.value.descriptor == c.descriptor
    requires Canonical(c.descriptor, c.offset, c.bytes) && c.offset < s.active.value.nextOffset
    ensures c.offset + |c.bytes| <= |s.file|
  {
    var t := s.active.value;
    if t.nextOffset != c.descriptor.totalLen {
      var a, b := c.offset / CHUNK, t.nextOffset / CHUNK;
      assert c.offset == a * CHUNK && t.nextOffset == b * CHUNK;
      assert (a + 1) * CHUNK <= b * CHUNK;
    }
  }

  /** In every state of every run a duplicate is read back from inside the file: without a fault of the
      medium it is never an I/O error, and it leaves the file as it is. */
  lemma {:induction false} DuplicatesAreHarmless(env: Env, events: seq<Event>, n: nat, c: Chunk)
    requires n <= |events|
    requires var s := At(env, events, n);
      !s.poisoned && s.active.Some? && s.active.value.id == c.id && c.offset < s.active.value.nextOffset
    ensures var s := At(env, events, n); var o := Stage(env, s, c, NoFault);
      && !o.reply.IoError? && !o.state.poisoned && o.state.file == s.file
      && (Admitted(c) && s.active.value.descriptor == c.descriptor ==> c.offset + |c.bytes| <= |s.file|)
  {
    RunSound(env, events, n);
    var s := At(env, events, n);
    if Admitted(c) && s.active.value.descriptor == c.descriptor { DuplicateInside(env, s, c); }
  }

  // ---------------------------------------------------------------- the file is what the sender sent

  /** Every chunk carrying `id` is the segment of `image` at its offset, under one descriptor. */
  ghost predicate Honest(events: seq<Event>, id: TransferId, d: Descriptor, image: Bytes) {
    |image| == d.totalLen &&
    forall i :: 0 <= i < |events| && events[i].ChunkArrives? && events[i].chunk.id == id ==>
      events[i].chunk.descriptor == d && HoldsAt(image, events[i].chunk.offset, events[i].chunk.bytes)
  }

  ghost predicate Carries(s: State, id: TransferId, d: Descriptor, image: Bytes) {
    !s.poisoned && s.active.Some? && s.active.value.id == id ==>
      s.active.value.descriptor == d && s.file <= image
  }

  lemma AcceptCarries(env: Env, s: State, t: Transfer, c: Chunk, fault: Fault, image: Bytes)
    requires Sound(env, s) && !s.poisoned && s.active == Some(t) && t.id == c.id && t.descriptor == c.descriptor
      && s.file <= image
    requires Canonical(c.descriptor, c.offset, c.bytes) && HoldsAt(image, c.offset, c.bytes)
    ensures Carries(Accept(env, s, t, c, fault).state, c.id, c.descriptor, image)
  {
    if c.offset == t.nextOffset {
      assert image[..c.offset] == s.file;
      assert image[..c.offset + |c.bytes|] == image[..c.offset] + image[c.offset..c.offset + |c.bytes|];
      assert s.file + c.bytes <= image;
    }
  }

  lemma AfterCarries(env: Env, s: State, e: Event, id: TransferId, d: Descriptor, image: Bytes)
    requires Sound(env, s) && Carries(s, id, d, image)
    requires e.ChunkArrives? && e.chunk.id == id ==>
      e.chunk.descriptor == d && HoldsAt(image, e.chunk.offset, e.chunk.bytes)
    ensures Carries(After(env, s, e), id, d, image)
  {
    if e.ChunkArrives? && Admitted(e.chunk) && !s.poisoned && e.chunk.id == id {
      var c := e.chunk;
      if s.active.Some? && s.active.value.id == c.id {
        AcceptCarries(env, s, s.active.value, c, e.fault, image);
      } else {
        var t := Transfer(c.id, c.descriptor, 0, None);
        AcceptCarries(env, State(Some(t), [], false), t, c, e.fault, image);
      }
    }
  }

  /** Whatever else arrives, an honest transfer's file is a prefix of its image, and once complete it is
      the image. */
  lemma {:induction false} HonestTransfer(env: Env, events: seq<Event>, n: nat, id: TransferId, d: Descriptor,
                                          image: Bytes)
    requires n <= |events| && Honest(events, id, d, image)
    ensures Carries(At(env, events, n), id, d, image)
    ensures var s := At(env, events, n);
      !s.poisoned && s.active.Some? && s.active.value.id == id && s.active.value.complete.Some? ==>
        s.active.value.complete == Some(image)
  {
    RunSound(env, events, n);
    if n > 0 {
      HonestTransfer(env, events, n - 1, id, d, image);
      RunSound(env, events, n - 1);
      AfterCarries(env, At(env, events, n - 1), events[n - 1], id, d, image);
    }
    WholeImage(env, At(env, events, n), id, d, image);
  }

  lemma WholeImage(env: Env, s: State, id: TransferId, d: Descriptor, image: Bytes)
    requires Sound(env, s) && Carries(s, id, d, image) && |image| == d.totalLen
    ensures !s.poisoned && s.active.Some? && s.active.value.id == id && s.active.value.complete.Some? ==>
              s.active.value.complete == Some(image)
  {
    assert |s.file| == |image| && s.file <= image ==> s.file == image;
  }

  /** Progress: the next honest segment of the active transfer advances it, and the last one completes
      it when the image is what its descriptor says. */
  lemma NextSegmentAdvances(env: Env, s: State, c: Chunk, image: Bytes)
    requires Sound(env, s) && !s.poisoned && Admitted(c) && s.active.Some?
    requires s.active.value.id == c.id && s.active.value.descriptor == c.descriptor && s.active.value.complete.None?
    requires (c.installed.Some? ==> c.installed.value.0 != c.descriptor) && c.descriptor.index > c.minimumIndex
    requires c.offset == s.active.value.nextOffset && |image| == c.descriptor.totalLen && s.file <= image
      && HoldsAt(image, c.offset, c.bytes)
    requires env.hash(image) == c.descriptor.sha256 && env.decode(image) == Some(c.descriptor)
    ensures var o := Stage(env, s, c, NoFault); var end := c.offset + |c.bytes|;
      o.reply == Staged(end, end == c.descriptor.totalLen)
      && (end == c.descriptor.totalLen ==> o.state.active.Some? && o.state.active.value.complete == Some(image))
  {
    AcceptCarries(env, s, s.active.value, c, NoFault, image);
    assert s.file + c.bytes <= image by {
      assert image[..c.offset + |c.bytes|] == image[..c.offset] + image[c.offset..c.offset + |c.bytes|];
    }
    if c.offset + |c.bytes| == c.descriptor.totalLen { assert s.file + c.bytes == image; }
  }

  // ---------------------------------------------------------------- a whole transfer

  /** The segment of `image` at an offset, carried like `c`. */
  function Segment(c: Chunk, image: Bytes, offset: nat): Chunk
    requires offset <= |image|
  {
    c.(offset := offset, bytes := image[offset..Min(offset + CHUNK, |image|)])
  }

  /** A sender whose segments are admissible: `c` is any of them. */
  predicate Sendable(env: Env, c: Chunk, image: Bytes) {
    && DescriptorOk(c.descriptor) && c.id.sequence != 0 && c.id.term >= c.descriptor.term
    && (c.authorized || c.id.leader in c.members) && c.descriptor.members == c.members
    && (c.installed.Some? ==> c.installed.value.0 != c.descriptor) && c.descriptor.index > c.minimumIndex
    && |image| == c.descriptor.totalLen && env.hash(image) == c.descriptor.sha256
    && env.decode(image) == Some(c.descriptor)
  }

  /** The transfer has come as far as `offset`, and all it holds is the image's beginning. */
  predicate CarriedTo(s: State, c: Chunk, image: Bytes, offset: nat) {
    && !s.poisoned && s.active.Some? && s.active.value.id == c.id && s.active.value.descriptor == c.descriptor
    && s.active.value.nextOffset == offset <= |image| && s.file == image[..offset]
    && s.active.value.complete == if offset == |image| then Some(image) else None
  }

  /** A transfer of a newer term, or a later one of the same sender and term; of no older snapshot. */
  predicate NewerThan(c: Chunk, t: Transfer) {
    && c.descriptor.index >= t.descriptor.index && c.id.term >= t.id.term
    && (c.id.term == t.id.term ==> c.id == t.id.(sequence := c.id.sequence) && c.id.sequence > t.id.sequence)
  }

  /** The slot is free for this transfer. */
  predicate FreeFor(s: State, c: Chunk) {
    !s.poisoned && (s.active.Some? ==> NewerThan(c, s.active.value))
  }

  /** A chunk's position and length are those of a segment of its image. */
  predicate IsSegment(c: Chunk) {
    && c.offset < c.descriptor.totalLen && c.offset % 65536 == 0
    && |c.bytes| == if c.descriptor.totalLen - c.offset < 65536 then c.descriptor.totalLen - c.offset else 65536
  }

  /** Nothing else is ever taken: a chunk that changes the state or is acknowledged is a segment of a valid
      descriptor for this group from a current member or an authorized sender, newer than what is installed
      (or a part of it), and belongs to the active transfer or begins one the slot is free for. */
  lemma OnlySegmentsTaken(env: Env, s: State, c: Chunk, fault: Fault)
    requires !s.poisoned && (Stage(env, s, c, fault).state != s || Stage(env, s, c, fault).reply.Staged?)
    ensures DescriptorOk(c.descriptor) && IsSegment(c) && c.descriptor.members == c.members
    ensures c.authorized || c.id.leader in c.members
    ensures (c.installed.Some? && c.installed.value.0 == c.descriptor) || c.descriptor.index > c.minimumIndex
    ensures c.installed.Some? && c.installed.value.0 == c.descriptor ==> Stage(env, s, c, fault).state == s
    ensures !(c.installed.Some? && c.installed.value.0 == c.descriptor) ==>
      if s.active.Some? && s.active.value.id == c.id
      then s.active.value.descriptor == c.descriptor && c.offset <= s.active.value.nextOffset
      else c.offset == 0 && FreeFor(s, c)
  {
  }

  lemma NextCarried(env: Env, s: State, t: Transfer, c: Chunk, image: Bytes, offset: nat)
    requires Sendable(env, c, image) && offset < |image| && offset % CHUNK == 0
    requires s == State(Some(t), image[..offset], false) && t == Transfer(c.id, c.descriptor, offset, None)
    ensures CarriedTo(Accept(env, s, t, Segment(c, image, offset), NoFault).state, c, image,
                      Min(offset + CHUNK, |image|))
  {
    var end := Min(offset + CHUNK, |image|);
    assert image[..offset] + image[offset..end] == image[..end];
    assert end == |image| ==> image[..end] == image;
  }

  /** A transfer that may begin does begin, and the next segment of one under way is taken. */
  lemma SegmentTaken(env: Env, s: State, c: Chunk, image: Bytes, offset: nat)
    requires Sendable(env, c, image) && offset < |image| && offset % CHUNK == 0
    requires if offset == 0 then FreeFor(s, c) else CarriedTo(s, c, image, offset)
    ensures CarriedTo(Stage(env, s, Segment(c, image, offset), NoFault).state, c, image, Min(offset + CHUNK, |image|))
  {
    var t := Transfer(c.id, c.descriptor, offset, None);
    NextCarried(env, State(Some(t), image[..offset], false), t, c, image, offset);
    assert image[..0] == [];
  }

  /** The state after all segments from `offset` on. */
  function Fed(env: Env, s: State, c: Chunk, image: Bytes, offset: nat): State
    requires offset <= |image|
    decreases |image| - offset
  {
    if offset == |image| then s
    else Fed(env, Stage(env, s, Segment(c, image, offset), NoFault).state, c, image, Min(offset + CHUNK, |image|))
  }

  /** A whole transfer completes: whatever the slot held before, if it is free for the transfer and its segments
      arrive in order, the receiver ends up with the image. */
  lemma {:induction false} TransferCompletes(env: Env, s: State, c: Chunk, image: Bytes, offset: nat)
    requires Sendable(env, c, image) && offset <= |image| && (offset == |image| || offset % CHUNK == 0)
    requires if offset == 0 then FreeFor(s, c) else CarriedTo(s, c, image, offset)
    ensures var end := Fed(env, s, c, image, offset);
      && !end.poisoned && end.active.Some? && end.active.value.id == c.id && end.active.value.complete == Some(image)
    decreases |image| - offset
  {
    if offset < |image| {
      SegmentTaken(env, s, c, image, offset);
      TransferCompletes(env, Stage(env, s, Segment(c, image, offset), NoFault).state, c, image,
                        Min(offset + CHUNK, |image|));
    }
  }

  /** Cancelling the active transfer frees the slot for every transfer; cancelling another changes nothing. */
  lemma CancelFrees(s: State, id: TransferId, c: Chunk)
    requires !s.poisoned
    ensures var o := Cancel(s, id, true);
      if s.active.Some? && s.active.value.id == id then o.reply == Cancelled(true) && FreeFor(o.state, c)
      else o == Outcome(s, Cancelled(false))
  {
  }

  /** A segment of what is installed already is acknowledged as complete exactly when it matches; nothing changes. */
  lemma InstalledAnswered(env: Env, s: State, c: Chunk, fault: Fault)
    requires !s.poisoned && Admitted(c) && c.installed.Some? && c.installed.value.0 == c.descriptor
    ensures var o := Stage(env, s, c, fault); var (_, image) := c.installed.value; var end := c.offset + |c.bytes|;
      && o.state == s
      && o.reply == if end <= |image| && image[c.offset..end] == c.bytes then Staged(c.descriptor.totalLen, true)
         else Rejected
  {
  }

  // ---------------------------------------------------------------- transfers that fail

  /** A full file that failed validation, or a receiver that stopped before it passed. */
  ghost predicate Failed(env: Env, s: State, id: TransferId) {
    && s.active.Some? && s.active.value.id == id && s.active.value.complete.None?
    && (s.poisoned
        || (s.active.value.nextOffset == s.active.value.descriptor.totalLen
            && Bad(env, s.active.value.descriptor, s.file)))
  }

  lemma AfterFailed(env: Env, s: State, e: Event, id: TransferId)
    requires Sound(env, s) && Failed(env, s, id)
    ensures var now := After(env, s, e); now.active.Some? && now.active.value.id == id ==> Failed(env, now, id)
  {
  }

  /** A transfer whose full file fails validation never completes, whatever arrives, until another transfer
      replaces it or it is cancelled. */
  lemma {:induction false} BadImageNeverCompletes(env: Env, events: seq<Event>, i: nat, j: nat, id: TransferId)
    requires i <= j <= |events| && Failed(env, At(env, events, i), id)
    requires forall k :: i < k <= j ==> At(env, events, k).active.Some? && At(env, events, k).active.value.id == id
    ensures Failed(env, At(env, events, j), id)
    decreases j
  {
    if i < j {
      BadImageNeverCompletes(env, events, i, j - 1, id);
      RunSound(env, events, j - 1);
      AfterFailed(env, At(env, events, j - 1), events[j - 1], id);
    }
  }

  // ---------------------------------------------------------------- never backwards

  ghost predicate NoOlder(a: State, b: State) {
    a.active.Some? ==>
      && b.active.Some? && a.active.value.id.term <= b.active.value.id.term
      && a.active.value.descriptor.index <= b.active.value.descriptor.index
  }

  lemma ChunkNoOlder(env: Env, s: State, c: Chunk, fault: Fault)
    ensures NoOlder(s, Stage(env, s, c, fault).state)
  {
  }

  /** Between cancellations the active transfer's term and boundary index never go back. */
  lemma {:induction false} NeverBackwards(env: Env, events: seq<Event>, i: nat, j: nat)
    requires i <= j <= |events| && forall k :: i <= k < j ==> events[k].ChunkArrives?
    ensures NoOlder(At(env, events, i), At(env, events, j))
    decreases j
  {
    if i < j {
      NeverBackwards(env, events, i, j - 1);
      assert events[j - 1].ChunkArrives?;
      ChunkNoOlder(env, At(env, events, j - 1), events[j - 1].chunk, events[j - 1].fault);
    }
  }
}
