/** The canonical encoding of a session mutation, retained to recognise exact retries. */
module Payload {
  import opened Types

  const MAX_KEY_BYTES: nat := 1024
  const MAX_VALUE_BYTES: nat := 65536

  /** `micro-raft/session-payload/v1` */
  const PREFIX: Bytes := [109, 105, 99, 114, 111, 45, 114, 97, 102, 116, 47, 115, 101, 115, 115, 105, 111, 110, 45,
                          112, 97, 121, 108, 111, 97, 100, 47, 118, 49]

  // ---------------------------------------------------------------- big-endian lengths

  function Pow256(width: nat): nat {
    if width == 0 then 1 else 256 * Pow256(width - 1)
  }

  function ToBe(n: nat, width: nat): (r: Bytes)
    ensures |r| == width
  {
    if width == 0 then [] else ToBe(n / 256, width - 1) + [(n % 256) as Byte]
  }

  function FromBe(b: Bytes): nat {
    if b == [] then 0 else 256 * FromBe(b[..|b| - 1]) + b[|b| - 1] as nat
  }

  lemma {:induction false} BeRoundTrip(n: nat, width: nat)
    requires n < Pow256(width)
    ensures FromBe(ToBe(n, width)) == n
  {
    if width > 0 {
      BeRoundTrip(n / 256, width - 1);
      assert ToBe(n, width)[..width - 1] == ToBe(n / 256, width - 1);
    }
  }

  lemma {:induction false} BeCanonical(b: Bytes)
    ensures ToBe(FromBe(b), |b|) == b
  {
    if b != [] {
      BeCanonical(b[..|b| - 1]);
      assert FromBe(b) / 256 == FromBe(b[..|b| - 1]);
      assert b == b[..|b| - 1] + [b[|b| - 1]];
    }
  }

  lemma EightBytesSuffice(n: nat)
    requires n <= 65536
    ensures n < Pow256(8)
  {
    assert Pow256(3) == 0x100_0000;
    assert Pow256(4) >= Pow256(3) && Pow256(6) >= Pow256(4) && Pow256(8) >= Pow256(6);
  }

  // ---------------------------------------------------------------- encoding

  function Frame(bytes: Bytes): Bytes {
    ToBe(|bytes|, 8) + bytes
  }

  function Tag(value: Option<Text>): Byte {
    if value.Some? then 1 else 0
  }

  function Tail(value: Option<Text>): Bytes {
    if value.Some? then Frame(value.value) else []
  }

  function CanonicalPayload(key: Text, value: Option<Text>): Bytes {
    PREFIX + ([Tag(value)] + (Frame(key) + Tail(value)))
  }

  /** A mutation the codec carries: within the byte limits, with a textual value. */
  predicate Bounded(key: Text, value: Option<Text>) {
    |key| <= MAX_KEY_BYTES && (value.Some? ==> |value.value| <= MAX_VALUE_BYTES && ValidUtf8(value.value))
  }

  // ---------------------------------------------------------------- decoding

  /** A length-prefixed field of at most `maximum` bytes, and what follows it. */
  function TakeField(tail: Bytes, maximum: nat): Option<(Bytes, Bytes)> {
    if |tail| < 8 then None
    else
      var length, rest := FromBe(tail[..8]), tail[8..];
      if length > maximum || |rest| < length then None else Some((rest[..length], rest[length..]))
  }

  lemma FrameTaken(bytes: Bytes, rest: Bytes, maximum: nat)
    requires |bytes| <= maximum <= 65536
    ensures TakeField(Frame(bytes) + rest, maximum) == Some((bytes, rest))
  {
    EightBytesSuffice(|bytes|);
    BeRoundTrip(|bytes|, 8);
    HeaderTaken(ToBe(|bytes|, 8), bytes, rest, maximum);
  }

  lemma {:induction false} HeaderTaken(header: Bytes, bytes: Bytes, rest: Bytes, maximum: nat)
    requires |header| == 8 && FromBe(header) == |bytes| <= maximum
    ensures TakeField(header + bytes + rest, maximum) == Some((bytes, rest))
  {
    var tail := header + bytes + rest;
    assert tail[..8] == header;
    assert tail[8..] == bytes + rest;
  }

  lemma TakenFrame(tail: Bytes, maximum: nat, bytes: Bytes, rest: Bytes)
    requires TakeField(tail, maximum) == Some((bytes, rest))
    ensures tail == Frame(bytes) + rest && |bytes| <= maximum
  {
    BeCanonical(tail[..8]);
    assert tail == tail[..8] + tail[8..];
  }

  /** The value a payload records for `key`; the outer `None` is a malformed payload. */
  function DecodePayload(key: Text, payload: Bytes): Option<Option<Text>> {
    if !(PREFIX <= payload) || |payload| == |PREFIX| then None
    else DecodeBody(key, payload[|PREFIX|..])
  }

  function DecodeBody(key: Text, body: Bytes): Option<Option<Text>>
    requires body != []
  {
    match TakeField(body[1..], MAX_KEY_BYTES)
    case None => None
    case Some((k, tail)) =>
      if k != key then None
      else if body[0] == 0 then (if tail == [] then Some(None) else None)
      else if body[0] == 1 then DecodeValue(tail)
      else None
  }

  function DecodeValue(tail: Bytes): Option<Option<Text>> {
    match TakeField(tail, MAX_VALUE_BYTES)
    case None => None
    case Some((v, rest)) => if ValidUtf8(v) && rest == [] then Some(Some(v)) else None
  }

  lemma ValueExact(tail: Bytes, value: Option<Text>)
    ensures DecodeValue(tail) == Some(value) <==>
            value.Some? && |value.value| <= MAX_VALUE_BYTES && ValidUtf8(value.value) && tail == Frame(value.value)
  {
    if DecodeValue(tail) == Some(value) {
      TakenFrame(tail, MAX_VALUE_BYTES, value.value, []);
      assert tail == Frame(value.value) + [];
    }
    if value.Some? && |value.value| <= MAX_VALUE_BYTES && ValidUtf8(value.value) && tail == Frame(value.value) {
      FrameTaken(value.value, [], MAX_VALUE_BYTES);
      assert tail == Frame(value.value) + [];
    }
  }

  /** What remains after the key is the value's tail. */
  lemma DecodedTail(key: Text, body: Bytes, value: Option<Text>) returns (tail: Bytes)
    requires body != [] && DecodeBody(key, body) == Some(value)
    ensures TakeField(body[1..], MAX_KEY_BYTES) == Some((key, tail))
    ensures tail == Tail(value) && body[0] == Tag(value) && Bounded([], value)
  {
    tail := TakeField(body[1..], MAX_KEY_BYTES).value.1;
    ValueExact(tail, value);
  }

  lemma BodyDecoded(key: Text, body: Bytes, value: Option<Text>)
    requires body != [] && DecodeBody(key, body) == Some(value)
    ensures Bounded(key, value) && body == [Tag(value)] + (Frame(key) + Tail(value))
  {
    var tail := DecodedTail(key, body, value);
    TakenFrame(body[1..], MAX_KEY_BYTES, key, tail);
    assert body == [body[0]] + body[1..];
  }

  lemma BodyEncoded(key: Text, value: Option<Text>)
    requires Bounded(key, value)
    ensures DecodeBody(key, [Tag(value)] + (Frame(key) + Tail(value))) == Some(value)
  {
    var body := [Tag(value)] + (Frame(key) + Tail(value));
    assert body[1..] == Frame(key) + Tail(value);
    FrameTaken(key, Tail(value), MAX_KEY_BYTES);
    ValueExact(Tail(value), value);
  }

  /** Decoding inverts encoding on bounded mutations and accepts nothing but canonical encodings, so
      the re-encoding comparison that follows a decode can never fail. */
  lemma PayloadExact(key: Text, payload: Bytes, value: Option<Text>)
    ensures DecodePayload(key, payload) == Some(value) <==>
            Bounded(key, value) && payload == CanonicalPayload(key, value)
  {
    if DecodePayload(key, payload) == Some(value) {
      BodyDecoded(key, payload[|PREFIX|..], value);
      assert payload == PREFIX + payload[|PREFIX|..];
    }
    if Bounded(key, value) && payload == CanonicalPayload(key, value) {
      BodyEncoded(key, value);
      assert payload[|PREFIX|..] == [Tag(value)] + (Frame(key) + Tail(value));
    }
  }

  /** Different mutations of bounded size never share a payload. */
  lemma PayloadInjective(key: Text, value: Option<Text>, key': Text, value': Option<Text>)
    requires Bounded(key, value) && Bounded(key', value')
      && CanonicalPayload(key, value) == CanonicalPayload(key', value')
    ensures key == key' && value == value'
  {
    KeyOfPayload(key, value);
    KeyOfPayload(key', value');
    PayloadExact(key, CanonicalPayload(key, value), value);
    PayloadExact(key, CanonicalPayload(key, value), value');
  }

  lemma KeyOfPayload(key: Text, value: Option<Text>)
    requires Bounded(key, value)
    ensures var payload := CanonicalPayload(key, value);
      |payload| > |PREFIX| && TakeField(payload[|PREFIX| + 1..], MAX_KEY_BYTES) == Some((key, Tail(value)))
  {
    assert CanonicalPayload(key, value)[|PREFIX| + 1..] == Frame(key) + Tail(value);
    FrameTaken(key, Tail(value), MAX_KEY_BYTES);
  }
}
