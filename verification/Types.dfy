/** Vocabulary shared by the consensus core, its driver and the application:
    identifiers, UTF-8 text, client commands and log entries. */
module Types {
  type NodeId = nat
  type Term = nat
  type LogIndex = nat

  const U64_MAX: nat := 0xFFFF_FFFF_FFFF_FFFF

  datatype Option<+T> = None | Some(value: T)

  newtype Byte = x: int | 0 <= x < 256
  type Bytes = seq<Byte>

  /** A continuation byte of a multi-byte UTF-8 sequence. */
  predicate Continuation(b: Byte) {
    0x80 <= b <= 0xBF
  }

  /** How many bytes the well-formed character at the front of `s` takes; zero when there is none. */
  function Utf8Width(s: Bytes): (n: nat)
    ensures n <= |s|
  {
    if |s| == 0 then 0
    else if s[0] <= 0x7F then 1
    else if 0xC2 <= s[0] <= 0xDF && |s| >= 2 && Continuation(s[1]) then 2
    else if 0xE0 <= s[0] <= 0xEF && |s| >= 3 && Continuation(s[1]) && Continuation(s[2])
            && (s[0] == 0xE0 ==> 0xA0 <= s[1]) && (s[0] == 0xED ==> s[1] <= 0x9F) then 3
    else if 0xF0 <= s[0] <= 0xF4 && |s| >= 4 && Continuation(s[1]) && Continuation(s[2]) && Continuation(s[3])
            && (s[0] == 0xF0 ==> 0x90 <= s[1]) && (s[0] == 0xF4 ==> s[1] <= 0x8F) then 4
    else 0
  }

  predicate ValidUtf8(s: Bytes)
    decreases |s|
  {
    s == [] || (Utf8Width(s) > 0 && ValidUtf8(s[Utf8Width(s)..]))
  }

  /** A string as its bytes; lengths are byte lengths, as in the source. */
  type Text = Bytes

  datatype Command =
    | Put(key: Text, value: Text)
    | Delete(key: Text)
    | NoOp
    | Configuration(change: nat)
    | RegisterSession(nonce: Text)
    | CloseSession(sessionId: LogIndex)
    | SessionPut(sessionId: LogIndex, key: Text, sequence: nat, value: Text)
    | SessionDelete(sessionId: LogIndex, key: Text, sequence: nat)

  /** The strings of a command are UTF-8, as the source's string type guarantees. */
  predicate WellTyped(command: Command) {
    match command
    case Put(key, value) => ValidUtf8(key) && ValidUtf8(value)
    case Delete(key) => ValidUtf8(key)
    case RegisterSession(nonce) => ValidUtf8(nonce)
    case SessionPut(_, key, _, value) => ValidUtf8(key) && ValidUtf8(value)
    case SessionDelete(_, key, _) => ValidUtf8(key)
    case _ => true
  }

  datatype Entry = Entry(index: LogIndex, term: Term, command: Command)
}
