/**
 Bytes, messages, and what is assumed of the CBOR decoder: an item's own bytes decide where
 it ends, so an answer other than "more bytes needed" does not depend on what follows.
 */
module Wire {
  import opened Wrappers

  type byte = x: int | 0 <= x < 256

  const BLOCK_FETCH := 3
  const START_BATCH := 2
  const BLOCK := 4
  const BATCH_DONE := 5

  /** A decoded message: its protocol, its subprotocol and the bytes it was decoded from. */
  datatype Message = Message(protocol: nat, sub: nat, bytes: seq<byte>) {
    predicate IsStartBatch() { protocol == BLOCK_FETCH && sub == START_BATCH }
    predicate IsBatchDone() { protocol == BLOCK_FETCH && sub == BATCH_DONE }
  }

  /** The message types the reader knows. */
  predicate Known(protocol: nat, sub: nat) {
    match protocol
    case 0 => sub < 4
    case 2 => sub < 8
    case 3 => sub < 6
    case 7 => sub < 12
    case 8 => sub < 2
    case _ => false
  }

  /** The message types a segment may carry out; the local state messages are not among them. */
  predicate Writable(m: Message) {
    Known(m.protocol, m.sub) && m.protocol != 7
  }

  /** The decoding table, type by type: handshake, chain sync, block fetch, local state, keep alive. */
  const MESSAGE_TYPES: set<(nat, nat)> := {
    (0, 0), (0, 1), (0, 2), (0, 3),
    (2, 0), (2, 1), (2, 2), (2, 3), (2, 4), (2, 5), (2, 6), (2, 7),
    (3, 0), (3, 1), (3, 2), (3, 3), (3, 4), (3, 5),
    (7, 0), (7, 1), (7, 2), (7, 3), (7, 4), (7, 5), (7, 6), (7, 7), (7, 8), (7, 9), (7, 10), (7, 11),
    (8, 0), (8, 1)}

  /** The types that a segment takes for writing. */
  const WRITABLE_TYPES: set<(nat, nat)> := {
    (0, 0), (0, 1), (0, 2), (0, 3),
    (2, 0), (2, 1), (2, 2), (2, 3), (2, 4), (2, 5), (2, 6), (2, 7),
    (3, 0), (3, 1), (3, 2), (3, 3), (3, 4), (3, 5),
    (8, 0), (8, 1)}

  lemma KnownTypes(protocol: nat, sub: nat)
    ensures Known(protocol, sub) <==> (protocol, sub) in MESSAGE_TYPES
  {
  }

  lemma WritableTypes(m: Message)
    ensures Writable(m) <==> (m.protocol, m.sub) in WRITABLE_TYPES
  {
  }

  /** Which messages open and end a batch. */
  lemma BatchTypes(m: Message)
    ensures m.IsStartBatch() <==> (m.protocol, m.sub) == (3, 2)
    ensures m.IsBatchDone() <==> (m.protocol, m.sub) == (3, 5)
  {
  }

  /** The first item of a byte string; `head` is its leading unsigned integer, if it is an array with one. */
  datatype Item = Whole(head: Option<nat>, size: nat) | Partial | Bad

  /** The decoder: of any item, of a message body for a known type, and of a block message. */
  datatype Codec = Codec(item: seq<byte> -> Item, accepts: Message -> bool, block: seq<byte> -> Item)

  /** Bytes behind a decided item change nothing. */
  predicate StableAt(decode: seq<byte> -> Item, d: seq<byte>, e: seq<byte>) {
    !decode(d).Partial? ==> decode(d + e) == decode(d)
  }

  /** A whole item is decoded from its own bytes alone. */
  predicate AloneAt(decode: seq<byte> -> Item, d: seq<byte>) {
    decode(d).Whole? && decode(d).size <= |d| ==> decode(d[..decode(d).size]) == decode(d)
  }

  ghost predicate SelfDelimiting(decode: seq<byte> -> Item) {
    && (forall d :: decode(d).Whole? ==> 1 <= decode(d).size <= |d|)
    && (forall d :: AloneAt(decode, d))
    && (forall d, e :: StableAt(decode, d, e))
  }

  ghost predicate Sound(c: Codec) {
    SelfDelimiting(c.item) && SelfDelimiting(c.block)
  }

  predicate StartsWith(d: seq<byte>, b0: byte, b1: byte) {
    |d| >= 2 && d[0] == b0 && d[1] == b1
  }

  /** Two bytes as a big-endian number. */
  function Be16(high: byte, low: byte): nat {
    (high as int) * 256 + low as int
  }

  /** The low 16 bits of a number as two bytes. */
  function U16(n: nat): seq<byte> {
    [n / 256 % 256, n % 256]
  }

  function BigEndian(n: nat, width: nat): seq<byte> {
    if width == 0 then [] else BigEndian(n / 256, width - 1) + [n % 256]
  }

  lemma {:induction false} BigEndianWidth(n: nat, width: nat)
    ensures |BigEndian(n, width)| == width
  {
    if width > 0 { BigEndianWidth(n / 256, width - 1); }
  }
}
