/** What travels between sender and receiver, and how a file is cut into chunks. */
module Packets {

  const MAX_PAYLOAD_LEN: int := 1444
  const WINDOW: int := 4096

  /** One more than the greatest unsigned 32-bit number. */
  const MODULUS: int := 0x1_0000_0000

  /** What the source writes as -1 in an unsigned 32-bit field. */
  const NONE: int := MODULUS - 1

  /** Subtraction of unsigned 32-bit numbers. */
  function Minus32(x: int, y: int): int {
    (x - y) % MODULUS
  }

  /** The unsigned 32-bit number after x. */
  function Succ32(x: int): int {
    if x == NONE then 0 else x + 1
  }

  newtype byte = x: int | 0 <= x < 256

  type File = seq<byte>

  /** `data` is the payload: the bytes of the data field that count. */
  datatype Packet = Packet(seqNum: int, ackNum: int, fin: bool, data: seq<byte>)

  datatype AckPacket = AckPacket(ackNum: int, fin: bool)

  function Min(a: int, b: int): int {
    if a <= b then a else b
  }

  function Max(a: int, b: int): int {
    if a <= b then b else a
  }

  /** The number of chunks in a file of n bytes. */
  function ChunkCount(n: int): (c: int)
    requires n >= 1
    ensures c >= 1 && (c - 1) * MAX_PAYLOAD_LEN < n <= c * MAX_PAYLOAD_LEN
  {
    (n + MAX_PAYLOAD_LEN - 1) / MAX_PAYLOAD_LEN
  }

  /** The first k chunks of the file. */
  ghost function Prefix(f: File, k: int): File
    requires k >= 0
  {
    f[..Min(k * MAX_PAYLOAD_LEN, |f|)]
  }

  /** The packet that carries chunk i. */
  ghost function Chunk(f: File, i: int): Packet
    requires |f| >= 1 && 0 <= i < ChunkCount(|f|)
  {
    Packet(i, 0, i + 1 == ChunkCount(|f|), f[i * MAX_PAYLOAD_LEN..Min((i + 1) * MAX_PAYLOAD_LEN, |f|)])
  }

  lemma PrefixGrows(f: File, i: int)
    requires |f| >= 1 && 0 <= i < ChunkCount(|f|)
    ensures Prefix(f, i) + Chunk(f, i).data == Prefix(f, i + 1)
  {
  }

  /** The payloads of the first n chunks, one after the other. */
  ghost function Payloads(f: File, n: int): File
    requires |f| >= 1 && 0 <= n <= ChunkCount(|f|)
  {
    if n == 0 then [] else Payloads(f, n - 1) + Chunk(f, n - 1).data
  }

  /** The chunks tile the file: nothing is missing, repeated or out of place. */
  lemma {:induction false} ChunksTileFile(f: File, n: int)
    requires |f| >= 1 && 0 <= n <= ChunkCount(|f|)
    ensures Payloads(f, n) == Prefix(f, n)
    ensures Prefix(f, ChunkCount(|f|)) == f
  {
    if n > 0 {
      ChunksTileFile(f, n - 1);
      PrefixGrows(f, n - 1);
    }
  }
}
