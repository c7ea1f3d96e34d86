/** Bytes, error results and the big-endian integers used by every wire format of the proxy. */
module Bytes {

  newtype byte = x: int | 0 <= x < 256

  type Bytes = seq<byte>

  datatype Option<+T> = None | Some(value: T)

  datatype Result<+T, +E> = Ok(value: T) | Err(error: E)

  /** `binary.BigEndian.PutUint16`: the byte of weight 256 first. */
  function PutUint16(n: nat): (b: Bytes)
    requires n < 0x1_0000
    ensures |b| == 2 && Uint16(b) == n
  {
    [(n / 256) as byte, (n % 256) as byte]
  }

  /** `binary.BigEndian.Uint16`. */
  function Uint16(b: Bytes): (n: nat)
    requires |b| == 2
    ensures n < 0x1_0000
  {
    b[0] as nat * 256 + b[1] as nat
  }

  /** `binary.BigEndian.PutUint32`. */
  function PutUint32(n: nat): (b: Bytes)
    requires n < 0x1_0000_0000
    ensures |b| == 4 && Uint32(b) == n
  {
    PutUint16(n / 0x1_0000) + PutUint16(n % 0x1_0000)
  }

  /** `binary.BigEndian.Uint32`: weights 2^24, 2^16, 2^8 and 1, in this order. */
  function Uint32(b: Bytes): (n: nat)
    requires |b| == 4
    ensures n == b[0] as nat * 0x100_0000 + b[1] as nat * 0x1_0000 + b[2] as nat * 0x100 + b[3] as nat
    ensures n < 0x1_0000_0000
  {
    Uint16(b[..2]) * 0x1_0000 + Uint16(b[2..])
  }

  /** The middle of three concatenated parts. */
  lemma Middle(s: Bytes, a: Bytes, b: Bytes, c: Bytes)
    requires s == a + b + c
    ensures s[|a|..|a| + |b|] == b
  {
  }
}
