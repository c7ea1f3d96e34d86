/** The conversion between small integers and bit-vectors, kept apart from everything else. */
module Bits {

  lemma NextBits(b: bv8)
    requires b < 255
    ensures (b + 1) as int == b as int + 1
  {
  }

  lemma NotLast(b: bv8, n: int)
    requires b as int == n && n < 255
    ensures b < 255
  {
  }

  /** Every number below 256 is the value of some bits. */
  lemma {:induction false} BitsOf(n: nat) returns (b: bv8)
    requires n < 256
    ensures b as int == n
  {
    if n == 0 {
      b := 0;
    } else {
      b := BitsOf(n - 1);
      NotLast(b, n - 1);
      NextBits(b);
      b := b + 1;
    }
  }

  lemma BackToBits(b: bv8, n: int)
    requires n == b as int
    ensures n as bv8 == b
  {
  }

  lemma IntThroughBits(x: int)
    requires 0 <= x < 256
    ensures (x as bv8) as int == x
  {
    var b := BitsOf(x);
    BackToBits(b, x);
  }

  // ----- the bits of a number, and the bits of a bit-vector -----

  function Weight(b: nat): (w: nat)
    ensures w > 0
  {
    if b == 0 then 1 else 2 * Weight(b - 1)
  }

  /** Bit `b` of a number. */
  predicate Bit(x: nat, b: nat) {
    x / Weight(b) % 2 == 1
  }

  predicate Set(v: bv8, b: bv8)
    requires b < 8
  {
    (v >> b) & 1 == 1
  }

  lemma Halve(v: bv8)
    ensures v as int % 2 == (v & 1) as int && v as int / 2 == (v >> 1) as int
  {
  }

  lemma OneLess(v: bv8, b: bv8)
    requires 0 < b < 8
    ensures Set(v, b) <==> Set(v >> 1, b - 1)
    ensures (b - 1) as int == b as int - 1
  {
  }

  lemma DivTwice(x: nat, w: nat)
    requires w > 0
    ensures x / (2 * w) == x / 2 / w
  {
    var q, r := x / (2 * w), x % (2 * w);
    assert x == 2 * (q * w) + r;
    assert x / 2 == w * q + r / 2 && r / 2 < w;
    DivUnique(x / 2, w, q, r / 2);
  }

  lemma DivUnique(x: nat, w: nat, q: nat, r: nat)
    requires r < w && x == w * q + r
    ensures x / w == q
  {
    var d := x / w - q;
    assert w * (x / w) + x % w == x;
    assert w * d == r - x % w;
    assert d >= 1 ==> w * d >= w;
    assert d <= -1 ==> w * d <= 0 - w;
  }

  lemma HalfBit(x: nat, b: nat)
    ensures Bit(x, b + 1) <==> Bit(x / 2, b)
  {
    DivTwice(x, Weight(b));
  }

  /** A number is determined by its bits. */
  lemma {:induction false} SameBits(x: nat, y: nat, n: nat)
    requires x < Weight(n) && y < Weight(n) && forall b :: 0 <= b < n ==> (Bit(x, b) <==> Bit(y, b))
    ensures x == y
  {
    if n > 0 {
      assert Weight(0) == 1 && (Bit(x, 0) <==> Bit(y, 0));
      forall b | 0 <= b < n - 1 ensures Bit(x / 2, b) <==> Bit(y / 2, b) {
        HalfBit(x, b);
        HalfBit(y, b);
        assert Bit(x, b + 1) <==> Bit(y, b + 1);
      }
      SameBits(x / 2, y / 2, n - 1);
    }
  }

  /** The bits of a vector are those of its value. */
  lemma {:induction false} BitIsSet(v: bv8, n: nat, b: bv8)
    requires n < 8 && n == b as int
    ensures Bit(v as int, n) <==> Set(v, b)
    decreases n
  {
    if n == 0 {
      Halve(v);
    } else {
      hide Set;
      OneLess(v, b);
      BitIsSet(v >> 1, n - 1, b - 1);
      Halve(v);
      DivTwice(v as int, Weight(n - 1));
    }
  }
}

/** The cipher on one byte: xor with the key byte, rotate by the key byte modulo 8. */
module ByteCipher {
  import opened Bits
  import opened Bytes

  function RotateRight(x: bv8, s: bv8): (r: bv8)
    requires s < 8
  {
    (x >> s) | (x << (8 - s))
  }

  function RotateLeft(x: bv8, s: bv8): (r: bv8)
    requires s < 8
  {
    (x << s) | (x >> (8 - s))
  }

  function Xor(x: byte, y: byte): byte {
    ((x as bv8) ^ (y as bv8)) as byte
  }

  /** One turn of the `shiftRight` loop: the shift distance is the key byte modulo 8. */
  function ShiftRightByte(x: byte, k: byte): byte {
    RotateRight(x as bv8, (k % 8) as bv8) as byte
  }

  /** One turn of the `shiftLeft` loop. */
  function ShiftLeftByte(x: byte, k: byte): byte {
    RotateLeft(x as bv8, (k % 8) as bv8) as byte
  }

  function EncryptByte(d: byte, k: byte): byte {
    ShiftRightByte(Xor(d, k), k)
  }

  function DecryptByte(e: byte, k: byte): byte {
    Xor(ShiftLeftByte(e, k), k)
  }

  lemma RotationsCancel(x: bv8, s: bv8)
    requires s < 8
    ensures RotateRight(RotateLeft(x, s), s) == x
    ensures RotateLeft(RotateRight(x, s), s) == x
  {
  }

  lemma ByteThroughBits(x: byte)
    ensures (x as bv8) as byte == x
  {
    IntThroughBits(x as int);
  }

  lemma BitsThroughByte(x: bv8)
    ensures (x as byte) as bv8 == x
  {
  }

  lemma ShiftsCancel(x: byte, k: byte)
    ensures ShiftLeftByte(ShiftRightByte(x, k), k) == x
    ensures ShiftRightByte(ShiftLeftByte(x, k), k) == x
  {
    hide RotateLeft, RotateRight;
    var s := (k % 8) as bv8;
    RotationsCancel(x as bv8, s);
    BitsThroughByte(RotateRight(x as bv8, s));
    BitsThroughByte(RotateLeft(x as bv8, s));
    ByteThroughBits(x);
  }

  lemma XorCancels(x: byte, k: byte)
    ensures Xor(Xor(x, k), k) == x
  {
    BitsThroughByte((x as bv8) ^ (k as bv8));
    ByteThroughBits(x);
  }

  lemma ByteRoundTrip(x: byte, k: byte)
    ensures DecryptByte(EncryptByte(x, k), k) == x
    ensures EncryptByte(DecryptByte(x, k), k) == x
  {
    ShiftsCancel(Xor(x, k), k);
    XorCancels(x, k);
    XorCancels(ShiftLeftByte(x, k), k);
    ShiftsCancel(x, k);
  }

  // ----- what the operations do, bit by bit -----

  /** Bit `b` of a byte. */
  predicate BitOf(x: byte, b: nat) {
    Bit(x as nat, b)
  }

  lemma RotationBits(x: bv8, s: bv8, b: bv8)
    requires s < 8 && b < 8
    ensures Set(RotateRight(x, s), b) <==> Set(x, (b + s) % 8)
    ensures Set(RotateLeft(x, s), b) <==> Set(x, (b + 8 - s) % 8)
  {
  }

  lemma XorSets(x: bv8, y: bv8, b: bv8)
    requires b < 8
    ensures Set(x ^ y, b) <==> Set(x, b) != Set(y, b)
  {
  }

  lemma SmallSum(b: nat, s: nat)
    requires b < 8 && s < 8
    ensures b as bv8 as int == b && s as bv8 as int == s
    ensures (((b as bv8) + (s as bv8)) % 8) as int == (b + s) % 8
    ensures (((b as bv8) + 8 - (s as bv8)) % 8) as int == (b + 8 - s) % 8
  {
    IntThroughBits(b);
    IntThroughBits(s);
  }

  lemma XorBits(x: byte, y: byte, b: nat)
    requires b < 8
    ensures BitOf(Xor(x, y), b) <==> BitOf(x, b) != BitOf(y, b)
  {
    hide Set, Bit;
    ByteThroughBits(x);
    ByteThroughBits(y);
    SmallSum(b, 0);
    var v, w, c := x as bv8, y as bv8, b as bv8;
    XorSets(v, w, c);
    BitIsSet(v, b, c);
    BitIsSet(w, b, c);
    BitIsSet(v ^ w, b, c);
  }

  lemma RotatedBit(v: bv8, r: bv8, b: nat, c: nat, x: bv8, y: bv8)
    requires b < 8 && c < 8 && x as int == b && y as int == c && (Set(r, x) <==> Set(v, y))
    ensures Bit(r as int, b) <==> Bit(v as int, c)
  {
    hide Set, Bit;
    BitIsSet(r, b, x);
    BitIsSet(v, c, y);
  }

  lemma ShiftRightBits(x: byte, k: byte, b: nat)
    requires b < 8
    ensures BitOf(ShiftRightByte(x, k), b) <==> BitOf(x, (b + k as nat % 8) % 8)
  {
    hide Set, Bit, RotateRight;
    ByteThroughBits(x);
    var s := k as nat % 8;
    SmallSum(b, s);
    var v, c, t := x as bv8, b as bv8, (k % 8) as bv8;
    RotationBits(v, t, c);
    RotatedBit(v, RotateRight(v, t), b, (b + s) % 8, c, (c + t) % 8);
  }

  lemma ShiftLeftBits(x: byte, k: byte, b: nat)
    requires b < 8
    ensures BitOf(ShiftLeftByte(x, k), b) <==> BitOf(x, (b + 8 - k as nat % 8) % 8)
  {
    hide Set, Bit, RotateLeft;
    ByteThroughBits(x);
    var s := k as nat % 8;
    SmallSum(b, s);
    var v, c, t := x as bv8, b as bv8, (k % 8) as bv8;
    RotationBits(v, t, c);
    RotatedBit(v, RotateLeft(v, t), b, (b + 8 - s) % 8, c, (c + 8 - t) % 8);
  }

  /** One encrypted byte: bit `b` is the exclusive or of the bits of data and key `k % 8` places higher, taken
      around the byte. One decrypted byte: the bit as many places lower, then the key bit. */
  lemma CipherBits(x: byte, k: byte, b: nat)
    requires b < 8
    ensures var c := (b + k as nat % 8) % 8; BitOf(EncryptByte(x, k), b) <==> BitOf(x, c) != BitOf(k, c)
    ensures var c := (b + 8 - k as nat % 8) % 8; BitOf(DecryptByte(x, k), b) <==> BitOf(x, c) != BitOf(k, b)
  {
    hide BitOf, Xor, ShiftRightByte, ShiftLeftByte;
    ShiftRightBits(Xor(x, k), k, b);
    XorBits(x, k, (b + k as nat % 8) % 8);
    ShiftLeftBits(x, k, b);
    XorBits(ShiftLeftByte(x, k), k, b);
  }

  /** A byte is determined by its bits. */
  lemma SameByte(x: byte, y: byte)
    requires forall b :: 0 <= b < 8 ==> (BitOf(x, b) <==> BitOf(y, b))
    ensures x == y
  {
    assert Weight(4) == 16;
    assert Weight(8) == 256;
    var m, n: nat := x as nat, y as nat;
    forall b | 0 <= b < 8 ensures Bit(m, b) <==> Bit(n, b) {
      assert BitOf(x, b) <==> BitOf(y, b);
    }
    SameBits(m, n, 8);
  }

  lemma ZeroStaysZero(k: byte)
    ensures ShiftLeftByte(0, k) == 0
  {
    var s := (k % 8) as bv8;
    assert RotateLeft(0, s) == 0;
  }
}
