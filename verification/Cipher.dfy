/** The rotate-and-xor cipher: padded block loops over slices, and the position-wise maps they compute. */
module Cipher {
  import opened ByteCipher
  import opened Bytes
  import opened Slices

  // ----- whole messages: the position-wise maps -----

  /** The key byte at a position, the key repeated as often as needed. */
  function KeyAt(key: Bytes, i: nat): byte
    requires key != []
  {
    key[i % |key|]
  }

  function Encrypted(data: Bytes, key: Bytes): (r: Bytes)
    requires key != []
    ensures |r| == |data|
  {
    seq(|data|, i requires 0 <= i < |data| => EncryptByte(data[i], KeyAt(key, i)))
  }

  function Decrypted(data: Bytes, key: Bytes): (r: Bytes)
    requires key != []
    ensures |r| == |data|
  {
    seq(|data|, i requires 0 <= i < |data| => DecryptByte(data[i], KeyAt(key, i)))
  }

  /** Each key gives a bijection on the byte strings of every length: two mutually inverse maps. */
  lemma CipherBijection(data: Bytes, key: Bytes)
    requires key != []
    ensures Decrypted(Encrypted(data, key), key) == data
    ensures Encrypted(Decrypted(data, key), key) == data
  {
    forall i | 0 <= i < |data|
      ensures Decrypted(Encrypted(data, key), key)[i] == data[i]
      ensures Encrypted(Decrypted(data, key), key)[i] == data[i]
    {
      ByteRoundTrip(data[i], KeyAt(key, i));
    }
  }

  // ----- the cipher on bits -----

  /** `r` is `data` encrypted, bit by bit: under key byte `k` bit `b` is the exclusive or of the data bit and the
      key bit `k % 8` places higher, around the byte. */
  ghost predicate EncryptedBits(data: Bytes, key: Bytes, r: Bytes)
    requires key != []
  {
    && |r| == |data|
    && forall i, b {:trigger BitOf(r[i], b)} :: 0 <= i < |r| && 0 <= b < 8 ==>
         var k := key[i % |key|]; var c := (b + k as nat % 8) % 8;
         BitOf(r[i], b) <==> BitOf(data[i], c) != BitOf(k, c)
  }

  /** `r` is `data` decrypted: the data bit `k % 8` places lower, around the byte, or'd exclusively with the key bit. */
  ghost predicate DecryptedBits(data: Bytes, key: Bytes, r: Bytes)
    requires key != []
  {
    && |r| == |data|
    && forall i, b {:trigger BitOf(r[i], b)} :: 0 <= i < |r| && 0 <= b < 8 ==>
         var k := key[i % |key|];
         BitOf(r[i], b) <==> BitOf(data[i], (b + 8 - k as nat % 8) % 8) != BitOf(k, b)
  }

  /** The position-wise maps are exactly what the bits say. */
  lemma EncryptedExactlyWhen(data: Bytes, key: Bytes, r: Bytes)
    requires key != []
    ensures r == Encrypted(data, key) <==> EncryptedBits(data, key, r)
  {
    hide BitOf, EncryptByte;
    var e := Encrypted(data, key);
    forall i, b | 0 <= i < |data| && 0 <= b < 8
      ensures var k := key[i % |key|]; var c := (b + k as nat % 8) % 8;
              BitOf(e[i], b) <==> BitOf(data[i], c) != BitOf(k, c)
    {
      CipherBits(data[i], KeyAt(key, i), b);
    }
    if EncryptedBits(data, key, r) {
      forall i | 0 <= i < |data| ensures r[i] == e[i] {
        SameByte(r[i], e[i]);
      }
    }
  }

  lemma DecryptedExactlyWhen(data: Bytes, key: Bytes, r: Bytes)
    requires key != []
    ensures r == Decrypted(data, key) <==> DecryptedBits(data, key, r)
  {
    hide BitOf, DecryptByte;
    var d := Decrypted(data, key);
    forall i, b | 0 <= i < |data| && 0 <= b < 8
      ensures var k := key[i % |key|];
              BitOf(d[i], b) <==> BitOf(data[i], (b + 8 - k as nat % 8) % 8) != BitOf(k, b)
    {
      CipherBits(data[i], KeyAt(key, i), b);
    }
    if DecryptedBits(data, key, r) {
      forall i | 0 <= i < |data| ensures r[i] == d[i] {
        SameByte(r[i], d[i]);
      }
    }
  }

  // ----- padding and block arithmetic -----

  /** `n` bytes are a whole number of blocks of `k` bytes. */
  ghost predicate WholeBlocks(n: nat, k: nat)
    requires k > 0
  {
    n % k == 0
  }

  /** Bytes `complete` adds so that the length becomes a multiple of the key length. */
  function Padding(n: nat, k: nat): (p: nat)
    requires k > 0
    ensures WholeBlocks(n + p, k) && p < k
  {
    PaddingReachesMultiple(n, k);
    if n % k > 0 then k - n % k else 0
  }

  lemma PaddingReachesMultiple(n: nat, k: nat)
    requires k > 0
    ensures (n + (if n % k > 0 then k - n % k else 0)) % k == 0
  {
    if n % k > 0 {
      assert n + (k - n % k) == (n / k + 1) * k + 0;
      ModUnique(n + (k - n % k), k, n / k + 1, 0);
    }
  }

  lemma ModUnique(x: nat, k: nat, q: nat, r: nat)
    requires r < k && x == q * k + r
    ensures x % k == r
  {
    NoProperMultiple(q - x / k, k, x % k - r);
  }

  lemma NoProperMultiple(c: int, k: nat, d: int)
    requires 0 - k < d < k && c * k == d
    ensures d == 0
  {
    assert c >= 1 ==> c * k >= k;
    assert c <= -1 ==> c * k <= 0 - k;
  }

  lemma MultiplesAreApart(a: nat, b: nat, k: nat)
    requires a * k < b * k
    ensures a * k + k <= b * k
  {
    var c := b - a - 1;
    assert c * k == b * k - a * k - k;
    assert c < 0 ==> (a - b) * k >= 0;
  }

  lemma DivOfWhole(n: nat, k: nat)
    requires k > 0 && WholeBlocks(n, k)
    ensures n == (n / k) * k
  {
  }

  lemma KeyRepeats(n: nat, j: nat, key: Bytes)
    requires key != [] && WholeBlocks(n, |key|) && j < |key|
    ensures KeyAt(key, n + j) == key[j]
  {
    DivOfWhole(n, |key|);
    ModUnique(n + j, |key|, n / |key|, j);
  }

  lemma KeyStart(key: Bytes)
    requires key != []
    ensures forall j {:trigger KeyAt(key, j)} :: 0 <= j < |key| ==> KeyAt(key, j) == key[j]
  {
    forall j | 0 <= j < |key| ensures KeyAt(key, j) == key[j] {
      ModUnique(j, |key|, 0, j);
    }
  }

  lemma NoBlocks(k: nat)
    requires k > 0
    ensures WholeBlocks(0, k)
  {
  }

  lemma NextBlock(i: nat, n: nat, k: nat)
    requires k > 0 && WholeBlocks(i, k) && WholeBlocks(n, k) && i < n
    ensures i + k <= n && WholeBlocks(i + k, k)
  {
    DivOfWhole(i, k);
    DivOfWhole(n, k);
    MultiplesAreApart(i / k, n / k, k);
    assert i + k == (i / k + 1) * k + 0;
    ModUnique(i + k, k, i / k + 1, 0);
  }

  /** The block at a multiple of the key length fits in the padded data and meets the key from its start. */
  lemma Block(i: nat, n: nat, key: Bytes)
    requires key != [] && WholeBlocks(i, |key|) && WholeBlocks(n, |key|) && i < n
    ensures i + |key| <= n && WholeBlocks(i + |key|, |key|)
    ensures forall p {:trigger KeyAt(key, p)} :: i <= p < i + |key| ==> KeyAt(key, p) == key[p - i]
  {
    NextBlock(i, n, |key|);
    forall p | i <= p < i + |key| ensures KeyAt(key, p) == key[p - i] {
      KeyRepeats(i, p - i, key);
    }
  }

  function Zeros(n: nat): (z: Bytes)
    ensures |z| == n
  {
    seq(n, _ => 0)
  }

  // ----- the code: slices, padding in place, block loops -----

  class Rotate {
    var data: Slice
    const key: Bytes
    var dL: nat
    const kL: nat
    var pL: nat

    constructor (data: Slice, key: Bytes)
      ensures this.data == data && this.key == key && dL == data.len && kL == |key| && pL == 0
    {
      this.data, this.key, dL, kL, pL := data, key, data.len, |key|, 0;
    }

    /** Pads with zeros to a multiple of the key length; in the caller's array when it has room. */
    method Complete()
      requires data.Valid() && kL == |key| > 0 && pL == 0
      modifies this, data.arr
      ensures pL == Padding(old(data.len), kL)
      ensures data.Valid() && data.len == dL == old(data.len) + pL
      ensures data.View() == old(data.View()) + Zeros(pL)
      ensures Reuses(old(data), pL) ==> data == old(data).(len := dL)
      ensures Reuses(old(data), pL) ==>
                var end := old(data.off + data.len);
                forall p {:trigger data.arr[p]} :: 0 <= p < data.arr.Length ==>
                    data.arr[p] == if end <= p < end + pL then 0 else old(data.arr[p])
      ensures !Reuses(old(data), pL) ==> fresh(data.arr) && old(data).arr[..] == old(data.arr[..])
    {
      var padded := data;
      if data.len % kL > 0 {
        pL := kL - data.len % kL;
        padded := Append(data, Zeros(pL));
      } else {
        assert data.View() + Zeros(0) == data.View();
      }
      data := padded;
      dL := padded.len;
    }

    /** Rotates every byte of one block right, in place. */
    method ShiftRight(s: Slice)
      requires s.Valid() && kL == |key| == s.len && kL > 0
      modifies s.arr
      ensures forall p {:trigger s.arr[p]} :: 0 <= p < s.arr.Length ==>
                s.arr[p] ==
                  if s.off <= p < s.off + s.len then ShiftRightByte(old(s.arr[p]), key[p - s.off]) else old(s.arr[p])
    {
      hide ShiftRightByte, KeyAt;
      KeyStart(key);
      var i := 0;
      while i < s.len
        invariant 0 <= i <= s.len
        invariant forall p {:trigger s.arr[p]} :: 0 <= p < s.arr.Length ==>
                    s.arr[p] ==
                      if s.off <= p < s.off + i then ShiftRightByte(old(s.arr[p]), key[p - s.off]) else old(s.arr[p])
      {
        s.arr[s.off + i] := ShiftRightByte(s.arr[s.off + i], KeyAt(key, i));
        i := i + 1;
      }
    }

    /** Rotates every byte of one block left, in place. */
    method ShiftLeft(s: Slice)
      requires s.Valid() && kL == |key| == s.len && kL > 0
      modifies s.arr
      ensures forall p {:trigger s.arr[p]} :: 0 <= p < s.arr.Length ==>
                s.arr[p] ==
                  if s.off <= p < s.off + s.len then ShiftLeftByte(old(s.arr[p]), key[p - s.off]) else old(s.arr[p])
    {
      hide ShiftLeftByte, KeyAt;
      KeyStart(key);
      var i := 0;
      while i < s.len
        invariant 0 <= i <= s.len
        invariant forall p {:trigger s.arr[p]} :: 0 <= p < s.arr.Length ==>
                    s.arr[p] ==
                      if s.off <= p < s.off + i then ShiftLeftByte(old(s.arr[p]), key[p - s.off]) else old(s.arr[p])
      {
        s.arr[s.off + i] := ShiftLeftByte(s.arr[s.off + i], KeyAt(key, i));
        i := i + 1;
      }
    }

    /** The inner loop of both directions: xor one block of the data with the key into the result. */
    method XorBlock(i: nat, result: array<byte>)
      requires data.Valid() && data.arr != result && kL == |key| > 0 && i + kL <= data.len == dL == result.Length
      modifies result
      ensures forall p {:trigger result[p]} :: 0 <= p < dL ==>
                result[p] == if i <= p < i + kL then Xor(data.arr[data.off + p], key[p - i]) else old(result[p])
    {
      hide Xor, KeyAt;
      KeyStart(key);
      var j := 0;
      while j < kL
        invariant 0 <= j <= kL
        invariant forall p {:trigger result[p]} :: 0 <= p < dL ==>
                    result[p] == if i <= p < i + j then Xor(data.arr[data.off + p], key[p - i]) else old(result[p])
      {
        if i + j < dL {
          result[i + j] := Xor(data.arr[data.off + (i + j)], KeyAt(key, j));
        }
        j := j + 1;
      }
    }

    /** One turn of the encryption loop. */
    method EncryptBlock(i: nat, result: array<byte>)
      requires data.Valid() && data.arr != result && kL == |key| > 0 && i + kL <= data.len == dL == result.Length
      modifies result
      ensures forall p {:trigger result[p]} :: 0 <= p < dL ==>
                result[p] == if i <= p < i + kL then EncryptByte(data.arr[data.off + p], key[p - i]) else old(result[p])
    {
      hide Xor, ShiftRightByte;
      XorBlock(i, result);
      ShiftRight(Slice(result, i, kL, dL - i));
    }

    /** The encryption block loop over already padded data; the input data are only read. */
    method EncryptBlocks() returns (result: array<byte>)
      requires data.Valid() && data.len == dL && kL == |key| > 0 && WholeBlocks(dL, kL)
      ensures fresh(result) && result.Length == dL
      ensures forall p {:trigger result[p]} :: 0 <= p < dL ==>
                result[p] == EncryptByte(data.arr[data.off + p], KeyAt(key, p))
    {
      hide EncryptByte, KeyAt, WholeBlocks;
      result := new byte[dL](_ => 0);
      var i := 0;
      NoBlocks(kL);
      while i < dL
        invariant 0 <= i <= dL && WholeBlocks(i, kL)
        invariant forall p {:trigger result[p]} :: 0 <= p < i ==>
                    result[p] == EncryptByte(data.arr[data.off + p], KeyAt(key, p))
      {
        Block(i, dL, key);
        EncryptBlock(i, result);
        i := i + kL;
      }
    }

    /** One turn of the decryption loop: the block is rotated in the data themselves. */
    method DecryptBlock(i: nat, result: array<byte>)
      requires data.Valid() && data.arr != result && kL == |key| > 0 && i + kL <= data.len == dL == result.Length
      modifies data.arr, result
      ensures forall p {:trigger result[p]} :: 0 <= p < dL ==>
                result[p] ==
                  if i <= p < i + kL then DecryptByte(old(data.arr[data.off + p]), key[p - i]) else old(result[p])
      ensures forall p {:trigger data.arr[p]} :: 0 <= p < data.arr.Length ==>
                data.arr[p] == if data.off + i <= p < data.off + i + kL
                               then ShiftLeftByte(old(data.arr[p]), key[p - data.off - i]) else old(data.arr[p])
    {
      hide Xor, ShiftLeftByte;
      ShiftLeft(data.Sub(i, i + kL));
      XorBlock(i, result);
    }

    /** The decryption block loop: leaves the data left-rotated in place. */
    method DecryptBlocks() returns (result: array<byte>)
      requires data.Valid() && data.len == dL && kL == |key| > 0 && WholeBlocks(dL, kL)
      modifies data.arr
      ensures fresh(result) && result.Length == dL
      ensures forall p {:trigger result[p]} :: 0 <= p < dL ==>
                result[p] == DecryptByte(old(data.arr[data.off + p]), KeyAt(key, p))
      ensures forall p {:trigger data.arr[p]} :: 0 <= p < data.arr.Length ==>
                data.arr[p] ==
                  if data.off <= p < data.off + dL then ShiftLeftByte(old(data.arr[p]), KeyAt(key, p - data.off))
                  else old(data.arr[p])
    {
      hide DecryptByte, ShiftLeftByte, KeyAt, WholeBlocks;
      result := new byte[dL](_ => 0);
      var i := 0;
      NoBlocks(kL);
      while i < dL
        invariant 0 <= i <= dL && WholeBlocks(i, kL)
        invariant forall p {:trigger result[p]} :: 0 <= p < i ==>
                    result[p] == DecryptByte(old(data.arr[data.off + p]), KeyAt(key, p))
        invariant forall p {:trigger data.arr[p]} :: 0 <= p < data.arr.Length ==>
                    data.arr[p] ==
                      if data.off <= p < data.off + i then ShiftLeftByte(old(data.arr[p]), KeyAt(key, p - data.off))
                      else old(data.arr[p])
      {
        Block(i, dL, key);
        DecryptBlock(i, result);
        i := i + kL;
      }
    }
  }

  /** `Encrypt`: the padded block loop computes exactly the position-wise map, length preserved.
      Its only effect on the caller's array is the zero padding, when that fits the capacity. */
  method Encrypt(data: Slice, key: Bytes) returns (r: Slice)
    requires data.Valid() && key != []
    modifies data.arr
    ensures r.Valid() && fresh(r.arr) && r.View() == Encrypted(old(data.View()), key)
    ensures EncryptedBits(old(data.View()), key, r.View())
    ensures var pad := Padding(data.len, |key|); var end := data.off + data.len;
            forall p {:trigger data.arr[p]} :: 0 <= p < data.arr.Length ==>
              data.arr[p] == if Reuses(data, pad) && end <= p < end + pad then 0 else old(data.arr[p])
  {
    hide EncryptByte, KeyAt, WholeBlocks, EncryptedBits;
    ghost var body := data.View();
    var rot := new Rotate(data, key);
    rot.Complete();
    ghost var padded := rot.data.View();
    var result := rot.EncryptBlocks();
    r := Slice(result, 0, result.Length - rot.pL, result.Length);
    forall i | 0 <= i < data.len ensures r.View()[i] == Encrypted(body, key)[i] {
      assert padded[i] == body[i];
    }
    EncryptedExactlyWhen(body, key, r.View());
  }

  /** The caller's backing array after a decryption: the body left-rotated in place and the zero
      padding written past its end when the padded slice still lives there, otherwise untouched. */
  ghost predicate AfterDecrypt(before: Bytes, after: Bytes, data: Slice, key: Bytes)
    requires key != [] && data.Valid() && |before| == |after| == data.arr.Length
  {
    var pad := Padding(data.len, |key|);
    var end := data.off + data.len;
    forall p :: 0 <= p < |after| ==>
      after[p] == if !Reuses(data, pad) then before[p]
                  else if data.off <= p < end then ShiftLeftByte(before[p], KeyAt(key, p - data.off))
                  else if end <= p < end + pad then 0
                  else before[p]
  }

  /** `Decrypt`: the inverse position-wise map, with its exact effect on the caller's array. */
  method Decrypt(data: Slice, key: Bytes) returns (r: Slice)
    requires data.Valid() && key != []
    modifies data.arr
    ensures r.Valid() && fresh(r.arr) && r.View() == Decrypted(old(data.View()), key)
    ensures DecryptedBits(old(data.View()), key, r.View())
    ensures AfterDecrypt(old(data.arr[..]), data.arr[..], data, key)
  {
    hide DecryptByte, ShiftLeftByte, KeyAt, WholeBlocks, DecryptedBits;
    ghost var body := data.View();
    var rot := new Rotate(data, key);
    rot.Complete();
    ghost var padded := rot.data.View();
    var result := rot.DecryptBlocks();
    r := Slice(result, 0, result.Length - rot.pL, result.Length);
    forall i | 0 <= i < data.len ensures r.View()[i] == Decrypted(body, key)[i] {
      assert padded[i] == body[i];
    }
    DecryptedExactlyWhen(body, key, r.View());
    forall k: byte ensures ShiftLeftByte(0, k) == 0 {
      ZeroStaysZero(k);
    }
  }
}
