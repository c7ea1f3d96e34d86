/** The frame codec: a 4-byte body length, a 2-byte random number, then the compressed and encrypted body. */
module Protocol {
  import opened Bytes
  import opened Cipher
  import opened Compress
  import opened Slices
  import opened Stream

  const HEADER_LEN: nat := 6
  const MAX_BYTE: nat := 0x100_0000

  datatype Packet = Packet(randNu: nat, payload: Bytes)

  /** `random(i)`: the length modulo a number drawn from 1 to 99. */
  function RandNu(n: nat, coin: nat): (r: nat)
    requires coin < 99
    ensures r < 99
  {
    n % (coin + 1)
  }

  function Body(c: Compressor, key: Bytes, bin: Bytes): Bytes
    requires key != []
  {
    Encrypted(c.zip(bin), key)
  }

  /** The frame that `Encode` builds. A frame of 2^32 bytes or more overruns its truncated buffer. */
  function Frame(c: Compressor, key: Bytes, bin: Bytes, coin: nat): (r: Result<Bytes, Error>)
    requires key != [] && coin < 99
  {
    if bin == [] then Err(EmptyData)
    else
      var body := Body(c, key, bin);
      if HEADER_LEN + |body| >= 0x1_0000_0000 then Err(Panic)
      else Ok(PutUint32(|body|) + PutUint16(RandNu(|bin|, coin)) + body)
  }

  /** What decrypting and decompressing one received body gives. */
  function Opened(c: Compressor, key: Bytes, randNu: nat, body: Bytes): Result<Packet, Error>
    requires key != []
  {
    match c.unzip(Decrypted(body, key))
    case Some(payload) => Ok(Packet(randNu, payload))
    case None => Err(Corrupt)
  }

  function BodyLen(s: Bytes): nat
    requires |s| >= HEADER_LEN
  {
    Uint32(s[..4])
  }

  /** One frame read off a stream that holds `s` and then ends with `end`: the outcome and what is left. */
  function ReadFrame(c: Compressor, key: Bytes, s: Bytes, end: Error): (Result<Packet, Error>, Bytes)
    requires key != []
  {
    if |s| < HEADER_LEN then (Err(ShortRead(|s|, end)), [])
    else
      var n := BodyLen(s);
      var after := s[HEADER_LEN..];
      if n > MAX_BYTE then (Err(TooLargePacket), after)
      else if |after| < n then (Err(ShortRead(|after|, end)), [])
      else (Opened(c, key, Uint16(s[4..6]), after[..n]), after[n..])
  }

  /** One frame taken from the start of a buffer. */
  function Unpacked(c: Compressor, key: Bytes, s: Bytes): Result<Packet, Error>
    requires key != []
  {
    if |s| < HEADER_LEN then Err(IncompletePacket)
    else
      var n := BodyLen(s);
      if |s| < HEADER_LEN + n then Err(IncompletePacket)
      else Opened(c, key, Uint16(s[4..6]), s[HEADER_LEN..HEADER_LEN + n])
  }

  // ----- the header, byte by byte -----

  /** The frame as it is on the wire: the body length in four bytes, the number in two, most significant first. */
  lemma FrameBytes(c: Compressor, key: Bytes, bin: Bytes, coin: nat)
    requires key != [] && coin < 99 && Frame(c, key, bin, coin).Ok?
    ensures var f := Frame(c, key, bin, coin).value;
            && |f| >= 6
            && f[0] as nat * 0x100_0000 + f[1] as nat * 0x1_0000 + f[2] as nat * 0x100 + f[3] as nat == |f| - 6
            && f[4] as nat * 0x100 + f[5] as nat == |bin| % (coin + 1)
            && f[6..] == Body(c, key, bin)
  {
    hide PutUint32, Uint32, PutUint16, Encrypted;
    var body := Body(c, key, bin);
    var length, number := PutUint32(|body|), PutUint16(RandNu(|bin|, coin));
    var f := Frame(c, key, bin, coin).value;
    assert f == length + number + body;
    assert f[0] == length[0] && f[1] == length[1] && f[2] == length[2] && f[3] == length[3];
    assert f[4] == number[0] && f[5] == number[1] && f[6..] == body;
  }

  /** The body length that four bytes announce. */
  lemma LengthBytes(s: Bytes)
    requires |s| >= 6
    ensures BodyLen(s) == s[0] as nat * 0x100_0000 + s[1] as nat * 0x1_0000 + s[2] as nat * 0x100 + s[3] as nat
    ensures Uint16(s[4..6]) == s[4] as nat * 0x100 + s[5] as nat
  {
  }

  // ----- the code -----

  /** `copy(buffer[at:], b)`. */
  method Copy(buffer: array<byte>, at: nat, b: Bytes)
    requires at + |b| <= buffer.Length
    modifies buffer
    ensures buffer[..at] == old(buffer[..at]) && buffer[at..at + |b|] == b
    ensures buffer[at + |b|..] == old(buffer[at + |b|..])
  {
    forall i | 0 <= i < |b| {
      buffer[at + i] := b[i];
    }
  }

  /** `Encode`: fills the frame buffer in place. */
  method Encode(c: Compressor, key: Bytes, bin: Bytes, coin: nat) returns (r: Result<Bytes, Error>)
    requires key != [] && coin < 99
    ensures r == Frame(c, key, bin, coin)
    ensures r.Ok? ==>
              var f := r.value;
              && |f| >= 6
              && f[0] as nat * 0x100_0000 + f[1] as nat * 0x1_0000 + f[2] as nat * 0x100 + f[3] as nat == |f| - 6
              && f[4] as nat * 0x100 + f[5] as nat == |bin| % (coin + 1)
  {
    hide PutUint32, PutUint16, RandNu, Encrypted, Padding;
    var randNu := RandNu(|bin|, coin);
    var z := Zip(c, bin);
    if z.Err? {
      return Err(z.error);
    }
    var zipped := new byte[|z.value|](i requires 0 <= i < |z.value| => z.value[i]);
    var slice := Slice(zipped, 0, zipped.Length, zipped.Length);
    assert slice.View() == z.value;
    var encrypted := Encrypt(slice, key);
    var body := encrypted.View();
    assert body == Body(c, key, bin);
    var msgLen := HEADER_LEN + |body|;
    if msgLen >= 0x1_0000_0000 {
      return Err(Panic);
    }
    var buffer := new byte[msgLen](_ => 0);
    Copy(buffer, 0, PutUint32(|body|));
    Copy(buffer, 4, PutUint16(randNu));
    Copy(buffer, HEADER_LEN, body);
    assert buffer[..] == PutUint32(|body|) + PutUint16(randNu) + body;
    r := Ok(buffer[..]);
    FrameBytes(c, key, bin, coin);
  }

  /** `ReadFull`: reads one frame; the outcome depends on the bytes alone, not on how reads split them. */
  method ReadFull(c: Compressor, key: Bytes, r: Reader) returns (p: Result<Packet, Error>)
    requires key != []
    modifies r
    ensures (p, r.rest) == ReadFrame(c, key, old(r.rest), r.end)
    ensures var s := old(r.rest); |s| >= 6 ==>
              var n := s[0] as nat * 0x100_0000 + s[1] as nat * 0x1_0000 + s[2] as nat * 0x100 + s[3] as nat;
              && (n > 0x100_0000 ==> p == Err(TooLargePacket) && r.rest == s[6..])
              && (n <= 0x100_0000 && |s| >= 6 + n ==> r.rest == s[6 + n..])
              && (p.Ok? ==> |s| >= 6 + n && p.value.randNu == s[4] as nat * 0x100 + s[5] as nat)
  {
    ghost var s := r.rest;
    if |s| >= 6 {
      LengthBytes(s);
    }
    var preBuff := new byte[HEADER_LEN];
    var err := r.ReadFull(preBuff, 0, HEADER_LEN);
    if err.Some? {
      return Err(err.value);
    }
    assert preBuff[..] == old(r.rest)[..HEADER_LEN];
    var pre := preBuff[..];
    assert pre[..4] == old(r.rest)[..4] && pre[4..6] == old(r.rest)[4..6];
    var bodyLen := Uint32(pre[..4]);
    var randNu := Uint16(pre[4..6]);
    if bodyLen > MAX_BYTE {
      return Err(TooLargePacket);
    }
    var buf := new byte[bodyLen];
    err := r.ReadFull(buf, 0, bodyLen);
    if err.Some? {
      return Err(err.value);
    }
    assert buf[..] == old(r.rest)[HEADER_LEN..][..bodyLen];
    var slice := Slice(buf, 0, bodyLen, bodyLen);
    assert slice.View() == buf[..];
    var plain := Decrypt(slice, key);
    var unzipped := c.unzip(plain.View());
    if unzipped.None? {
      return Err(Corrupt);
    }
    p := Ok(Packet(randNu, unzipped.value));
  }

  /** `UnPack`: the same frame from a buffer, with what decrypting in place does to that buffer. */
  method UnPack(c: Compressor, key: Bytes, buf: Slice) returns (p: Result<Packet, Error>)
    requires key != [] && buf.Valid()
    modifies buf.arr
    ensures p == Unpacked(c, key, old(buf.View()))
    ensures var whole := |old(buf.View())| >= HEADER_LEN && buf.len >= HEADER_LEN + BodyLen(old(buf.View()));
            if whole
            then AfterDecrypt(old(buf.arr[..]), buf.arr[..],
              buf.Sub(HEADER_LEN, HEADER_LEN + BodyLen(old(buf.View()))), key)
            else buf.arr[..] == old(buf.arr[..])
    ensures var s := old(buf.View()); p.Ok? ==>
              && |s| >= 6
              && |s| >= 6 + s[0] as nat * 0x100_0000 + s[1] as nat * 0x1_0000 + s[2] as nat * 0x100 + s[3] as nat
              && p.value.randNu == s[4] as nat * 0x100 + s[5] as nat
  {
    if buf.len < HEADER_LEN {
      return Err(IncompletePacket);
    }
    var view := buf.View();
    LengthBytes(view);
    var bodyLen := Uint32(view[..4]);
    var randNu := Uint16(view[4..6]);
    var msgLen := HEADER_LEN + bodyLen;
    if buf.len < msgLen {
      return Err(IncompletePacket);
    }
    SubView(buf, HEADER_LEN, msgLen);
    var plain := Decrypt(buf.Sub(HEADER_LEN, msgLen), key);
    var unzipped := c.unzip(plain.View());
    if unzipped.None? {
      return Err(Corrupt);
    }
    p := Ok(Packet(randNu, unzipped.value));
  }
}
