/** What the frame codec promises: whole streams of frames come back as the messages that were sent. */
module Framing {
  import opened Bytes
  import opened Cipher
  import opened Compress
  import opened Protocol
  import opened Stream

  /** One call of `Encode`: the payload and the number drawn by `random`. */
  datatype Message = Message(payload: Bytes, coin: nat)

  /** `Encode` returns a frame for this message. */
  predicate Encodable(c: Compressor, m: Message) {
    m.payload != [] && m.coin < 99 && HEADER_LEN + |c.zip(m.payload)| < 0x1_0000_0000
  }

  predicate AllEncodable(c: Compressor, ms: seq<Message>) {
    forall i :: 0 <= i < |ms| ==> Encodable(c, ms[i])
  }

  /** The encoded body is within what `ReadFull` accepts. */
  predicate Fits(c: Compressor, m: Message) {
    |c.zip(m.payload)| <= MAX_BYTE
  }

  function FrameOf(c: Compressor, key: Bytes, m: Message): (f: Bytes)
    requires key != [] && Encodable(c, m)
    ensures |f| == HEADER_LEN + |c.zip(m.payload)|
  {
    Frame(c, key, m.payload, m.coin).value
  }

  function PacketOf(m: Message): Packet
    requires m.coin < 99
  {
    Packet(RandNu(|m.payload|, m.coin), m.payload)
  }

  /** The bytes of a sequence of frames, back to back. */
  function Wire(c: Compressor, key: Bytes, ms: seq<Message>): Bytes
    requires key != [] && AllEncodable(c, ms)
  {
    if ms == [] then [] else FrameOf(c, key, ms[0]) + Wire(c, key, ms[1..])
  }

  /** The payloads of some messages, back to back. */
  function Payloads(ms: seq<Message>): Bytes {
    if ms == [] then [] else ms[0].payload + Payloads(ms[1..])
  }

  lemma {:induction false} PayloadsConcat(a: seq<Message>, b: seq<Message>)
    ensures Payloads(a + b) == Payloads(a) + Payloads(b)
  {
    if a == [] {
      assert a + b == b;
    } else {
      assert (a + b)[1..] == a[1..] + b;
      PayloadsConcat(a[1..], b);
    }
  }

  lemma PayloadsSnoc(ms: seq<Message>, m: Message)
    ensures Payloads(ms + [m]) == Payloads(ms) + m.payload
  {
    PayloadsConcat(ms, [m]);
    assert [m][1..] == [];
  }

  /** `Encode` succeeds exactly on the encodable messages. */
  lemma EncodeSucceeds(c: Compressor, key: Bytes, m: Message)
    requires key != [] && m.coin < 99
    ensures Frame(c, key, m.payload, m.coin).Ok? <==> Encodable(c, m)
  {
  }

  lemma FrameParts(c: Compressor, key: Bytes, m: Message, tail: Bytes)
    requires key != [] && Encodable(c, m)
    ensures var s := FrameOf(c, key, m) + tail; var body := Body(c, key, m.payload);
            && BodyLen(s) == |body|
            && Uint16(s[4..6]) == RandNu(|m.payload|, m.coin)
            && s[HEADER_LEN..] == body + tail
  {
    hide PutUint32, PutUint16, Uint32, Uint16, RandNu, Encrypted;
    var s, body := FrameOf(c, key, m) + tail, Body(c, key, m.payload);
    var length, rand := PutUint32(|body|), PutUint16(RandNu(|m.payload|, m.coin));
    assert s == length + rand + body + tail;
    assert s[..4] == length && s[4..6] == rand;
  }

  /** A frame followed by anything is read back as its message if and only if its body fits; an oversized
      frame is refused after its header. `UnPack` on the same bytes has no such limit. */
  lemma FrameRoundTrip(c: Compressor, key: Bytes, m: Message, tail: Bytes, end: Error)
    requires Lawful(c) && key != [] && Encodable(c, m)
    ensures ReadFrame(c, key, FrameOf(c, key, m) + tail, end) ==
            if Fits(c, m) then (Ok(PacketOf(m)), tail) else (Err(TooLargePacket), Body(c, key, m.payload) + tail)
    ensures Unpacked(c, key, FrameOf(c, key, m) + tail) == Ok(PacketOf(m))
  {
    hide Uint32, Uint16, Frame, RandNu, Encrypted, Decrypted;
    FrameParts(c, key, m, tail);
    var s, body := FrameOf(c, key, m) + tail, Body(c, key, m.payload);
    CipherBijection(c.zip(m.payload), key);
    assert s[HEADER_LEN..][..|body|] == body && s[HEADER_LEN..][|body|..] == tail;
    assert s[HEADER_LEN..HEADER_LEN + |body|] == body;
  }

  /** On a buffer that starts with a whole frame, `UnPack` and `ReadFull` agree if and only if the body is
      within the limit that only `ReadFull` checks. */
  lemma UnpackAgrees(c: Compressor, key: Bytes, s: Bytes, end: Error)
    requires key != [] && |s| >= HEADER_LEN && |s| >= HEADER_LEN + BodyLen(s)
    ensures Unpacked(c, key, s) == ReadFrame(c, key, s, end).0 <==> BodyLen(s) <= MAX_BYTE
  {
    assert s[HEADER_LEN..][..BodyLen(s)] == s[HEADER_LEN..HEADER_LEN + BodyLen(s)];
  }

  /** Every frame that `EncodeCopy` sends, at most 65536 bytes at a time, fits. */
  lemma ChunksFit(c: Compressor, m: Message)
    requires Lawful(c) && m.payload != [] && m.coin < 99 && |m.payload| <= 65536
    ensures Encodable(c, m) && Fits(c, m)
  {
    assert |c.zip(m.payload)| <= ZipBound(|m.payload|);
  }

  lemma {:induction false} WireAppend(c: Compressor, key: Bytes, ms: seq<Message>, more: seq<Message>)
    requires key != [] && AllEncodable(c, ms) && AllEncodable(c, more)
    ensures Wire(c, key, ms + more) == Wire(c, key, ms) + Wire(c, key, more)
  {
    if ms == [] {
      assert ms + more == more;
    } else {
      assert (ms + more)[1..] == ms[1..] + more;
      WireAppend(c, key, ms[1..], more);
    }
  }

  /** Calling `ReadFull` once per frame on the bytes of any messages that fit, however the reads split
      them, returns exactly those payloads and header numbers in order and stops at the last boundary. */
  method ReadPackets(c: Compressor, key: Bytes, r: Reader, n: nat, ghost ms: seq<Message>, ghost tail: Bytes)
      returns (ps: seq<Packet>)
    requires Lawful(c) && key != [] && AllEncodable(c, ms) && n == |ms|
    requires forall i :: 0 <= i < |ms| ==> Fits(c, ms[i])
    requires r.rest == Wire(c, key, ms) + tail
    modifies r
    ensures ps == seq(n, i requires 0 <= i < n => PacketOf(ms[i])) && r.rest == tail
  {
    hide ReadFrame, Frame, FrameOf, RandNu, Fits;
    ps := [];
    assert ms[0..] == ms;
    for k := 0 to n
      invariant r.rest == Wire(c, key, ms[k..]) + tail
      invariant |ps| == k && forall i :: 0 <= i < k ==> ps[i] == PacketOf(ms[i])
    {
      var m := ms[k];
      assert ms[k..][1..] == ms[k + 1..];
      assert r.rest == FrameOf(c, key, m) + (Wire(c, key, ms[k + 1..]) + tail);
      FrameRoundTrip(c, key, m, Wire(c, key, ms[k + 1..]) + tail, r.end);
      var p := ReadFull(c, key, r);
      ps := ps + [p.value];
    }
  }
}
