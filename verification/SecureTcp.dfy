/** The encoding copy loop: plain bytes in, frames out. */
module SecureTcp {
  import opened Bytes
  import opened Compress
  import opened Framing
  import opened Protocol
  import opened Stream

  const BUF_SIZE: nat := 65536

  /** Only a part of the data was appended. */
  ghost predicate Cut(before: Bytes, after: Bytes, data: Bytes) {
    before <= after <= before + data && after != before + data
  }

  /** A connection with this much room takes `n` bytes. */
  predicate Accepts(room: Option<nat>, n: nat) {
    room.None? || n <= room.value
  }

  /** What it takes of some data. */
  function Accepted(room: Option<nat>, data: Bytes): Bytes {
    if Accepts(room, |data|) then data else data[..room.value]
  }

  function RoomAfter(room: Option<nat>, n: nat): Option<nat> {
    if room.None? then None else if n <= room.value then Some(room.value - n) else Some(0)
  }

  /** Two writes of which the first fits are one write of both. */
  lemma AcceptedTwice(room: Option<nat>, a: Bytes, b: Bytes)
    requires Accepts(room, |a|)
    ensures Accepted(room, a + b) == a + Accepted(RoomAfter(room, |a|), b)
    ensures Accepts(room, |a| + |b|) <==> Accepts(RoomAfter(room, |a|), |b|)
    ensures RoomAfter(RoomAfter(room, |a|), |b|) == RoomAfter(room, |a| + |b|)
  {
  }

  /** A connection being written: it accepts `room` more bytes and then fails for good. */
  class Writer {
    var out: Bytes
    var room: Option<nat>

    constructor (room: Option<nat>)
      ensures out == [] && this.room == room
    {
      out, this.room := [], room;
    }

    /** `Write`: all of the data while there is room for it, otherwise the part that fits and an error. */
    method Write(data: Bytes) returns (err: Option<Error>)
      modifies this
      ensures err == if Accepts(old(room), |data|) then None else Some(Broken)
      ensures out == old(out) + Accepted(old(room), data) && room == RoomAfter(old(room), |data|)
      ensures err == None ==> out == old(out) + data
      ensures err.Some? ==> Cut(old(out), out, data)
    {
      if room.Some? && room.value < |data| {
        var k := room.value;
        out := out + data[..k];
        room := Some(0);
        err := Some(Broken);
      } else {
        out := out + data;
        room := if room.Some? then Some(room.value - |data|) else None;
        err := None;
      }
    }
  }

  lemma WireSnoc(c: Compressor, key: Bytes, ms: seq<Message>, m: Message)
    requires key != [] && AllEncodable(c, ms) && Encodable(c, m)
    ensures AllEncodable(c, ms + [m]) && Wire(c, key, ms + [m]) == Wire(c, key, ms) + FrameOf(c, key, m)
  {
    hide Encodable, FrameOf;
    WireAppend(c, key, ms, [m]);
    assert [m][1..] == [];
  }

  lemma EmptySend(c: Compressor, key: Bytes)
    requires key != []
    ensures Payloads([]) == [] && Wire(c, key, []) == []
  {
  }

  /** Each message is one read: as many bytes as the schedule offers of those left, at most 65536. */
  ghost predicate Chunked(sent: seq<Message>, size: nat -> nat, turn: nat, total: nat, coin: nat -> nat) {
    sent != [] ==>
      var front, m, i := sent[..|sent| - 1], sent[|sent| - 1], |sent| - 1;
      && Chunked(front, size, turn, total, coin) && |Payloads(front)| < total
      && m.coin == coin(i) && |m.payload| == ReadSize(size(turn + i), 65536, total - |Payloads(front)|)
  }

  lemma NothingChunked(size: nat -> nat, turn: nat, total: nat, coin: nat -> nat)
    ensures Chunked([], size, turn, total, coin)
  {
  }

  lemma ChunkedSnoc(sent: seq<Message>, m: Message, size: nat -> nat, turn: nat, total: nat, coin: nat -> nat)
    requires Chunked(sent, size, turn, total, coin) && |Payloads(sent)| < total && m.coin == coin(|sent|)
    requires |m.payload| == ReadSize(size(turn + |sent|), 65536, total - |Payloads(sent)|)
    ensures Chunked(sent + [m], size, turn, total, coin)
  {
    hide Payloads, ReadSize;
    assert (sent + [m])[..|sent|] == sent;
  }

  lemma {:induction false} ChunkSizes(sent: seq<Message>, size: nat -> nat, turn: nat, total: nat, coin: nat -> nat)
    requires Chunked(sent, size, turn, total, coin)
    ensures forall i :: 0 <= i < |sent| ==> 0 < |sent[i].payload| <= 65536
  {
    if sent != [] {
      hide Payloads, ReadSize;
      ChunkSizes(sent[..|sent| - 1], size, turn, total, coin);
    }
  }

  lemma MoveOver(done: Bytes, before: Bytes, b: Bytes, rest: Bytes)
    requires |b| <= |before| && b == before[..|b|] && rest == before[|b|..]
    ensures done + before == done + b + rest
  {
  }

  lemma EmptyFits(room: Option<nat>)
    ensures Accepts(room, 0) && room == RoomAfter(room, 0)
  {
  }

  lemma FitsWhole(room: Option<nat>, data: Bytes)
    requires Accepts(room, |data|)
    ensures Accepted(room, data) == data
  {
  }

  /** `EncodeWrite`: one message becomes one frame on the connection, possibly cut short by an error. */
  method EncodeWrite(c: Compressor, token: Bytes, bs: Bytes, coin: nat, dst: Writer) returns (err: Option<Error>)
    requires token != [] && coin < 99
    modifies dst
    ensures !Encodable(c, Message(bs, coin)) ==> err.Some? && dst.out == old(dst.out)
    ensures err == None ==>
              Encodable(c, Message(bs, coin)) && dst.out == old(dst.out) + FrameOf(c, token, Message(bs, coin))
    ensures err.Some? && Encodable(c, Message(bs, coin)) ==>
              err == Some(Broken) && Cut(old(dst.out), dst.out, FrameOf(c, token, Message(bs, coin)))
    ensures Encodable(c, Message(bs, coin)) ==>
              var f := FrameOf(c, token, Message(bs, coin));
              && (err == None <==> Accepts(old(dst.room), |f|))
              && dst.out == old(dst.out) + Accepted(old(dst.room), f) && dst.room == RoomAfter(old(dst.room), |f|)
  {
    var data := Encode(c, token, bs, coin);
    EncodeSucceeds(c, token, Message(bs, coin));
    hide Cut, Encodable, Frame, Accepts, Accepted, RoomAfter;
    if data.Err? {
      return Some(data.error);
    }
    err := dst.Write(data.value);
  }

  /** One chunk of the copy loop, after the frames of `was` went out on a connection with `out` and `room`. */
  method SendChunk(c: Compressor, token: Bytes, b: Bytes, coin: nat, dst: Writer,
                   ghost was: seq<Message>, ghost out: Bytes, ghost room: Option<nat>) returns (err: Option<Error>)
    requires token != [] && coin < 99 && AllEncodable(c, was) && Encodable(c, Message(b, coin))
    requires dst.out == out + Wire(c, token, was) && Accepts(room, |Wire(c, token, was)|)
    requires dst.room == RoomAfter(room, |Wire(c, token, was)|)
    modifies dst
    ensures AllEncodable(c, was + [Message(b, coin)])
    ensures var wire := Wire(c, token, was + [Message(b, coin)]);
            && err == (if Accepts(room, |wire|) then None else Some(Broken))
            && dst.out == out + Accepted(room, wire) && dst.room == RoomAfter(room, |wire|)
            && (err == None ==> dst.out == out + wire)
    ensures err.Some? ==> Cut(out + Wire(c, token, was), dst.out, FrameOf(c, token, Message(b, coin)))
  {
    hide Encodable, FrameOf, Wire, Cut, Accepts, Accepted, RoomAfter;
    ghost var m := Message(b, coin);
    WireSnoc(c, token, was, m);
    AcceptedTwice(room, Wire(c, token, was), FrameOf(c, token, m));
    err := EncodeWrite(c, token, b, coin, dst);
    assert out + Wire(c, token, was) + FrameOf(c, token, m) == out + Wire(c, token, was + [m]);
  }

  /** How the source is read: the sizes offered, whether the last bytes come with the final error, the first turn. */
  datatype Schedule = Schedule(size: nat -> nat, eager: nat -> bool, turn: nat)

  /** The copy loop between two reads: the messages `sent` of `all`, and the connection that began with `out` and `room`
      as it is now. */
  ghost predicate Copied(c: Compressor, token: Bytes, coin: nat -> nat, r: Schedule, all: Bytes, sent: seq<Message>,
                         rest: Bytes, out: Bytes, room: Option<nat>, out': Bytes, room': Option<nat>)
    requires token != []
  {
    && AllEncodable(c, sent) && Chunked(sent, r.size, r.turn, |all|, coin) && Payloads(sent) + rest == all
    && (sent != [] && rest == [] ==> !r.eager(r.turn + |sent| - 1))
    && out' == out + Wire(c, token, sent) && Accepts(room, |Wire(c, token, sent)|)
    && room' == RoomAfter(room, |Wire(c, token, sent)|)
  }

  lemma NothingCopied(c: Compressor, token: Bytes, coin: nat -> nat, r: Schedule, all: Bytes, out: Bytes,
                      room: Option<nat>)
    requires token != []
    ensures Copied(c, token, coin, r, all, [], all, out, room, out, room)
  {
    EmptySend(c, token);
    NothingChunked(r.size, r.turn, |all|, coin);
    EmptyFits(room);
  }

  /** One turn of the copy loop that read `b`. */
  method CopyChunk(c: Compressor, token: Bytes, b: Bytes, coin: nat -> nat, dst: Writer, ghost r: Schedule,
                   ghost all: Bytes, ghost was: seq<Message>, ghost rest: Bytes, ghost out: Bytes,
                   ghost room: Option<nat>, turn: nat)
      returns (err: Option<Error>)
    requires Lawful(c) && token != [] && turn == |was| && coin(turn) < 99 && 0 < |b| <= 65536
    requires Copied(c, token, coin, r, all, was, b + rest, out, room, dst.out, dst.room)
    requires |b| == ReadSize(r.size(r.turn + turn), 65536, |b + rest|) && (rest == [] ==> !r.eager(r.turn + turn))
    modifies dst
    ensures var sent := was + [Message(b, coin(turn))];
            && AllEncodable(c, sent) && Chunked(sent, r.size, r.turn, |all|, coin) && Payloads(sent) + [] + rest == all
            && err == (if Accepts(room, |Wire(c, token, sent)|) then None else Some(Broken))
            && dst.out == out + Accepted(room, Wire(c, token, sent))
            && (err == None ==> Copied(c, token, coin, r, all, sent, rest, out, room, dst.out, dst.room))
            && (err.Some? ==> Cut(out + Wire(c, token, was), dst.out, FrameOf(c, token, Message(b, coin(turn)))))
  {
    hide Encodable, FrameOf, Wire, Payloads, Cut, Accepts, Accepted, RoomAfter, ReadSize, Chunked, Lawful, Fits;
    ghost var m := Message(b, coin(turn));
    ChunksFit(c, m);
    PayloadsSnoc(was, m);
    MoveOver(Payloads(was), b + rest, b, rest);
    ChunkedSnoc(was, m, r.size, r.turn, |all|, coin);
    assert Payloads(was) + b + [] == Payloads(was) + b;
    err := SendChunk(c, token, b, coin(turn), dst, was, out, room);
  }

  /** `EncodeCopy`: cuts what it reads into chunks of at most 65536 bytes and sends each as one frame.
      The frames sent carry a prefix of the source; after a write error the last frame is cut short; with
      no write error they are on the connection whole, and all that is missing of the source are the bytes
      that arrived together with the final error. It fails unless the source ended with end-of-file. */
  method EncodeCopy(c: Compressor, token: Bytes, src: Reader, dst: Writer, coin: nat -> nat)
      returns (err: Option<Error>, ghost sent: seq<Message>, ghost dropped: Bytes, ghost cut: bool)
    requires Lawful(c) && token != [] && forall i :: coin(i) < 99
    modifies src, dst
    ensures AllEncodable(c, sent) && forall i :: 0 <= i < |sent| ==> 0 < |sent[i].payload| <= 65536
    ensures Chunked(sent, src.size, old(src.turn), |old(src.rest)|, coin)
    ensures Payloads(sent) + dropped + src.rest == old(src.rest)
    ensures dropped != [] ==> src.rest == [] && |dropped| <= 65536 && src.eager(old(src.turn) + |sent|)
    ensures !cut && dropped == [] && sent != [] ==> !src.eager(old(src.turn) + |sent| - 1)
    ensures !cut ==> dst.out == old(dst.out) + Wire(c, token, sent) && src.rest == []
    ensures !cut ==> err == if src.end == EOF then None else Some(src.end)
    ensures cut ==> err == Some(Broken) && sent != [] && dropped == []
    ensures cut ==>
              Cut(old(dst.out) + Wire(c, token, sent[..|sent| - 1]), dst.out, FrameOf(c, token, sent[|sent| - 1]))
    ensures cut <==> !Accepts(old(dst.room), |Wire(c, token, sent)|)
    ensures dst.out == old(dst.out) + Accepted(old(dst.room), Wire(c, token, sent))
  {
    hide Encodable, FrameOf, Wire, Payloads, Cut, Accepts, Accepted, RoomAfter, ReadSize, Chunked, Lawful, Copied,
         AllEncodable;
    ghost var r, all, out, room := Schedule(src.size, src.eager, src.turn), src.rest, dst.out, dst.room;
    NothingCopied(c, token, coin, r, all, out, room);
    sent, dropped, cut := [], [], false;
    var turn := 0;
    while true
      invariant Copied(c, token, coin, r, all, sent, src.rest, out, room, dst.out, dst.room)
      invariant turn == |sent| && src.turn == r.turn + turn && dropped == [] && !cut
      decreases |src.rest|
    {
      ghost var before, was := src.rest, sent;
      var b, errRead := src.Read(BUF_SIZE);
      if errRead.Some? {
        dropped := b;
        assert b == before;
        CopyEnds(c, token, coin, r, all, sent, before, out, room, dst.out, dst.room);
        return if errRead.value == EOF then None else Some(errRead.value), sent, dropped, cut;
      }
      if |b| > 0 {
        assert before == b + src.rest;
        err := CopyChunk(c, token, b, coin, dst, r, all, was, src.rest, out, room, turn);
        sent := sent + [Message(b, coin(turn))];
        ChunkSizes(sent, r.size, r.turn, |all|, coin);
        if err.Some? {
          cut := true;
          assert sent[..|sent| - 1] == was;
          return;
        }
      }
      turn := turn + 1;
    }
  }

  /** At the end of the source everything sent is on the connection. */
  lemma CopyEnds(c: Compressor, token: Bytes, coin: nat -> nat, r: Schedule, all: Bytes, sent: seq<Message>,
                 rest: Bytes, out: Bytes, room: Option<nat>, out': Bytes, room': Option<nat>)
    requires token != [] && Copied(c, token, coin, r, all, sent, rest, out, room, out', room')
    ensures AllEncodable(c, sent) && Chunked(sent, r.size, r.turn, |all|, coin) && Payloads(sent) + rest == all
    ensures Payloads(sent) + rest + [] == all
    ensures sent != [] && rest == [] ==> !r.eager(r.turn + |sent| - 1)
    ensures out' == out + Wire(c, token, sent) && Accepts(room, |Wire(c, token, sent)|)
    ensures out' == out + Accepted(room, Wire(c, token, sent))
    ensures forall i :: 0 <= i < |sent| ==> 0 < |sent[i].payload| <= 65536
  {
    FitsWhole(room, Wire(c, token, sent));
    ChunkSizes(sent, r.size, r.turn, |all|, coin);
  }
}
