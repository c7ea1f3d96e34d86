/** One direction of a tunnel connection: frames handed to `Write`, bytes on the wire, bytes taken by the
    other end, frames parsed out of them. Writes may be partial, reads of any size, failures at any time. */
module Links {
  import opened Bytes
  import opened Compress
  import opened Framing
  import opened Protocol
  import opened Stream

  /** `sent`: every message whose frame was handed to `Write`; `pending`: the part of the current `Write`
      not yet on the wire; `buffer`: bytes in the read buffer of the receiver's connection; `inbox`: bytes
      `ReadFull` has read but not yet returned as a packet; `got`: packets returned so far; `broken`: a `Write`
      failed, after which the writer never writes again. */
  datatype Link = Link(sent: seq<Message>, pending: Bytes, wire: Bytes, buffer: Bytes, inbox: Bytes, got: nat,
                       broken: bool)

  const FRESH := Link([], [], [], [], [], 0, false)

  /** The bytes the receiver's process holds. */
  function Received(l: Link): Bytes {
    l.inbox + l.buffer
  }

  predicate CanBegin(c: Compressor, l: Link, m: Message) {
    !l.broken && l.pending == [] && Encodable(c, m)
  }

  function Begin(c: Compressor, key: Bytes, l: Link, m: Message): Link
    requires key != [] && CanBegin(c, l, m)
  {
    l.(sent := l.sent + [m], pending := FrameOf(c, key, m))
  }

  function Flush(l: Link, k: nat): Link
    requires k <= |l.pending|
  {
    l.(wire := l.wire + l.pending[..k], pending := l.pending[k..])
  }

  function Break(l: Link): Link {
    l.(pending := [], broken := true)
  }

  /** The inbox holds a whole frame. */
  predicate HoldsFrame(inbox: Bytes) {
    |inbox| >= HEADER_LEN && |inbox| >= HEADER_LEN + BodyLen(inbox)
  }

  /** How far `ReadFull` reads: the header, then the body that the header announces. */
  function Wanted(inbox: Bytes): nat {
    if |inbox| < HEADER_LEN then HEADER_LEN else HEADER_LEN + BodyLen(inbox)
  }

  /** A read of the socket into the buffer of the connection, as far as it goes. */
  predicate CanFill(l: Link, cap: nat, k: nat) {
    k <= |l.wire| && |l.buffer| + k <= cap
  }

  function Fill(l: Link, k: nat): Link
    requires k <= |l.wire|
  {
    l.(buffer := l.buffer + l.wire[..k], wire := l.wire[k..])
  }

  /** `ReadFull` reads what is buffered. */
  predicate CanFeed(l: Link, k: nat) {
    k <= |l.buffer| && |l.inbox| + k <= Wanted(l.inbox)
  }

  function Feed(l: Link, k: nat): Link
    requires CanFeed(l, k)
  {
    l.(inbox := l.inbox + l.buffer[..k], buffer := l.buffer[k..])
  }

  /** With nothing buffered, it reads the socket directly. */
  predicate CanTake(l: Link, k: nat) {
    l.buffer == [] && k <= |l.wire| && |l.inbox| + k <= Wanted(l.inbox)
  }

  function Take(l: Link, k: nat): Link
    requires CanTake(l, k)
  {
    l.(inbox := l.inbox + l.wire[..k], wire := l.wire[k..])
  }

  /** A whole frame is in the inbox and `ReadFull` accepts it. */
  predicate CanParse(c: Compressor, key: Bytes, l: Link)
    requires key != []
  {
    HoldsFrame(l.inbox) && ReadFrame(c, key, l.inbox, EOF).0.Ok?
  }

  function Parse(c: Compressor, key: Bytes, l: Link): (Bytes, Link)
    requires key != [] && CanParse(c, key, l)
  {
    var (p, rest) := ReadFrame(c, key, l.inbox, EOF);
    (p.value.payload, l.(inbox := rest, got := l.got + 1))
  }

  // ----- the invariant and its preservation -----

  /** What is between the last parsed frame and the last unwritten byte is the encoding of the frames not
      yet parsed: all of it while no write has failed, a prefix of it afterwards. */
  ghost predicate LinkInv(c: Compressor, key: Bytes, l: Link)
    requires key != []
  {
    && AllEncodable(c, l.sent)
    && l.got <= |l.sent|
    && Received(l) + l.wire + l.pending <= Wire(c, key, l.sent[l.got..])
    && (!l.broken ==> Received(l) + l.wire + l.pending == Wire(c, key, l.sent[l.got..]))
    && (l.broken ==> l.pending == [])
    && |l.inbox| <= Wanted(l.inbox)
  }

  lemma BeginKeeps(c: Compressor, key: Bytes, l: Link, m: Message)
    requires key != [] && LinkInv(c, key, l) && CanBegin(c, l, m)
    ensures LinkInv(c, key, Begin(c, key, l, m))
  {
    hide FrameOf, Encodable;
    var l' := Begin(c, key, l, m);
    assert l'.sent[l'.got..] == l.sent[l.got..] + [m];
    WireAppend(c, key, l.sent[l.got..], [m]);
    assert Wire(c, key, [m]) == FrameOf(c, key, m) by {
      assert [m][1..] == [];
    }
    assert Received(l') + l'.wire + l'.pending == (Received(l) + l.wire + l.pending) + l'.pending;
  }

  lemma FlushKeeps(c: Compressor, key: Bytes, l: Link, k: nat)
    requires key != [] && LinkInv(c, key, l) && k <= |l.pending|
    ensures LinkInv(c, key, Flush(l, k))
  {
    hide Wire, Encodable;
    var l' := Flush(l, k);
    assert Received(l') + l'.wire + l'.pending == Received(l) + l.wire + l.pending;
  }

  lemma BreakKeeps(c: Compressor, key: Bytes, l: Link)
    requires key != [] && LinkInv(c, key, l)
    ensures LinkInv(c, key, Break(l))
  {
    hide Wire, Encodable;
    assert Received(l) + l.wire + [] <= Received(l) + l.wire + l.pending;
  }

  lemma TakeKeeps(c: Compressor, key: Bytes, l: Link, k: nat)
    requires key != [] && LinkInv(c, key, l) && CanTake(l, k)
    ensures LinkInv(c, key, Take(l, k))
  {
    hide Wire, Encodable, Uint32;
    var l' := Take(l, k);
    assert |l.inbox| >= HEADER_LEN ==> l'.inbox[..4] == l.inbox[..4];
    assert Received(l') + l'.wire == Received(l) + l.wire;
  }

  lemma FillKeeps(c: Compressor, key: Bytes, l: Link, k: nat)
    requires key != [] && LinkInv(c, key, l) && k <= |l.wire|
    ensures LinkInv(c, key, Fill(l, k))
  {
    hide Wire, Encodable, Wanted;
    assert Received(Fill(l, k)) + Fill(l, k).wire == Received(l) + l.wire;
  }

  lemma FeedKeeps(c: Compressor, key: Bytes, l: Link, k: nat)
    requires key != [] && LinkInv(c, key, l) && CanFeed(l, k)
    ensures LinkInv(c, key, Feed(l, k)) && Received(Feed(l, k)) == Received(l)
  {
    hide Wire, Encodable, Uint32;
    var l' := Feed(l, k);
    assert |l.inbox| >= HEADER_LEN ==> l'.inbox[..4] == l.inbox[..4];
    assert Received(l') == Received(l);
  }

  /** Bytes that begin the encoding of some messages and contain a whole frame hold the first of them. */
  lemma FirstFrame(c: Compressor, key: Bytes, ms: seq<Message>, s: Bytes)
    requires Lawful(c) && key != [] && AllEncodable(c, ms) && s <= Wire(c, key, ms)
    requires HoldsFrame(s)
    ensures ms != [] && |FrameOf(c, key, ms[0])| == HEADER_LEN + BodyLen(s)
    ensures s == FrameOf(c, key, ms[0]) + s[|FrameOf(c, key, ms[0])|..]
  {
    hide FrameOf, Uint32, Encodable;
    var f, w := FrameOf(c, key, ms[0]), Wire(c, key, ms);
    var tail := Wire(c, key, ms[1..]);
    FrameParts(c, key, ms[0], tail);
    assert w == f + tail && s[..4] == w[..4];
    assert s == w[..|s|];
  }

  /** A packet that is returned is the next message sent, and parsing stays on frame boundaries. */
  lemma ParseKeeps(c: Compressor, key: Bytes, l: Link)
    requires Lawful(c) && key != [] && LinkInv(c, key, l) && CanParse(c, key, l)
    ensures LinkInv(c, key, Parse(c, key, l).1)
    ensures l.got < |l.sent| && Parse(c, key, l).0 == l.sent[l.got].payload
    ensures Parse(c, key, l).1 == l.(inbox := [], got := l.got + 1)
  {
    hide FrameOf, Encodable, CanParse, Parse;
    ParseIs(c, key, l);
    var ms := l.sent[l.got..];
    var f := FrameOf(c, key, ms[0]);
    var l' := Parse(c, key, l).1;
    assert ms[1..] == l'.sent[l'.got..];
    assert Received(l) + l.wire + l.pending == f + (Received(l') + l.wire + l.pending);
    DropPrefix(f, Received(l') + l.wire + l.pending, Wire(c, key, ms[1..]));
  }

  /** A frame that is parsed is the whole inbox. */
  lemma ParseIs(c: Compressor, key: Bytes, l: Link)
    requires Lawful(c) && key != [] && LinkInv(c, key, l) && CanParse(c, key, l)
    ensures l.got < |l.sent| && l.inbox == FrameOf(c, key, l.sent[l.got])
    ensures Parse(c, key, l) == (l.sent[l.got].payload, l.(inbox := [], got := l.got + 1))
  {
    hide FrameOf, Encodable, ReadFrame, Fits, Wire;
    var ms := l.sent[l.got..];
    InboxFirst(l);
    FirstFrame(c, key, ms, l.inbox);
    var f := FrameOf(c, key, ms[0]);
    FrameRoundTrip(c, key, ms[0], [], EOF);
    assert l.inbox == f == f + [];
  }

  lemma InboxFirst(l: Link)
    ensures l.inbox <= Received(l) <= Received(l) + l.wire + l.pending
  {
  }

  /** A whole frame in the inbox is the next one sent, and the receiver takes it exactly when it fits. */
  lemma TakenExactlyWhen(c: Compressor, key: Bytes, l: Link)
    requires Lawful(c) && key != [] && LinkInv(c, key, l) && HoldsFrame(l.inbox)
    ensures l.got < |l.sent| && (CanParse(c, key, l) <==> Fits(c, l.sent[l.got]))
  {
    hide FrameOf, Encodable, ReadFrame, Fits;
    var ms := l.sent[l.got..];
    InboxFirst(l);
    FirstFrame(c, key, ms, l.inbox);
    FrameRoundTrip(c, key, ms[0], l.inbox[|FrameOf(c, key, ms[0])|..], EOF);
  }

  // ----- whole frames among the bytes received -----

  /** How many whole frames some bytes begin with, by their headers alone. */
  function WholeFrames(s: Bytes): nat {
    if HoldsFrame(s) then 1 + WholeFrames(s[HEADER_LEN + BodyLen(s)..]) else 0
  }

  lemma WholeFramesSplit(f: Bytes, rest: Bytes)
    requires HoldsFrame(f) && |f| == HEADER_LEN + BodyLen(f)
    ensures WholeFrames(f + rest) == 1 + WholeFrames(rest)
  {
    assert (f + rest)[..4] == f[..4] && (f + rest)[|f|..] == rest;
  }

  /** They are frames that were sent. */
  lemma {:induction false} WholeAreSent(c: Compressor, key: Bytes, ms: seq<Message>, s: Bytes)
    requires Lawful(c) && key != [] && AllEncodable(c, ms) && s <= Wire(c, key, ms)
    ensures WholeFrames(s) <= |ms|
  {
    hide FrameOf, Encodable;
    if HoldsFrame(s) {
      FirstFrame(c, key, ms, s);
      var f := FrameOf(c, key, ms[0]);
      DropPrefix(f, s[|f|..], Wire(c, key, ms[1..]));
      WholeAreSent(c, key, ms[1..], s[|f|..]);
    }
  }

  /** Parsing takes exactly one of them. */
  lemma ParseTakesOne(c: Compressor, key: Bytes, l: Link)
    requires Lawful(c) && key != [] && LinkInv(c, key, l) && CanParse(c, key, l)
    ensures WholeFrames(Received(l)) == 1 + WholeFrames(Received(Parse(c, key, l).1))
  {
    ParseKeeps(c, key, l);
    hide Wire, ReadFrame, WholeFrames, Encodable;
    WholeFramesSplit(l.inbox, l.buffer);
    assert [] + l.buffer == l.buffer;
  }

  lemma DropPrefix(f: Bytes, a: Bytes, b: Bytes)
    requires f + a <= f + b
    ensures a <= b && (f + a == f + b ==> a == b)
  {
    assert a == (f + a)[|f|..] && b == (f + b)[|f|..];
  }
}
