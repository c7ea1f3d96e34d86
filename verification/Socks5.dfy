/** The SOCKS5 request (sections 4 and 5 of RFC 1928), read into a fixed buffer under partial reads. */
module Socks5 {
  import opened Bytes
  import opened HostPort
  import opened Stream

  const VERSION: byte := 5
  const ATYP_IPV4: byte := 1
  const ATYP_DOMAIN: byte := 3
  const ATYP_IPV6: byte := 4
  const BUF_SIZE: nat := 258

  datatype Request = Request(cmd: byte, host: Host, port: nat)

  datatype Failure = Io(error: Error) | ErrorVersion | IndexPanic

  // ----- the format -----

  predicate WellFormed(r: Request) {
    && r.port < 0x1_0000
    && match r.host
       case Address(ip) => |ip| == 4 || |ip| == 16
       case Domain(name) => |name| <= 255
  }

  /** A request as a client sends it. */
  function Encode(r: Request): Bytes
    requires WellFormed(r)
  {
    var addr :=
      match r.host
      case Address(ip) => [if |ip| == 4 then ATYP_IPV4 else ATYP_IPV6] + ip
      case Domain(name) => [ATYP_DOMAIN, |name| as byte] + name;
    [VERSION, r.cmd, 0] + addr + PutUint16(r.port)
  }

  // ----- what the code makes of a stream -----

  function AddrLen(s: Bytes): nat
    requires |s| >= 10
  {
    if s[3] == ATYP_IPV4 then 4
    else if s[3] == ATYP_DOMAIN then s[4] as nat + 1
    else if s[3] == ATYP_IPV6 then 16
    else 0
  }

  function MsgLen(s: Bytes): nat
    requires |s| >= 10
  {
    6 + AddrLen(s)
  }

  /** The stream holds what `processRequest` needs. */
  predicate Complete(s: Bytes) {
    |s| >= 10 && s[0] == VERSION && MsgLen(s) <= BUF_SIZE && |s| >= MsgLen(s)
  }

  function Requested(s: Bytes): Request
    requires Complete(s)
  {
    var h := AddrLen(s);
    var addr := s[4..4 + h];
    var host := if s[3] == ATYP_DOMAIN then Domain(addr[1..]) else Address(addr);
    Request(s[1], host, Uint16(s[4 + h..6 + h]))
  }

  /** How many bytes the first read loop gets, under a schedule of read sizes. */
  function FirstRead(size: nat -> nat, turn: nat, s: Bytes): (n: nat)
    ensures n <= BUF_SIZE && n <= |s| && (|s| >= 10 ==> n >= 10) && (|s| < 10 ==> n == |s|)
  {
    Gathered(size, turn, 0, 10, BUF_SIZE, |s|)
  }

  /** How many bytes a complete request takes off the stream. */
  function Consumed(size: nat -> nat, turn: nat, s: Bytes): nat
    requires Complete(s)
  {
    var n := FirstRead(size, turn, s);
    if n < MsgLen(s) then MsgLen(s) else n
  }

  /** Everything `processRequest` can return. Only how a request cut short by end-of-file is reported depends
      on the reads. */
  function Processed(size: nat -> nat, turn: nat, s: Bytes, end: Error): Result<Request, Failure> {
    if |s| < 10 then Err(Io(ShortRead(|s|, end)))
    else if s[0] != VERSION then Err(ErrorVersion)
    else if MsgLen(s) > BUF_SIZE then Err(IndexPanic)
    else if |s| < MsgLen(s) then Err(Io(ShortRead(|s| - FirstRead(size, turn, s), end)))
    else Ok(Requested(s))
  }

  /** The bytes of the request alone decide what is requested. */
  lemma PrefixDecides(s: Bytes, msg: Bytes)
    requires Complete(s) && msg == s[..MsgLen(s)]
    ensures var h := AddrLen(s);
            && msg[1] == s[1] && msg[3] == s[3]
            && msg[4..4 + h] == s[4..4 + h] && msg[4 + h..6 + h] == s[4 + h..6 + h]
  {
  }

  /** A request and the bytes of a stream that begins with it, position by position: the host from byte 4, or from
      byte 5 for a name, and then the port, most significant byte first. */
  ghost predicate LaidOut(s: Bytes, q: Request) {
    && |s| >= 10 && s[0] == 5 && q.cmd == s[1]
    && (s[3] == 1 ==> q.host == Address(s[4..8]) && q.port == s[8] as nat * 0x100 + s[9] as nat)
    && (s[3] == 3 ==>
          var n := s[4] as nat;
          |s| >= 7 + n && q.host == Domain(s[5..5 + n]) && q.port == s[5 + n] as nat * 0x100 + s[6 + n] as nat)
    && (s[3] == 4 ==> |s| >= 22 && q.host == Address(s[4..20]) && q.port == s[20] as nat * 0x100 + s[21] as nat)
    && (s[3] !in [1, 3, 4] ==> q.host == Address([]) && q.port == s[4] as nat * 0x100 + s[5] as nat)
  }

  lemma RequestedLaidOut(s: Bytes)
    requires Complete(s)
    ensures LaidOut(s, Requested(s))
  {
    var h := AddrLen(s);
    assert s[4 + h..6 + h][0] == s[4 + h] && s[4 + h..6 + h][1] == s[5 + h];
    if s[3] == 3 {
      assert s[4..4 + h][1..] == s[5..4 + h];
    }
  }

  /** The end of `processRequest`: address and port out of the whole message. */
  method Extract(msg: Bytes, hlen: nat, ghost s: Bytes) returns (q: Request)
    requires Complete(s) && hlen == AddrLen(s) && msg == s[..MsgLen(s)]
    ensures q == Requested(s) && LaidOut(s, q)
  {
    hide Uint16, LaidOut;
    PrefixDecides(s, msg);
    RequestedLaidOut(s);
    var addr := msg[4..4 + hlen];
    var host := if msg[3] == ATYP_DOMAIN then Domain(addr[1..]) else Address(addr);
    var port := Uint16(msg[|msg| - 2..]);
    assert msg[|msg| - 2..] == msg[4 + hlen..6 + hlen];
    q := Request(msg[1], host, port);
  }

  /** `processRequest`: succeeds on the complete requests, however the bytes are split across reads; a name too
      long for the buffer panics. */
  method ProcessRequest(r: Reader) returns (res: Result<Request, Failure>)
    modifies r
    ensures res.Ok? <==> Complete(old(r.rest))
    ensures res == Processed(r.size, old(r.turn), old(r.rest), r.end)
    ensures res.Ok? ==> LaidOut(old(r.rest), res.value)
    ensures res.Ok? ==> r.rest == old(r.rest)[Consumed(r.size, old(r.turn), old(r.rest))..]
  {
    hide Gathered, LaidOut, Requested;
    var buf := new byte[BUF_SIZE](_ => 0);
    var n, err := r.ReadAtLeast(buf, 0, 10);
    if err.Some? {
      return Err(Io(err.value));
    }
    ghost var s := old(r.rest);
    assert forall p {:trigger buf[p]} :: 0 <= p < n ==> buf[p] == s[p] by {
      assert forall p {:trigger buf[p]} :: 0 <= p < n ==> buf[0..n][p] == buf[p];
    }
    if buf[0] != VERSION {
      return Err(ErrorVersion);
    }
    var hlen := 0;
    if buf[3] == ATYP_IPV4 {
      hlen := 4;
    } else if buf[3] == ATYP_DOMAIN {
      hlen := buf[4] as nat + 1;
    } else if buf[3] == ATYP_IPV6 {
      hlen := 16;
    }
    var msglen := 6 + hlen;
    assert msglen == MsgLen(s);
    if msglen > BUF_SIZE {
      return Err(IndexPanic);
    }
    if n < msglen {
      err := r.ReadFull(buf, n, msglen);
      if err.Some? {
        return Err(Io(err.value));
      }
    }
    assert buf[..msglen] == s[..msglen];
    var q := Extract(buf[..msglen], hlen, s);
    res := Ok(q);
    assert r.rest == s[if n < msglen then msglen else n..];
  }

  /** Reads as large as the buffer allows. */
  function Greedy(turn: nat): nat {
    BUF_SIZE
  }

  /** Bytes that follow the request are never swallowed, under any schedule of reads, if and only if there are
      none or the request fills the buffer. A single large read swallows them otherwise. */
  lemma NothingSwallowedExactlyWhen(s: Bytes)
    requires Complete(s)
    ensures (forall size: nat -> nat, turn: nat {:trigger Consumed(size, turn, s)} ::
              Consumed(size, turn, s) == MsgLen(s))
            <==> |s| == MsgLen(s) || MsgLen(s) == BUF_SIZE
    ensures |s| > MsgLen(s) && MsgLen(s) < BUF_SIZE ==>
              Consumed(Greedy, 0, s) == if |s| < BUF_SIZE then |s| else BUF_SIZE
  {
    var k := ReadSize(Greedy(0), BUF_SIZE, |s|);
    assert Gathered(Greedy, 0, 0, 10, BUF_SIZE, |s|) == Gathered(Greedy, 1, k, 10, BUF_SIZE, |s| - k) == k;
    assert Consumed(Greedy, 0, s) == k;
  }

  // ----- round trip -----

  lemma AddressRoundTrip(r: Request, later: Bytes)
    requires WellFormed(r) && r.host.Address?
    ensures var s := Encode(r) + later;
            && (Complete(s) <==> |s| >= 10)
            && (Complete(s) ==> Requested(s) == r && MsgLen(s) == |Encode(r)|)
  {
    hide Uint16, PutUint16;
    var s, ip, port := Encode(r) + later, r.host.ip, PutUint16(r.port);
    var head := [VERSION, r.cmd, 0, if |ip| == 4 then ATYP_IPV4 else ATYP_IPV6];
    assert s == head + ip + (port + later) && s == (head + ip) + port + later;
    Middle(s, head, ip, port + later);
    Middle(s, head + ip, port, later);
  }

  lemma DomainRoundTrip(r: Request, later: Bytes)
    requires WellFormed(r) && r.host.Domain?
    ensures var s := Encode(r) + later;
            && (Complete(s) <==> |s| >= 10 && |r.host.name| <= 251)
            && (Complete(s) ==> Requested(s) == r && MsgLen(s) == |Encode(r)|)
            && (|s| >= 10 && |r.host.name| > 251 ==> s[0] == VERSION && MsgLen(s) > BUF_SIZE)
  {
    hide Uint16, PutUint16;
    var s, name, port := Encode(r) + later, r.host.name, PutUint16(r.port);
    var head := [VERSION, r.cmd, 0, ATYP_DOMAIN, |name| as byte];
    assert s == head + name + (port + later) && s == (head + name) + port + later;
    Middle(s, head, name, port + later);
    Middle(s, head + name, port, later);
    if |s| >= 10 {
      assert s[4..5 + |name|][1..] == s[5..5 + |name|];
    }
  }

  /** The request is recovered from its encoding, whatever follows it, if and only if the name is at most 251
      bytes and ten bytes arrive at all; a longer name overruns the buffer. */
  lemma RequestRoundTrip(r: Request, later: Bytes)
    requires WellFormed(r)
    ensures var s := Encode(r) + later;
            && (Complete(s) <==> |s| >= 10 && (r.host.Domain? ==> |r.host.name| <= 251))
            && (Complete(s) ==> Requested(s) == r && LaidOut(s, r) && MsgLen(s) == |Encode(r)|)
            && (|s| >= 10 && r.host.Domain? && |r.host.name| > 251 ==> s[0] == VERSION && MsgLen(s) > BUF_SIZE)
  {
    hide Encode, Complete, Requested, LaidOut, MsgLen;
    if r.host.Address? {
      AddressRoundTrip(r, later);
    } else {
      DomainRoundTrip(r, later);
    }
    if Complete(Encode(r) + later) {
      RequestedLaidOut(Encode(r) + later);
    }
  }

  /** A request that was encoded becomes the destination it names, under any schedule of reads and whatever
      follows it, if and only if the text of the host has no square brackets. */
  lemma RequestBecomesDestination(r: Request, later: Bytes, size: nat -> nat, turn: nat, end: Error,
                                  show: Bytes -> Bytes)
    requires WellFormed(r) && Complete(Encode(r) + later)
    ensures var res := Processed(size, turn, Encode(r) + later, end);
            && res == Ok(r)
            && (Destination(res.value.host, res.value.port, show) == IP(HostText(r.host, show), r.port) <==>
                  NoBrackets(HostText(r.host, show)))
  {
    hide Encode, Printed, ReadDest;
    RequestRoundTrip(r, later);
    DestinationExactlyWhen(r.host, r.port, show);
  }
}
