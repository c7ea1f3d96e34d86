/** The SOCKS4 and SOCKS4a request, taken from whatever the first read delivers. */
module Socks4 {
  import opened Bytes
  import opened HostPort
  import opened Stream

  const VERSION: byte := 4
  const CONNECT: byte := 1
  const BUF_SIZE: nat := 4096

  datatype Target = Target(host: Host, port: nat)

  datatype Failure = RequestRejected | UnknownCode | IdentdMismatched | SlicePanic

  // ----- the format -----

  /** The address form that announces a domain name: 0.0.0.x with x not zero. */
  predicate Announces4a(ip: Bytes)
    requires |ip| == 4
  {
    ip[0] == 0 && ip[1] == 0 && ip[2] == 0 && ip[3] != 0
  }

  predicate NullFree(s: Bytes) {
    0 !in s
  }

  /** A request as a client sends it; `name` is present in the 4a form only. */
  function Encode(port: nat, ip: Bytes, user: Bytes, name: Bytes): Bytes
    requires port < 0x1_0000 && |ip| == 4
  {
    Head(port, ip) + user + Tail(ip, name)
  }

  function Head(port: nat, ip: Bytes): (h: Bytes)
    requires port < 0x1_0000 && |ip| == 4
    ensures |h| == 8
  {
    [VERSION, CONNECT] + PutUint16(port) + ip
  }

  /** From the end of the user name on. */
  function Tail(ip: Bytes, name: Bytes): (t: Bytes)
    requires |ip| == 4
    ensures t != [] && t[0] == 0
  {
    if Announces4a(ip) then [0] + name + [0] else [0]
  }

  // ----- what the code makes of the bytes it got -----

  /** The first null at or after `from`, or the end. */
  function NullAt(s: Bytes, from: nat): (j: nat)
    requires from <= |s|
    ensures from <= j <= |s|
    ensures forall p :: from <= p < j ==> s[p] != 0
    ensures j < |s| ==> s[j] == 0
    decreases |s| - from
  {
    if from == |s| || s[from] == 0 then from else NullAt(s, from + 1)
  }

  lemma NullAtIs(s: Bytes, from: nat, j: nat)
    requires from <= j <= |s| && (forall p :: from <= p < j ==> s[p] != 0) && (j < |s| ==> s[j] == 0)
    ensures NullAt(s, from) == j
  {
  }

  function UserOf(got: Bytes): Bytes
    requires |got| >= 8
  {
    got[8..NullAt(got, 8)]
  }

  /** The target in the bytes of the first read. */
  function Parsed(got: Bytes, verify: Bytes -> bool): Result<Target, Failure>
    requires 8 <= |got| <= BUF_SIZE
  {
    if got[1] != CONNECT then Err(UnknownCode)
    else if !verify(UserOf(got)) then Err(IdentdMismatched)
    else
      var port, ip, j := Uint16(got[2..4]), got[4..8], NullAt(got, 8);
      if !Announces4a(ip) then Ok(Target(Address(ip), port))
      else if j < |got| then Ok(Target(Domain(got[j + 1..NullAt(got, j + 1)]), port))
      else if |got| < BUF_SIZE then Ok(Target(Domain([]), port))   // an empty slice past the end, within capacity
      else Err(SlicePanic)
  }

  /** A target and the bytes it was read from, position by position: port, then address, then for 0.0.0.x the name
      behind the user name. */
  ghost predicate LaidOut(got: Bytes, t: Target)
    requires |got| >= 8
  {
    && got[1] == 1 && t.port == got[2] as nat * 0x100 + got[3] as nat
    && (if got[4] == 0 && got[5] == 0 && got[6] == 0 && got[7] != 0
        then t.host.Domain? && NullFree(t.host.name) else t.host == Address(got[4..8]))
  }

  lemma ParsedLaidOut(got: Bytes, verify: Bytes -> bool)
    requires 8 <= |got| <= BUF_SIZE
    ensures Parsed(got, verify) == Err(UnknownCode) <==> got[1] != 1
    ensures Parsed(got, verify) == Err(IdentdMismatched) <==> got[1] == 1 && !verify(got[8..NullAt(got, 8)])
    ensures Parsed(got, verify).Ok? ==> LaidOut(got, Parsed(got, verify).value)
  {
    hide NullAt;
    assert got[2..4][0] == got[2] && got[2..4][1] == got[3];
    var ip := got[4..8];
    assert ip[0] == got[4] && ip[1] == got[5] && ip[2] == got[6] && ip[3] == got[7];
  }

  /** `readUntilNull`: accumulates up to the first null byte. */
  method ReadUntilNull(src: Bytes) returns (r: Bytes)
    ensures r == src[..NullAt(src, 0)]
  {
    r := [];
    for i := 0 to |src|
      invariant r == src[..i] && forall p :: 0 <= p < i ==> src[p] != 0
    {
      if src[i] == 0 {
        NullAtIs(src, 0, i);
        return;
      }
      r := r + [src[i]];
    }
    NullAtIs(src, 0, |src|);
  }

  /** The index scan of the handshake, over the buffer without its first byte. */
  method ScanNull(buf: Bytes, from: nat) returns (j: nat)
    requires from <= |buf|
    ensures j == NullAt(buf, from)
  {
    j := from;
    while j < |buf|
      invariant from <= j <= |buf| && forall p :: from <= p < j ==> buf[p] != 0
    {
      if buf[j] == 0 {
        break;
      }
      j := j + 1;
    }
    NullAtIs(buf, from, j);
  }

  lemma NullAtTail(s: Bytes, k: nat, from: nat)
    requires k <= from <= |s|
    ensures NullAt(s[k..], from - k) == NullAt(s, from) - k
  {
    NullAtIs(s[k..], from - k, NullAt(s, from) - k);
  }

  /** The 4a half of the handshake: from the end of the user name to the end of the domain name. */
  method DomainAfter(b: Bytes, j: nat, ghost got: Bytes) returns (host: Result<Bytes, Failure>)
    requires 8 <= |got| <= BUF_SIZE && b == got[1..] && j + 1 == NullAt(got, 8)
    ensures host ==
            if j < |b| then Ok(got[j + 2..NullAt(got, j + 2)]) else if |got| < BUF_SIZE then Ok([]) else Err(SlicePanic)
  {
    hide NullAt;
    var i := j + 1;
    if i > |b| {
      // nothing left to scan: the slice is empty, and legal only up to the capacity
      if i > BUF_SIZE - 1 {
        return Err(SlicePanic);
      }
      return Ok([]);
    }
    NullAtTail(got, 1, i + 1);
    var end := ScanNull(b, i);
    assert b[i..end] == got[i + 1..end + 1];
    host := Ok(b[i..end]);
  }

  /** The handshake on the bytes of the first read. The name used for the user check and the scan that finds
      the domain agree on where the user name ends. */
  method ParseRequest(got: Bytes, verify: Bytes -> bool) returns (res: Result<Target, Failure>)
    requires 8 <= |got| <= BUF_SIZE
    ensures res == Parsed(got, verify)
    ensures res == Err(UnknownCode) <==> got[1] != 1
    ensures res == Err(IdentdMismatched) <==> got[1] == 1 && !verify(got[8..NullAt(got, 8)])
    ensures res.Ok? ==> LaidOut(got, res.value)
  {
    hide Uint16, NullAt, LaidOut;
    ParsedLaidOut(got, verify);
    var b := got[1..];
    if b[0] != CONNECT {
      return Err(UnknownCode);
    }
    assert b[7..] == got[8..];
    NullAtTail(got, 8, 8);
    var user := ReadUntilNull(b[7..]);
    assert user == UserOf(got);
    if !verify(user) {
      return Err(IdentdMismatched);
    }
    assert b[1..3] == got[2..4] && b[3..7] == got[4..8];
    var port, ip := Uint16(b[1..3]), b[3..7];
    NullAtTail(got, 1, 8);
    var j := ScanNull(b, 7);
    if ip[0] == 0 && ip[1] == 0 && ip[2] == 0 && ip[3] != 0 {
      var host := DomainAfter(b, j, got);
      if host.Err? {
        return Err(host.error);
      }
      return Ok(Target(Domain(host.value), port));
    }
    res := Ok(Target(Address(ip), port));
  }

  /** How many bytes the only read loop of the handshake gets, under a schedule of read sizes. */
  function Taken(size: nat -> nat, turn: nat, s: Bytes): (n: nat)
    ensures n <= BUF_SIZE && n <= |s| && (|s| >= 8 ==> n >= 8) && (|s| < 8 ==> n == |s|)
  {
    Gathered(size, turn, 0, 8, BUF_SIZE, |s|)
  }

  /** `handshake`: parses what the first read of at least eight bytes happened to deliver. */
  method Handshake(r: Reader, verify: Bytes -> bool) returns (res: Result<Target, Failure>, ghost got: Bytes)
    modifies r
    ensures |old(r.rest)| < 8 ==> res == Err(RequestRejected)
    ensures |old(r.rest)| >= 8 ==>
              && 8 <= |got| <= BUF_SIZE && got <= old(r.rest) && r.rest == old(r.rest)[|got|..]
              && res == Parsed(got, verify)
    ensures |got| == Taken(r.size, old(r.turn), old(r.rest))
  {
    hide Parsed;
    var buf := new byte[BUF_SIZE](_ => 0);
    var n, err := r.ReadAtLeast(buf, 0, 8);
    got := old(r.rest)[..n];
    if err.Some? {
      return Err(RequestRejected), got;
    }
    assert buf[0..n] == got;
    res := ParseRequest(buf[0..n], verify);
  }

  /** Reads as large as the buffer allows, and reads that stop after the fixed part. */
  function Greedy(turn: nat): nat {
    BUF_SIZE
  }

  function Fixed(turn: nat): nat {
    7
  }

  /** The handshake never swallows bytes that follow the request `e`, under any schedule of reads, if and only
      if there are none or the request fills the buffer. And there is always a schedule under which it stops
      inside the request, so that the rest of it goes to the target. */
  lemma BoundaryMissed(port: nat, ip: Bytes, user: Bytes, name: Bytes, later: Bytes)
    requires port < 0x1_0000 && |ip| == 4
    ensures var e := Encode(port, ip, user, name); var s := e + later;
            && ((forall size: nat -> nat, turn: nat {:trigger Taken(size, turn, s)} :: Taken(size, turn, s) <= |e|)
                <==> later == [] || |e| >= 4096)
            && Taken(Fixed, 0, s) == 8 < |e|
  {
    var e := Encode(port, ip, user, name);
    var s := e + later;
    var k := ReadSize(Greedy(0), BUF_SIZE, |s|);
    assert Gathered(Greedy, 0, 0, 8, BUF_SIZE, |s|) == Gathered(Greedy, 1, k, 8, BUF_SIZE, |s| - k) == k;
    assert Taken(Greedy, 0, s) == k;
    assert Gathered(Fixed, 0, 0, 8, BUF_SIZE, |s|) == Gathered(Fixed, 1, 8, 8, BUF_SIZE, |s| - 8) == 8;
  }

  // ----- round trip -----

  /** The fixed part of a request, followed by what this read has of the rest. */
  lemma FixedPart(port: nat, ip: Bytes, user: Bytes, name: Bytes, later: Bytes, got: Bytes)
    requires port < 0x1_0000 && |ip| == 4 && got <= Encode(port, ip, user, name) + later && |got| >= 8
    ensures got[1] == CONNECT && got[2..4] == PutUint16(port) && got[4..8] == ip && Uint16(got[2..4]) == port
  {
    hide PutUint16, Uint16, Tail;
    var head := Head(port, ip);
    assert head[1] == CONNECT && head[2..4] == PutUint16(port) && head[4..8] == ip;
    assert got[..8] == head;
    assert got[2..4] == got[..8][2..4] && got[4..8] == got[..8][4..8];
  }

  /** SOCKS4: address and port are recovered from any first read of at least eight bytes. */
  lemma AddressRoundTrip(port: nat, ip: Bytes, user: Bytes, later: Bytes, got: Bytes, verify: Bytes -> bool)
    requires port < 0x1_0000 && |ip| == 4 && !Announces4a(ip)
    requires got <= Encode(port, ip, user, []) + later && 8 <= |got| <= BUF_SIZE && verify(UserOf(got))
    ensures Parsed(got, verify) == Ok(Target(Address(ip), port))
  {
    FixedPart(port, ip, user, [], later, got);
  }

  /** Scanning a null-terminated part that starts after `head`, in as much of the stream as was received. */
  lemma ScanPart(head: Bytes, part: Bytes, rest: Bytes, got: Bytes)
    requires NullFree(part) && rest != [] && rest[0] == 0 && |head| <= |got| && got <= head + part + rest
    ensures NullAt(got, |head|) == if |got| < |head| + |part| then |got| else |head| + |part|
    ensures got[|head|..NullAt(got, |head|)] == part <==> |got| >= |head| + |part|
  {
    hide NullAt;
    var j := if |got| < |head| + |part| then |got| else |head| + |part|;
    assert got[|head|..j] == part[..j - |head|];
    forall p | |head| <= p < j ensures got[p] != 0 {
      assert got[p] == part[p - |head|];
    }
    NullAtIs(got, |head|, j);
  }

  lemma Regroup(a: Bytes, b: Bytes, c: Bytes, d: Bytes)
    ensures (a + b + c) + d == a + b + (c + d)
  {
  }

  /** The user name is read whole exactly when its end is among the bytes received. */
  lemma UserRoundTrip(port: nat, ip: Bytes, user: Bytes, name: Bytes, later: Bytes, got: Bytes)
    requires port < 0x1_0000 && |ip| == 4 && NullFree(user)
    requires got <= Encode(port, ip, user, name) + later && |got| >= 8
    ensures NullAt(got, 8) == if |got| < 8 + |user| then |got| else 8 + |user|
    ensures UserOf(got) == user <==> |got| >= 8 + |user|
  {
    hide Head, Tail, NullAt;
    Regroup(Head(port, ip), user, Tail(ip, name), later);
    ScanPart(Head(port, ip), user, Tail(ip, name) + later, got);
  }

  /** SOCKS4a: the domain name and port are recovered if and only if the first read reaches the end of the
      name; a shorter read silently yields a shorter name, or a panic when the buffer is full. An empty name is
      also what a read that ends before it yields, unless the buffer is full. */
  lemma DomainRoundTrip(port: nat, ip: Bytes, user: Bytes, name: Bytes, later: Bytes, got: Bytes,
                        verify: Bytes -> bool)
    requires port < 0x1_0000 && |ip| == 4 && Announces4a(ip) && NullFree(user) && NullFree(name)
    requires got <= Encode(port, ip, user, name) + later && 8 <= |got| <= BUF_SIZE && verify(UserOf(got))
    ensures Parsed(got, verify) == Ok(Target(Domain(name), port)) <==>
            |got| >= 9 + |user| + |name| || (name == [] && |got| < 4096)
  {
    hide PutUint16, Uint16, NullAt;
    FixedPart(port, ip, user, name, later, got);
    UserRoundTrip(port, ip, user, name, later, got);
    hide Head;
    var head := Head(port, ip) + user + [0];
    assert Encode(port, ip, user, name) + later == head + name + ([0] + later);
    if |got| >= 9 + |user| {
      ScanPart(head, name, [0] + later, got);
    }
  }

  /** An encoded request of which the read got enough becomes the destination it names if and only if the text of
      its host has no square brackets. */
  lemma RequestBecomesDestination(port: nat, ip: Bytes, user: Bytes, name: Bytes, later: Bytes, got: Bytes,
                                  verify: Bytes -> bool, show: Bytes -> Bytes)
    requires port < 0x1_0000 && |ip| == 4 && NullFree(user) && NullFree(name)
    requires got <= Encode(port, ip, user, name) + later && 8 <= |got| <= BUF_SIZE && verify(UserOf(got))
    requires Announces4a(ip) ==> |got| >= 9 + |user| + |name|
    ensures var host := if Announces4a(ip) then Domain(name) else Address(ip);
            && Parsed(got, verify) == Ok(Target(host, port))
            && (Destination(host, port, show) == IP(HostText(host, show), port) <==> NoBrackets(HostText(host, show)))
  {
    hide Printed, ReadDest, Parsed, NullAt;
    if Announces4a(ip) {
      DomainRoundTrip(port, ip, user, name, later, got, verify);
      DestinationExactlyWhen(Domain(name), port, show);
    } else {
      AddressRoundTrip(port, ip, user, later, got, verify);
      DestinationExactlyWhen(Address(ip), port, show);
    }
  }
}
