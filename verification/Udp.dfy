/** The SOCKS5 UDP request header (section 7 of RFC 1928) and the replies built in its backing array. */
module Udp {
  import opened Bytes
  import opened Slices

  const ATYP_IPV4: byte := 1
  const ATYP_DOMAIN: byte := 3
  const ATYP_IPV6: byte := 4

  datatype Addr = Address(ip: Bytes) | Domain(name: Bytes) | Unknown

  datatype Packet = Packet(addr: Addr, port: nat, header: Bytes, data: Bytes)

  datatype Failure = ErrorPackage | BadReserved | Fragmented | IndexPanic

  // ----- the format -----

  predicate WellFormed(a: Addr, port: nat) {
    && port < 0x1_0000
    && match a
       case Address(ip) => |ip| == 4 || |ip| == 16
       case Domain(name) => |name| <= 255
       case Unknown => false
  }

  function EncodeHeader(a: Addr, port: nat): Bytes
    requires WellFormed(a, port)
  {
    var addr :=
      match a
      case Address(ip) => [if |ip| == 4 then ATYP_IPV4 else ATYP_IPV6] + ip
      case Domain(name) => [ATYP_DOMAIN, |name| as byte] + name;
    [0, 0, 0] + addr + PutUint16(port)
  }

  // ----- what the code makes of a datagram -----

  /** Length of the header, from its address type; a slice may reach past the datagram, an index may not. */
  function HeaderLen(m: Bytes): Option<nat>
    requires |m| >= 4
  {
    if m[3] == ATYP_IPV4 then Some(10)
    else if m[3] == ATYP_DOMAIN then if |m| == 4 then None else Some(7 + m[4] as nat)
    else if m[3] == ATYP_IPV6 then Some(22)
    else Some(6)
  }

  function AddrOf(m: Bytes, len: nat): Addr
    requires |m| >= 4 && HeaderLen(m) == Some(len) && len <= |m|
  {
    if m[3] == ATYP_IPV4 || m[3] == ATYP_IPV6 then Address(m[4..len - 2])
    else if m[3] == ATYP_DOMAIN then Domain(m[5..len - 2])
    else Unknown
  }

  function Split(m: Bytes): Result<Packet, Failure> {
    if |m| < 3 then Err(ErrorPackage)
    else if m[0] != 0 && m[1] != 0 then Err(BadReserved)
    else if m[2] != 0 then Err(Fragmented)
    else if |m| == 3 || HeaderLen(m).None? || HeaderLen(m).value > |m| then Err(IndexPanic)
    else
      var len := HeaderLen(m).value;
      Ok(Packet(AddrOf(m, len), Uint16(m[len - 2..len]), m[..len], m[len..]))
  }

  /** A packet and the bytes of its datagram, position by position. */
  ghost predicate LaidOut(m: Bytes, p: Packet) {
    && |m| >= 6 && (m[0] == 0 || m[1] == 0) && m[2] == 0
    && p.header + p.data == m && |p.header| >= 6
    && var n := |p.header|;
    && p.port == m[n - 2] as nat * 0x100 + m[n - 1] as nat
    && (m[3] == 1 ==> n == 10 && p.addr == Address(m[4..8]))
    && (m[3] == 3 ==> n == 7 + m[4] as nat && p.addr == Domain(m[5..n - 2]))
    && (m[3] == 4 ==> n == 22 && p.addr == Address(m[4..20]))
    && (m[3] !in [1, 3, 4] ==> n == 6 && p.addr == Unknown)
  }

  /** Why a datagram is refused, by its bytes; a header that is cut short panics. */
  lemma RefusedWhen(m: Bytes)
    ensures Split(m) == Err(ErrorPackage) <==> |m| < 3
    ensures Split(m) == Err(BadReserved) <==> |m| >= 3 && m[0] != 0 && m[1] != 0
    ensures Split(m) == Err(Fragmented) <==> |m| >= 3 && (m[0] == 0 || m[1] == 0) && m[2] != 0
    ensures Split(m) == Err(IndexPanic) <==>
            && |m| >= 3 && (m[0] == 0 || m[1] == 0) && m[2] == 0
            && (|m| == 3 || (m[3] == 3 && |m| == 4) ||
                |m| < (if m[3] == 1 then 10 else if m[3] == 3 then 7 + m[4] as nat else if m[3] == 4 then 22 else 6))
  {
  }

  lemma SplitLaidOut(m: Bytes)
    requires Split(m).Ok?
    ensures LaidOut(m, Split(m).value)
  {
    var n := HeaderLen(m).value;
    assert m[n - 2..n][0] == m[n - 2] && m[n - 2..n][1] == m[n - 1];
  }

  /** `handleUdpPacket`, with its moving index: the parts it hands on. The header is returned as the slice it
      is, sharing the backing array of the datagram. */
  method HandleUdpPacket(message: Slice) returns (r: Result<Packet, Failure>, originHeader: Slice)
    requires message.Valid()
    ensures r == Split(message.View())
    ensures r.Ok? ==> r.value.header + r.value.data == message.View() && LaidOut(message.View(), r.value)
    ensures r.Ok? ==>
              && originHeader == message.(len := |r.value.header|) && originHeader.Valid()
              && originHeader.View() == r.value.header
  {
    hide Uint16, LaidOut;
    var m := message.View();
    originHeader := message;
    var length := |m|;
    var index := 3;
    if length < index {
      return Err(ErrorPackage), originHeader;
    }
    if m[0] != 0 && m[1] != 0 {
      return Err(BadReserved), originHeader;
    }
    if m[2] != 0 {
      return Err(Fragmented), originHeader;
    }
    if length == 3 {
      return Err(IndexPanic), originHeader;
    }
    var atype := m[3];
    index := 4;
    var start := 4;
    if atype == ATYP_IPV4 {
      index := index + 4;
    } else if atype == ATYP_DOMAIN {
      if length == 4 {
        return Err(IndexPanic), originHeader;
      }
      start := 5;
      index := 5 + m[4] as nat;
    } else if atype == ATYP_IPV6 {
      index := index + 16;
    }
    var end := index;
    index := index + 2;
    if index > length {
      return Err(IndexPanic), originHeader;
    }
    var addr := if atype == ATYP_IPV4 || atype == ATYP_IPV6 then Address(m[start..end])
                else if atype == ATYP_DOMAIN then Domain(m[start..end]) else Unknown;
    originHeader := message.(len := index);
    assert originHeader.View() == m[..index];
    r := Ok(Packet(addr, Uint16(m[end..index]), m[..index], m[index..]));
    SplitLaidOut(m);
  }

  /** Every well-formed request is split into exactly its address, port and data. */
  lemma HeaderRoundTrip(a: Addr, port: nat, data: Bytes)
    requires WellFormed(a, port)
    ensures var m := EncodeHeader(a, port) + data; var p := Packet(a, port, EncodeHeader(a, port), data);
            Split(m) == Ok(p) && LaidOut(m, p)
  {
    hide Split, LaidOut;
    match a {
      case Address(ip) => AddressRoundTrip(ip, port, data);
      case Domain(name) => DomainRoundTrip(name, port, data);
    }
    SplitLaidOut(EncodeHeader(a, port) + data);
  }

  lemma AddressRoundTrip(ip: Bytes, port: nat, data: Bytes)
    requires WellFormed(Address(ip), port)
    ensures var header := EncodeHeader(Address(ip), port);
            Split(header + data) == Ok(Packet(Address(ip), port, header, data))
  {
    hide Uint16, PutUint16;
    var head, p := [0, 0, 0, if |ip| == 4 then ATYP_IPV4 else ATYP_IPV6], PutUint16(port);
    var m := EncodeHeader(Address(ip), port) + data;
    assert m == head + ip + (p + data) && m == (head + ip) + p + data;
    Middle(m, head, ip, p + data);
    Middle(m, head + ip, p, data);
  }

  lemma DomainRoundTrip(name: Bytes, port: nat, data: Bytes)
    requires WellFormed(Domain(name), port)
    ensures var header := EncodeHeader(Domain(name), port);
            Split(header + data) == Ok(Packet(Domain(name), port, header, data))
  {
    hide Uint16, PutUint16;
    var head, p := [0, 0, 0, ATYP_DOMAIN, |name| as byte], PutUint16(port);
    var m := EncodeHeader(Domain(name), port) + data;
    assert m == head + name + (p + data) && m == (head + name) + p + data;
    Middle(m, head, name, p + data);
    Middle(m, head + name, p, data);
  }

  // ----- the replies -----

  /** The backing array after `append` has put these bytes at `at`. */
  function Overlay(arr: Bytes, at: nat, d: Bytes): (r: Bytes)
    requires at + |d| <= |arr|
    ensures |r| == |arr|
  {
    arr[..at] + d + arr[at + |d|..]
  }

  /** The backing array after the replies to these datagrams: those that fit the spare capacity are written
      behind the header, one over the other. */
  function AfterReplies(arr: Bytes, at: nat, room: nat, ds: seq<Bytes>): (r: Bytes)
    requires at + room <= |arr|
    ensures |r| == |arr|
  {
    if ds == [] then arr
    else
      var before, d := AfterReplies(arr, at, room, ds[..|ds| - 1]), ds[|ds| - 1];
      if |d| <= room then Overlay(before, at, d) else before
  }

  /** The last datagram that fits and reaches position `p` behind the header, or -1. */
  function LastOver(ds: seq<Bytes>, room: nat, p: nat): (i: int)
    ensures -1 <= i < |ds|
    ensures i >= 0 ==> p < |ds[i]| <= room
    ensures forall j :: i < j < |ds| ==> !(p < |ds[j]| <= room)
  {
    if ds == [] then -1
    else if p < |ds[|ds| - 1]| <= room then |ds| - 1
    else LastOver(ds[..|ds| - 1], room, p)
  }

  lemma {:induction false} ByteAfterReplies(arr: Bytes, at: nat, room: nat, ds: seq<Bytes>, p: nat)
    requires at + room <= |arr| && p < room
    ensures var i := LastOver(ds, room, p);
            AfterReplies(arr, at, room, ds)[at + p] == if i < 0 then arr[at + p] else ds[i][p]
  {
    if ds != [] {
      ByteAfterReplies(arr, at, room, ds[..|ds| - 1], p);
    }
  }

  /** The `m` bytes of request data behind the header, which are sent only after the replies may begin, are
      intact if and only if at each position the last datagram to be written there, if any fitted, had the
      same byte. */
  lemma RequestDataIntact(arr: Bytes, at: nat, room: nat, ds: seq<Bytes>, m: nat)
    requires at + room <= |arr| && m <= room
    ensures AfterReplies(arr, at, room, ds)[at..at + m] == arr[at..at + m] <==>
            forall p :: 0 <= p < m ==> SameByte(arr, at, room, ds, p)
  {
    var after := AfterReplies(arr, at, room, ds);
    var x, y := after[at..at + m], arr[at..at + m];
    forall p | 0 <= p < m ensures x[p] == y[p] <==> SameByte(arr, at, room, ds, p) {
      ByteAfterReplies(arr, at, room, ds, p);
    }
    if forall p :: 0 <= p < m ==> SameByte(arr, at, room, ds, p) {
      assert forall p :: 0 <= p < m ==> x[p] == y[p];
    } else {
      var p :| 0 <= p < m && !SameByte(arr, at, room, ds, p);
      assert x[p] != y[p];
    }
  }

  predicate SameByte(arr: Bytes, at: nat, room: nat, ds: seq<Bytes>, p: nat)
    requires at + p < |arr|
  {
    var i := LastOver(ds, room, p); i < 0 || ds[i][p] == arr[at + p]
  }

  lemma RepliesSnoc(arr: Bytes, at: nat, room: nat, ds: seq<Bytes>, i: nat)
    requires at + room <= |arr| && i < |ds|
    ensures var before := AfterReplies(arr, at, room, ds[..i]);
            AfterReplies(arr, at, room, ds[..i + 1]) == if |ds[i]| <= room then Overlay(before, at, ds[i]) else before
  {
    assert ds[..i + 1][..i] == ds[..i];
  }

  /** `handleRemoteRead`: each reply is exactly the request's header followed by that datagram, although every
      `append` writes over the same backing array; the header itself is never disturbed. */
  method HandleRemoteRead(originHeader: Slice, datagrams: seq<Bytes>) returns (replies: seq<Bytes>)
    requires originHeader.Valid()
    modifies originHeader.arr
    ensures originHeader.View() == old(originHeader.View())
    ensures |replies| == |datagrams|
    ensures forall i :: 0 <= i < |replies| ==> replies[i] == old(originHeader.View()) + datagrams[i]
    ensures var h := originHeader;
            h.arr[..] == AfterReplies(old(h.arr[..]), h.off + h.len, h.cap - h.len, datagrams)
  {
    hide AfterReplies;
    replies := [];
    ghost var header, was := originHeader.View(), originHeader.arr[..];
    ghost var at, room := originHeader.off + originHeader.len, originHeader.cap - originHeader.len;
    NoReplies(was, at, room, datagrams);
    for i := 0 to |datagrams|
      invariant originHeader.View() == header && |replies| == i
      invariant forall k :: 0 <= k < i ==> replies[k] == header + datagrams[k]
      invariant originHeader.arr[..] == AfterReplies(was, at, room, datagrams[..i])
    {
      RepliesSnoc(was, at, room, datagrams, i);
      var reply := ReplyTo(originHeader, datagrams[i]);
      replies := replies + [reply];
    }
    assert datagrams[..|datagrams|] == datagrams;
  }

  lemma NoReplies(arr: Bytes, at: nat, room: nat, ds: seq<Bytes>)
    requires at + room <= |arr|
    ensures AfterReplies(arr, at, room, ds[..0]) == arr
  {
  }

  /** One reply, and what it leaves in the backing array. */
  method ReplyTo(originHeader: Slice, d: Bytes) returns (reply: Bytes)
    requires originHeader.Valid()
    modifies originHeader.arr
    ensures originHeader.View() == old(originHeader.View()) && reply == old(originHeader.View()) + d
    ensures var h := originHeader;
            h.arr[..] == if Reuses(h, |d|) then Overlay(old(h.arr[..]), h.off + h.len, d) else old(h.arr[..])
  {
    var buf := Append(originHeader, d);
    reply := buf.View();
    if Reuses(originHeader, |d|) {
      ghost var h, was, at := originHeader, old(originHeader.arr[..]), originHeader.off + originHeader.len;
      OverlayIs(was, h.arr[..], at, d);
      assert h.View() == h.arr[..][h.off..at] == was[h.off..at];
    }
  }

  lemma OverlayIs(was: Bytes, now: Bytes, at: nat, d: Bytes)
    requires at + |d| <= |was| == |now|
    requires forall p {:trigger now[p]} :: 0 <= p < |now| ==> now[p] == if at <= p < at + |d| then d[p - at] else was[p]
    ensures now == Overlay(was, at, d)
  {
  }
}
