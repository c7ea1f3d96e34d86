/** Printing and reading a destination: JoinHostPort/SplitHostPort and FormatInt/ParseInt as Go defines them. */
module HostPort {
  import opened Bytes

  const COLON: byte := 58
  const OPEN: byte := 91
  const CLOSE: byte := 93
  const MINUS: byte := 45
  const PLUS: byte := 43

  const INT64_MAX: int := 0x7FFF_FFFF_FFFF_FFFF
  const UINT64_MAX: int := 0xFFFF_FFFF_FFFF_FFFF

  predicate Int64(n: int) {
    -INT64_MAX - 1 <= n <= INT64_MAX
  }

  // ----- host and port -----

  /** `IndexByteString`. */
  function First(s: Bytes, b: byte): (i: int)
    ensures -1 <= i < |s|
    ensures i >= 0 ==> s[i] == b && b !in s[..i]
    ensures i < 0 ==> b !in s
  {
    if s == [] then -1
    else if s[0] == b then 0
    else
      var r := First(s[1..], b);
      if r < 0 then -1
      else
        assert s[..r + 1] == [s[0]] + s[1..][..r];
        r + 1
  }

  /** `last`. */
  function Last(s: Bytes, b: byte): (i: int)
    ensures -1 <= i < |s|
    ensures i >= 0 ==> s[i] == b && b !in s[i + 1..]
    ensures i < 0 ==> b !in s
  {
    if s == [] then -1
    else if s[|s| - 1] == b then |s| - 1
    else
      var front := s[..|s| - 1];
      var r := Last(front, b);
      assert s == front + [s[|s| - 1]];
      if r < 0 then -1
      else
        assert s[r + 1..] == front[r + 1..] + [s[|s| - 1]];
        r
  }

  function JoinHostPort(host: Bytes, port: Bytes): Bytes {
    if First(host, COLON) >= 0 then [OPEN] + host + [CLOSE, COLON] + port
    else host + [COLON] + port
  }

  /** `SplitHostPort`: host and port, or None for any of its address errors. */
  function SplitHostPort(s: Bytes): Option<(Bytes, Bytes)> {
    var i := Last(s, COLON);
    if i < 0 then None
    else if s[0] == OPEN then
      var end := First(s, CLOSE);
      if end < 0 || end + 1 != i then None
      else if First(s[1..], OPEN) >= 0 || First(s[end + 1..], CLOSE) >= 0 then None
      else Some((s[1..end], s[i + 1..]))
    else
      var host := s[..i];
      if First(host, COLON) >= 0 || First(s, OPEN) >= 0 || First(s, CLOSE) >= 0 then None
      else Some((host, s[i + 1..]))
  }

  // ----- decimal numbers -----

  function Digits(n: nat): (d: Bytes)
    ensures d != [] && forall i :: 0 <= i < |d| ==> 48 <= d[i] <= 57
  {
    if n < 10 then [(48 + n) as byte] else Digits(n / 10) + [(48 + n % 10) as byte]
  }

  /** `strconv.FormatInt(n, 10)`. */
  function FormatInt(n: int): Bytes {
    if n < 0 then [MINUS] + Digits(-n) else Digits(n)
  }

  datatype Parsed = Value(n: nat) | Syntax | Range

  /** `strconv.ParseUint(s, 10, 64)` on a non-empty string: digits left to right, stopping at the first
      byte that is not a digit or overflows. */
  function ParseUint(s: Bytes): (r: Parsed)
    ensures r.Value? ==> r.n <= UINT64_MAX
  {
    if s == [] then Value(0)
    else
      match ParseUint(s[..|s| - 1])
      case Value(n) =>
        var b := s[|s| - 1];
        if !(48 <= b <= 57) then Syntax
        else if n * 10 + (b - 48) as nat > UINT64_MAX then Range
        else Value(n * 10 + (b - 48) as nat)
      case r => r
  }

  /** `strconv.ParseInt(s, 10, 64)` for a caller that ignores the error. */
  function ParseInt(s: Bytes): (n: int)
    ensures Int64(n)
  {
    if s == [] then 0
    else
      var neg := s[0] == MINUS;
      var digits := if neg || s[0] == PLUS then s[1..] else s;
      if digits == [] then 0
      else
        match ParseUint(digits)
        case Syntax => 0
        case Range => if neg then -INT64_MAX - 1 else INT64_MAX
        case Value(u) =>
          if !neg then (if u > INT64_MAX then INT64_MAX else u)
          else if u > INT64_MAX + 1 then -INT64_MAX - 1 else 0 - u
  }

  // ----- what the digits mean -----

  function Tens(e: nat): (t: nat)
    ensures t > 0
  {
    if e == 0 then 1 else 10 * Tens(e - 1)
  }

  predicate AllDigits(s: Bytes) {
    forall i :: 0 <= i < |s| ==> 48 <= s[i] <= 57
  }

  /** The number that decimal digits denote: each digit times its power of ten. */
  function Decimal(s: Bytes): (n: nat)
    requires AllDigits(s)
  {
    if s == [] then 0 else (s[0] - 48) as nat * Tens(|s| - 1) + Decimal(s[1..])
  }

  lemma {:induction false} DecimalSnoc(s: Bytes, b: byte)
    requires AllDigits(s) && 48 <= b <= 57
    ensures AllDigits(s + [b]) && Decimal(s + [b]) == Decimal(s) * 10 + (b - 48) as nat
  {
    if s == [] {
      assert [b][1..] == [] && Tens(0) == 1;
    } else {
      DecimalSnoc(s[1..], b);
      assert (s + [b])[1..] == s[1..] + [b];
      assert (s[0] - 48) as nat * (10 * Tens(|s| - 1)) == (s[0] - 48) as nat * Tens(|s| - 1) * 10;
    }
  }

  /** `FormatInt` prints the decimal digits of the number, with no zero in front of others. */
  lemma {:induction false} DigitsAreDecimal(n: nat)
    ensures AllDigits(Digits(n)) && Decimal(Digits(n)) == n
    ensures Digits(n)[0] == 48 ==> Digits(n) == [48]
  {
    if n < 10 {
      assert Digits(n)[1..] == [] && Tens(0) == 1;
    } else {
      DigitsAreDecimal(n / 10);
      DecimalSnoc(Digits(n / 10), (48 + n % 10) as byte);
    }
  }

  /** Some leading digits denote a number of 2^64 or more. */
  predicate Overflows(s: Bytes) {
    exists k :: 0 <= k <= |s| && AllDigits(s[..k]) && Decimal(s[..k]) >= 0x1_0000_0000_0000_0000
  }

  /** `ParseUint` yields a number exactly for digits that denote one below 2^64, and then that number; it reports the
      range exactly when some leading digits are too large already. */
  lemma {:induction false} ParsedAreDecimal(s: Bytes)
    ensures ParseUint(s).Value? <==> AllDigits(s) && Decimal(s) < 0x1_0000_0000_0000_0000
    ensures ParseUint(s).Value? ==> ParseUint(s).n == Decimal(s)
    ensures ParseUint(s).Range? <==> Overflows(s)
  {
    if s == [] {
      assert s[..0] == s;
    } else {
      var front, b := s[..|s| - 1], s[|s| - 1];
      ParsedAreDecimal(front);
      assert s == front + [b] && s[..|s|] == s;
      forall k | 0 <= k <= |front| ensures s[..k] == front[..k] {
      }
      if AllDigits(front) && 48 <= b <= 57 {
        DecimalSnoc(front, b);
      }
      if Overflows(front) {
        var k :| 0 <= k <= |front| && AllDigits(front[..k]) && Decimal(front[..k]) >= 0x1_0000_0000_0000_0000;
        assert s[..k] == front[..k];
        assert Overflows(s);
      } else if Overflows(s) {
        var k :| 0 <= k <= |s| && AllDigits(s[..k]) && Decimal(s[..k]) >= 0x1_0000_0000_0000_0000;
        assert k == |s|;
        assert AllDigits(front);
      }
    }
  }

  /** What a caller that ignores the error gets for any text: an optional sign and decimal digits give their number,
      held within 64 bits; digits that pass 2^64 give the nearest end of the range whatever follows them; anything
      else gives zero. */
  lemma ParseIntMeans(s: Bytes)
    ensures var neg := s != [] && s[0] == 45;
            var d := if s != [] && s[0] in [43, 45] then s[1..] else s;
            ParseInt(s) ==
            if d == [] then 0
            else if Overflows(d) then (if neg then -0x8000_0000_0000_0000 else 0x7FFF_FFFF_FFFF_FFFF)
            else if !AllDigits(d) then 0
            else if neg then (if Decimal(d) > 0x8000_0000_0000_0000 then -0x8000_0000_0000_0000 else 0 - Decimal(d))
            else (if Decimal(d) > 0x7FFF_FFFF_FFFF_FFFF then 0x7FFF_FFFF_FFFF_FFFF else Decimal(d))
  {
    hide ParseUint, Overflows, Decimal, AllDigits;
    var d := if s != [] && s[0] in [43, 45] then s[1..] else s;
    ParsedAreDecimal(d);
    WholeOverflows(d);
  }

  lemma WholeOverflows(d: Bytes)
    ensures AllDigits(d) && Decimal(d) >= 0x1_0000_0000_0000_0000 ==> Overflows(d)
  {
    assert d[..|d|] == d;
  }

  lemma {:induction false} DigitsRoundTrip(n: nat)
    requires n <= UINT64_MAX
    ensures ParseUint(Digits(n)) == Value(n)
  {
    var d := Digits(n);
    if n < 10 {
      assert d[..0] == [];
    } else {
      DigitsRoundTrip(n / 10);
      assert d[..|d| - 1] == Digits(n / 10);
    }
  }

  /** Every 64-bit number is recovered from its printed form. */
  lemma IntRoundTrip(n: int)
    requires Int64(n)
    ensures ParseInt(FormatInt(n)) == n
  {
    hide Digits, ParseUint;
    if n < 0 {
      DigitsRoundTrip(-n);
      assert FormatInt(n)[1..] == Digits(-n);
    } else {
      DigitsRoundTrip(n);
    }
  }

  // ----- destinations -----

  datatype IP = IP(addr: Bytes, port: int)

  /** `IP.String`: what the client puts in the destination frame. */
  function Printed(ip: IP): Bytes {
    JoinHostPort(ip.addr, FormatInt(ip.port))
  }

  /** How the server reads the destination frame; both errors are ignored. */
  function ReadDest(s: Bytes): IP {
    match SplitHostPort(s)
    case Some((host, port)) => IP(host, ParseInt(port))
    case None => IP([], ParseInt([]))
  }

  predicate NoBrackets(host: Bytes) {
    OPEN !in host && CLOSE !in host
  }

  predicate PlainPort(port: Bytes) {
    COLON !in port && OPEN !in port && CLOSE !in port
  }

  lemma LastColon(s: Bytes, a: Bytes, port: Bytes)
    requires s == a + [COLON] + port && COLON !in port
    ensures Last(s, COLON) == |a|
  {
    assert s[|a|] == COLON;
    assert s[|a| + 1..] == port;
  }

  lemma FirstAt(s: Bytes, b: byte, k: nat)
    requires k < |s| && s[k] == b && b !in s[..k]
    ensures First(s, b) == k
  {
  }

  /** A host with a colon is printed in brackets and comes back exactly when it has none of its own. */
  lemma BracketedRoundTrip(host: Bytes, port: Bytes)
    requires COLON in host && PlainPort(port)
    ensures SplitHostPort(JoinHostPort(host, port)) == if NoBrackets(host) then Some((host, port)) else None
  {
    hide First, Last;
    var s := JoinHostPort(host, port);
    var a := [OPEN] + host + [CLOSE];
    assert s == a + [COLON] + port;
    LastColon(s, a, port);
    if CLOSE in host {
      var k := First(host, CLOSE);
      assert s[..k + 1] == [OPEN] + host[..k];
      FirstAt(s, CLOSE, k + 1);
    } else {
      assert s[..|host| + 1] == [OPEN] + host;
      FirstAt(s, CLOSE, |host| + 1);
      assert s[1..] == host + [CLOSE, COLON] + port && s[|host| + 2..] == [COLON] + port;
      assert s[1..|host| + 1] == host && s[|a| + 1..] == port;
    }
  }

  /** A host without a colon: printed as it is; brackets of its own are an error or are stripped. */
  lemma BareRoundTrip(host: Bytes, port: Bytes)
    requires COLON !in host && PlainPort(port)
    ensures var r := SplitHostPort(JoinHostPort(host, port));
            if NoBrackets(host) then r == Some((host, port)) else r.Some? ==> |r.value.0| < |host|
  {
    hide First, Last;
    var s := JoinHostPort(host, port);
    LastColon(s, host, port);
    assert s[..|host|] == host && s[|host| + 1..] == port;
    if host != [] {
      assert s[0] == host[0];
    }
    if OPEN in host || CLOSE in host {
      assert host <= s;
    }
  }

  /** The destination frame is the address, in square brackets if it has a colon, a colon and the port in
      decimal digits. */
  lemma PrintedBytes(ip: IP) returns (digits: Bytes)
    ensures AllDigits(digits) && Decimal(digits) == if ip.port < 0 then -ip.port else ip.port
    ensures var sign := if ip.port < 0 then [45] else [];
            Printed(ip) == (if 58 in ip.addr then [91] + ip.addr + [93, 58] else ip.addr + [58]) + (sign + digits)
  {
    hide Digits, First;
    digits := Digits(if ip.port < 0 then -ip.port else ip.port);
    DigitsAreDecimal(if ip.port < 0 then -ip.port else ip.port);
    assert FormatInt(ip.port) == (if ip.port < 0 then [45] else []) + digits;
    assert First(ip.addr, COLON) >= 0 <==> 58 in ip.addr;
  }

  /** The server recovers exactly the address and port the client printed if and only if the address
      contains no square bracket; colons in it do no harm. */
  lemma DestinationRoundTrip(ip: IP)
    requires Int64(ip.port)
    ensures ReadDest(Printed(ip)) == ip <==> NoBrackets(ip.addr)
  {
    hide First, Last, Digits, ParseUint, SplitHostPort, JoinHostPort, ParseInt;
    IntRoundTrip(ip.port);
    var port := FormatInt(ip.port);
    assert PlainPort(port);
    if COLON in ip.addr {
      BracketedRoundTrip(ip.addr, port);
    } else {
      BareRoundTrip(ip.addr, port);
    }
  }

  // ----- the target of a SOCKS request -----

  datatype Host = Address(ip: Bytes) | Domain(name: Bytes)

  /** The host as text; `show` is the textual form of an IP address. */
  function HostText(host: Host, show: Bytes -> Bytes): Bytes {
    if host.Domain? then host.name else show(host.ip)
  }

  /** How a requested target is printed and re-read before it becomes the destination. */
  function Destination(host: Host, port: int, show: Bytes -> Bytes): IP
    requires Int64(port)
  {
    ReadDest(Printed(IP(HostText(host, show), port)))
  }

  /** The destination keeps the requested host and port exactly when the text of the host has no square brackets. */
  lemma DestinationExactlyWhen(host: Host, port: int, show: Bytes -> Bytes)
    requires Int64(port)
    ensures Destination(host, port, show) == IP(HostText(host, show), port) <==> NoBrackets(HostText(host, show))
  {
    hide Printed, ReadDest;
    DestinationRoundTrip(IP(HostText(host, show), port));
  }
}
