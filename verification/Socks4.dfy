/** The SOCKS 4 request as console.cpp writes it and socks_server.cpp reads it, and the rules that
    decide whether it is granted. */
module Socks4 {
  import opened Descriptors
  import opened Relay

  const INT_MAX: nat := 2147483647

  // --- numbers as text ---

  predicate IsDigit(c: char) {
    '0' <= c <= '9'
  }

  /** to_string of a number that is not negative. */
  function Dec(n: nat): (s: string)
    ensures s != "" && forall c <- s :: IsDigit(c)
    ensures s[0] == '0' <==> n == 0
  {
    (if n < 10 then "" else Dec(n / 10)) + [(n % 10) as char + '0']
  }

  /** The value of a string of digits. */
  function Value(s: string): nat
    requires forall c <- s :: IsDigit(c)
  {
    if s == "" then 0 else
      assert s[|s| - 1] in s && IsDigit(s[|s| - 1]);
      Value(s[..|s| - 1]) * 10 + (s[|s| - 1] - '0') as nat
  }

  function DigitPrefix(s: string): (p: string)
    ensures p <= s && forall c <- p :: IsDigit(c)
    ensures |p| < |s| ==> !IsDigit(s[|p|])
  {
    if s == "" || !IsDigit(s[0]) then "" else [s[0]] + DigitPrefix(s[1..])
  }

  /** stoi reads as many digits as there are and ignores what follows; without a digit, or beyond the
      range of int, it throws. */
  function Stoi(s: string): Option<nat> {
    var p := DigitPrefix(s);
    if p == "" || Value(p) > INT_MAX then None else Some(Value(p))
  }

  lemma {:induction false} ValueOfDec(n: nat)
    ensures Value(Dec(n)) == n
  {
    if n >= 10 {
      ValueOfDec(n / 10);
      assert Dec(n)[..|Dec(n)| - 1] == Dec(n / 10);
    }
  }

  /** Reading back what to_string wrote, whatever follows it that is no digit; beyond INT_MAX stoi throws. */
  lemma StoiOfDec(n: nat, rest: string)
    requires rest == "" || !IsDigit(rest[0])
    ensures Stoi(Dec(n) + rest) == if n <= INT_MAX then Some(n) else None
  {
    PrefixThen(Dec(n), rest);
    ValueOfDec(n);
  }

  lemma {:induction false} PrefixThen(s: string, rest: string)
    requires (forall c <- s :: IsDigit(c)) && (rest == "" || !IsDigit(rest[0]))
    ensures DigitPrefix(s + rest) == s
  {
    if s == "" {
      assert s + rest == rest;
    } else {
      assert s[0] in s && (s + rest)[1..] == s[1..] + rest;
      PrefixThen(s[1..], rest);
    }
  }

  // --- slicer ---

  function FindChar(s: string, del: char): (r: int)
    ensures r == -1 <==> del !in s
    ensures r != -1 ==> 0 <= r < |s| && s[r] == del && del !in s[..r]
  {
    if s == "" then -1
    else if s[0] == del then 0
    else
      var r := FindChar(s[1..], del);
      if r == -1 then -1 else
        assert s[..r + 1] == [s[0]] + s[1..][..r];
        r + 1
  }

  /** The text up to the first delimiter, and the text after it ("" when there is none). */
  function Cut(s: string, del: char): (string, string) {
    var pos := FindChar(s, del);
    if pos == -1 then (s, "") else (s[..pos], s[pos + 1..])
  }

  /** slicer, on its string argument: the rest replaces the argument. */
  method Slicer(s: string, del: char) returns (sub: string, rest: string)
    ensures (sub, rest) == Cut(s, del)
  {
    var pos := FindChar(s, del);
    sub := if pos == -1 then s else s[..pos];
    rest := s[pos + 1..];
    if pos == -1 { rest := ""; }
  }

  lemma {:induction false} FindFirst(s: string, n: nat, del: char)
    requires n < |s| && s[n] == del && forall k :: 0 <= k < n ==> s[k] != del
    ensures FindChar(s, del) == n
  {
    if n > 0 { FindFirst(s[1..], n - 1, del); }
  }

  /** Cutting at the first delimiter undoes joining. */
  lemma CutJoined(a: string, b: string, del: char)
    requires del !in a
    ensures Cut(a + [del] + b, del) == (a, b)
  {
    var s := a + [del] + b;
    forall k | 0 <= k < |a| ensures s[k] != del { assert s[k] == a[k] && a[k] in a; }
    FindFirst(s, |a|, del);
    assert s[..|a|] == a && s[|a| + 1..] == b;
  }

  lemma CutLast(a: string, del: char)
    requires del !in a
    ensures Cut(a, del) == (a, "")
  {
  }

  /** What is left after k slices at dots, and the next slice. */
  function After(s: string, k: nat): string {
    if k == 0 then s else Cut(After(s, k - 1), '.').1
  }

  function Part(s: string, k: nat): string {
    Cut(After(s, k), '.').0
  }

  // --- dotted addresses ---

  type Quad = q: seq<Byte> | |q| == 4 witness [0, 0, 0, 0]

  function Dotted(q: seq<Byte>): string
    requires |q| > 0
  {
    if |q| == 1 then Dec(q[0]) else Dec(q[0]) + ['.'] + Dotted(q[1..])
  }

  lemma CutDotted(q: seq<Byte>)
    requires |q| > 0
    ensures Cut(Dotted(q), '.') == (Dec(q[0]), if |q| == 1 then "" else Dotted(q[1..]))
  {
    assert '.' !in Dec(q[0]);
    if |q| == 1 { CutLast(Dec(q[0]), '.'); } else { CutJoined(Dec(q[0]), Dotted(q[1..]), '.'); }
  }

  // --- the request ---

  /** Part k of an address as a number, cut to a byte; None if stoi throws. */
  function OctetAt(address: string, k: nat): Option<Byte> {
    var n := Stoi(Part(address, k));
    if n.None? then None else Some(n.value % 256)
  }

  /** The first four parts of an address, if each is a number. */
  function Octets(address: string): Option<seq<Byte>> {
    if exists k :: 0 <= k < 4 && OctetAt(address, k).None? then None
    else Some(seq(4, k requires 0 <= k < 4 && OctetAt(address, k).Some? => OctetAt(address, k).value))
  }

  /** The address begins with these octets. */
  ghost predicate FirstOctets(address: string, got: seq<Byte>) {
    forall k | 0 <= k < |got| :: OctetAt(address, k) == Some(got[k])
  }

  lemma OneMore(address: string, got: seq<Byte>, octet: Byte)
    requires FirstOctets(address, got) && OctetAt(address, |got|) == Some(octet)
    ensures FirstOctets(address, got + [octet])
  {
  }

  lemma OctetsAre(address: string, q: Quad)
    requires FirstOctets(address, q)
    ensures Octets(address) == Some(q)
  {
    assert Octets(address).value == q;
  }

  lemma OctetMissing(address: string, k: nat)
    requires k < 4 && OctetAt(address, k).None?
    ensures Octets(address) == None
  {
  }

  /** Version 4, command 1 (CONNECT), and the port in network order. */
  function Header(port: nat): seq<Byte>
    requires port < 65536
  {
    [4, 1, port / 256, port % 256]
  }

  /** do_request: the header and four octets. */
  function Encode(port: nat, address: string): Option<seq<Byte>>
    requires port < 65536
  {
    var octets := Octets(address);
    if octets.None? then None else Some(Header(port) + octets.value)
  }

  /** One turn of do_request's loop: slice, read, cut to a byte. */
  method NextOctet(ip: string, ghost address: string, ghost k: nat) returns (octet: Option<Byte>, rest: string)
    requires ip == After(address, k)
    ensures octet == OctetAt(address, k) && rest == After(address, k + 1)
  {
    var part;
    part, rest := Slicer(ip, '.');
    var n := Stoi(part);
    octet := if n.None? then None else Some(n.value % 256);
  }

  lemma Behind(packet: seq<Byte>, header: seq<Byte>, got: seq<Byte>)
    requires packet == header + got
    ensures packet[..|header|] == header && packet[|header|..] == got
  {
  }

  /** do_request fills an array of eight bytes, slicing the address as it goes. */
  method DoRequest(port: nat, address: string) returns (ok: bool, packet: array<Byte>)
    requires port < 65536
    ensures fresh(packet) && packet.Length == 8
    ensures ok == Encode(port, address).Some?
    ensures ok ==> packet[..] == Encode(port, address).value
  {
    packet := new Byte[8](_ => 0);
    packet[0] := 4;
    packet[1] := 1;
    packet[2] := port / 256;
    packet[3] := port % 256;
    ok := FillOctets(packet, address);
    assert packet[..] == packet[..4] + packet[4..];
  }

  method FillOctets(packet: array<Byte>, address: string) returns (ok: bool)
    requires packet.Length == 8
    modifies packet
    ensures packet[..4] == old(packet[..4])
    ensures Octets(address) == if ok then Some(packet[4..]) else None
  {
    var ip := address;
    var i := 0;
    ghost var header, got: seq<Byte> := packet[..4], [];
    while i < 4
      invariant 0 <= i <= 4 && ip == After(address, i) && |got| == i
      invariant packet[..4 + i] == header + got && FirstOctets(address, got)
    {
      ok, ip := PutOctet(packet, i, ip, address, header, got);
      if !ok { return; }
      got := got + [packet[4 + i]];
      i := i + 1;
    }
    assert packet[..] == packet[..8];
    Behind(packet[..], header, got);
    OctetsAre(address, packet[4..]);
    return true;
  }

  /** One octet more, or a part that is no number. */
  method PutOctet(packet: array<Byte>, i: nat, ip: string, ghost address: string,
                  ghost header: seq<Byte>, ghost got: seq<Byte>) returns (ok: bool, rest: string)
    requires packet.Length == 8 && i < 4 && |header| == 4 && |got| == i
    requires ip == After(address, i) && packet[..4 + i] == header + got && FirstOctets(address, got)
    modifies packet
    ensures rest == After(address, i + 1) && packet[..4] == header
    ensures if ok then packet[..5 + i] == header + (got + [packet[4 + i]]) && FirstOctets(address, got + [packet[4 + i]])
            else Octets(address) == None
  {
    var octet;
    octet, rest := NextOctet(ip, address, i);
    ok := octet.Some?;
    assert packet[..4] == packet[..4 + i][..4] == header;
    if ok {
      packet[4 + i] := octet.value;
      assert packet[..5 + i] == packet[..4 + i] + [packet[4 + i]];
      OneMore(address, got, octet.value);
    } else {
      OctetMissing(address, i);
    }
  }

  datatype Request = Request(cd: string, port: string, ip: string, userId: string, domain: string)

  /** Bytes as text. */
  function Text(bytes: seq<Byte>): (t: string)
    ensures |t| == |bytes|
  {
    seq(|bytes|, i requires 0 <= i < |bytes| => bytes[i] as char)
  }

  /** Where the next NUL is. The source reads on until it meets one. */
  function NextNul(data: seq<Byte>, i: nat): (n: nat)
    requires exists k :: i <= k < |data| && data[k] == 0
    ensures i <= n < |data| && data[n] == 0 && forall k :: i <= k < n ==> data[k] != 0
    decreases |data| - i
  {
    if data[i] == 0 then i else NextNul(data, i + 1)
  }

  ghost predicate Terminated(data: seq<Byte>) {
    |data| >= 8 && (exists k :: 8 <= k < |data| && data[k] == 0)
    && exists k :: NextNul(data, 8) + 1 <= k < |data| && data[k] == 0
  }

  ghost function Decode(data: seq<Byte>): Request
    requires Terminated(data)
  {
    var user := NextNul(data, 8);
    Request(Dec(data[1]), Dec(data[2] as int * 256 + data[3] as int), Dotted(data[4..8]),
            Text(data[8..user]), Text(data[user + 1..NextNul(data, user + 1)]))
  }

  /** SOCKS4_parser up to the name resolution. */
  method Socks4Parser(data: array<Byte>) returns (r: Request)
    requires Terminated(data[..])
    ensures r == Decode(data[..])
  {
    var ip := Dec(data[4]) + "." + Dec(data[5]) + "." + Dec(data[6]) + "." + Dec(data[7]);
    assert ip == Dotted(data[4..8]) by { DottedOfFour(data[4..8]); }
    var userId, i := ReadText(data, 8);
    i := i + 1;
    var domain, _ := ReadText(data, i);
    r := Request(Dec(data[1]), Dec(data[2] as int * 256 + data[3] as int), ip, userId, domain);
  }

  method ReadText(data: array<Byte>, start: nat) returns (text: string, i: nat)
    requires exists k :: start <= k < data.Length && data[..][k] == 0
    ensures i == NextNul(data[..], start) && text == Text(data[start..i])
  {
    text, i := "", start;
    while data[i] != 0
      invariant start <= i <= NextNul(data[..], start) && text == Text(data[start..i])
      decreases data.Length - i
    {
      assert data[start..i + 1] == data[start..i] + [data[i]];
      text := text + [data[i] as char];
      i := i + 1;
    }
  }

  lemma DottedOfFour(q: seq<Byte>)
    requires |q| == 4
    ensures Dotted(q) == Dec(q[0]) + "." + Dec(q[1]) + "." + Dec(q[2]) + "." + Dec(q[3])
  {
    var q1, q2, q3 := q[1..], q[2..], q[3..];
    assert q1[1..] == q2 && q2[1..] == q3;
    assert Dotted(q3) == Dec(q[3]);
    assert Dotted(q2) == Dec(q[2]) + "." + Dotted(q3);
    assert Dotted(q1) == Dec(q[1]) + "." + Dotted(q2);
    Regroup(Dec(q[0]), Dec(q[1]), Dec(q[2]), Dec(q[3]));
  }

  lemma Regroup(a: string, b: string, c: string, d: string)
    ensures a + "." + b + "." + c + "." + d == a + "." + (b + "." + (c + "." + d))
  {
  }

  lemma {:induction false} AfterDotted(text: string, q: seq<Byte>, k: nat)
    requires k < |q| && text == Dotted(q)
    ensures After(text, k) == Dotted(q[k..])
  {
    if k == 0 {
      assert q[0..] == q;
    } else {
      AfterDotted(text, q, k - 1);
      NextPart(text, q, k - 1, k);
    }
  }

  /** The parts of a dotted address are its octets in decimal. */
  lemma PartOfDotted(q: seq<Byte>, k: nat)
    requires k < |q|
    ensures After(Dotted(q), k) == Dotted(q[k..]) && Part(Dotted(q), k) == Dec(q[k])
  {
    AfterDotted(Dotted(q), q, k);
    PartCut(Dotted(q), q, k);
  }

  lemma NextPart(text: string, q: seq<Byte>, j: nat, k: nat)
    requires k == j + 1 < |q| && After(text, j) == Dotted(q[j..])
    ensures After(text, k) == Dotted(q[k..])
  {
    CutDotted(q[j..]);
    assert q[j..][1..] == q[k..];
  }

  lemma PartCut(text: string, q: seq<Byte>, k: nat)
    requires k < |q| && After(text, k) == Dotted(q[k..])
    ensures Part(text, k) == Dec(q[k])
  {
    CutDotted(q[k..]);
  }

  /** Taking a dotted address apart and reading its parts gives the octets back. */
  lemma OctetsOfDotted(q: Quad)
    ensures Octets(Dotted(q)) == Some(q)
  {
    forall k | 0 <= k < 4 ensures OctetAt(Dotted(q), k) == Some(q[k]) { OctetOfDotted(q, k); }
    OctetsAre(Dotted(q), q);
  }

  lemma OctetOfDotted(q: Quad, k: nat)
    requires k < 4
    ensures OctetAt(Dotted(q), k) == Some(q[k])
  {
    PartOfDotted(q, k);
    StoiOfDec(q[k], "");
    assert Dec(q[k]) + "" == Dec(q[k]);
    OctetOfPart(Dotted(q), k, q[k]);
  }

  lemma OctetOfNumber(address: string, k: nat, n: nat)
    requires Part(address, k) == Dec(n)
    ensures OctetAt(address, k) == if n > INT_MAX then None else Some(n % 256)
  {
    StoiOfDec(n, "");
    assert Dec(n) + "" == Dec(n);
  }

  function LowBytes(n: seq<nat>): seq<Byte> {
    seq(|n|, k requires 0 <= k < |n| => n[k] % 256)
  }

  /** For numbers that are no octets: each is cut to a byte, and with one beyond INT_MAX there is no request. */
  lemma OctetsOfNumbers(address: string, n: seq<nat>)
    requires |n| == 4 && forall k | 0 <= k < 4 :: Part(address, k) == Dec(n[k])
    ensures Octets(address) == if exists k :: 0 <= k < 4 && n[k] > INT_MAX then None else Some(LowBytes(n))
  {
    forall k | 0 <= k < 4 ensures OctetAt(address, k) == if n[k] > INT_MAX then None else Some(n[k] % 256) {
      OctetOfNumber(address, k, n[k]);
    }
    if exists k :: 0 <= k < 4 && n[k] > INT_MAX {
      var k :| 0 <= k < 4 && n[k] > INT_MAX;
      OctetMissing(address, k);
    } else {
      OctetsAre(address, LowBytes(n));
    }
  }

  lemma OctetOfPart(address: string, k: nat, octet: Byte)
    requires Stoi(Part(address, k)) == Some(octet)
    ensures OctetAt(address, k) == Some(octet)
  {
  }

  /** Round trip (SOCKS 4, section 1): for every port and every address, the server reads back from the
      eight bytes the client wrote, followed by NULs, the command, the port in decimal and the same
      dotted address. */
  lemma RoundTrip(port: nat, q: Quad, padding: seq<Byte>)
    requires port < 65536 && |padding| >= 2 && padding[0] == padding[1] == 0
    ensures Encode(port, Dotted(q)).Some?
    ensures var packet := Encode(port, Dotted(q)).value;
            && |packet| == 8 && packet[0] == 4 && packet[1] == 1
            && packet[2] as int * 256 + packet[3] as int == port && packet[4..] == q
    ensures var data := Encode(port, Dotted(q)).value + padding;
            Terminated(data) && Decode(data) == Request("1", Dec(port), Dotted(q), "", "")
  {
    OctetsOfDotted(q);
    var packet := Header(port) + q;
    assert Encode(port, Dotted(q)) == Some(packet);
    DecodePacket(port, q, packet + padding);
    assert Dec(1) == "1";
  }

  lemma DecodePacket(port: nat, q: Quad, data: seq<Byte>)
    requires port < 65536 && |data| >= 10 && data[..8] == Header(port) + q && data[8] == data[9] == 0
    ensures Terminated(data) && Decode(data) == Request(Dec(1), Dec(port), Dotted(q), "", "")
  {
    assert NextNul(data, 8) == 8 && NextNul(data, 9) == 9;
    assert data[4..8] == data[..8][4..] == q;
    assert data[1] == data[..8][1] == 1;
    assert data[2] == data[..8][2] == port / 256;
    assert data[3] == data[..8][3] == port % 256;
    assert data[2] as int * 256 + data[3] as int == port;
    assert Text(data[8..8]) == "" && Text(data[9..9]) == "";
  }

  /** Each text of a request in its own field, character by character: the user id up to the first NUL after the
      eight header bytes, the domain name up to the next. */
  lemma DecodeTexts(header: seq<Byte>, user: seq<Byte>, domain: seq<Byte>, rest: seq<Byte>)
    requires |header| == 8 && 0 !in user && 0 !in domain
    ensures var data := header + user + [0] + domain + [0] + rest;
            Terminated(data)
            && var r := Decode(data);
               && |r.userId| == |user| && (forall k | 0 <= k < |user| :: r.userId[k] == user[k] as char)
               && |r.domain| == |domain| && (forall k | 0 <= k < |domain| :: r.domain[k] == domain[k] as char)
               && r.cd == Dec(header[1]) && r.port == Dec(header[2] as int * 256 + header[3] as int)
               && r.ip == Dotted(header[4..])
               && (domain == [] ==> Host(r) == r.ip) && (domain != [] ==> Host(r) == r.domain)
  {
    var data := header + user + [0] + domain + [0] + rest;
    Grouped(header, user, [0], domain, rest);
    TextEnds(data, header, user, [0] + domain + [0] + rest, 8);
    TextEnds(data, header + user + [0], domain, [0] + rest, 9 + |user|);
    DecodeFields(data, user, domain);
    assert data[..8] == header;
    DecodeHeader(data, header);
  }

  lemma DecodeHeader(data: seq<Byte>, header: seq<Byte>)
    requires Terminated(data) && |header| == 8 && data[..8] == header
    ensures var r := Decode(data);
            && r.cd == Dec(header[1]) && r.port == Dec(header[2] as int * 256 + header[3] as int)
            && r.ip == Dotted(header[4..])
  {
    assert data[4..8] == header[4..];
    assert data[1] == data[..8][1] && data[2] == data[..8][2] && data[3] == data[..8][3];
  }

  lemma Grouped(h: seq<Byte>, u: seq<Byte>, z: seq<Byte>, d: seq<Byte>, r: seq<Byte>)
    ensures h + u + z + d + z + r == h + u + (z + d + z + r) == h + u + z + d + (z + r)
  {
  }

  lemma DecodeFields(data: seq<Byte>, user: seq<Byte>, domain: seq<Byte>)
    requires |data| >= 10 + |user| + |domain| && data[8 + |user|] == 0 && data[9 + |user| + |domain|] == 0
    requires data[8..8 + |user|] == user && data[9 + |user|..9 + |user| + |domain|] == domain
    requires NextNul(data, 8) == 8 + |user| && NextNul(data, 9 + |user|) == 9 + |user| + |domain|
    ensures Terminated(data)
    ensures var r := Decode(data);
            && |r.userId| == |user| && (forall k | 0 <= k < |user| :: r.userId[k] == user[k] as char)
            && |r.domain| == |domain| && (forall k | 0 <= k < |domain| :: r.domain[k] == domain[k] as char)
  {
  }

  /** A text without NULs that a NUL follows. */
  lemma TextEnds(data: seq<Byte>, before: seq<Byte>, text: seq<Byte>, after: seq<Byte>, i: nat)
    requires data == before + text + after && |before| == i && 0 !in text && |after| > 0 && after[0] == 0
    ensures i + |text| < |data| && data[i + |text|] == 0 && data[i..i + |text|] == text
    ensures NextNul(data, i) == i + |text|
  {
    var n := i + |text|;
    assert data[i..n] == text;
    forall k | i <= k < n ensures data[k] != 0 { assert data[k] == text[k - i] && text[k - i] in text; }
    assert data[n] == after[0];
    var f := NextNul(data, i);
    assert !(f < n) && !(n < f);
  }

  /** The host that is resolved: the domain name, if the request has one. */
  function Host(r: Request): string {
    if r.domain == "" then r.ip else r.domain
  }

  /** What goes wrong for an address that is not dotted: stoi throws and no request is made. */
  lemma NotDotted(port: nat, address: string)
    requires port < 65536 && (address == "" || !IsDigit(address[0]))
    ensures Encode(port, address).None?
  {
    var part := Cut(address, '.').0;
    assert part == "" || part[0] == address[0];
    assert After(address, 0) == address && Part(address, 0) == part;
    assert OctetAt(address, 0).None?;
  }

  /** do_work's reply: granted is (0, 90), refused is (4, 91); bytes 2 and 3 are the requested port. */
  function ReplyTo(granted: bool, port: string): Option<seq<Byte>> {
    var p := Stoi(port);
    if p.None? then None
    else Some([if granted then 0 else 4, if granted then 90 else 91, p.value % 65536 / 256, p.value % 256, 0, 0, 0, 0])
  }

  /** The reply to a request names the port the client asked for, and says whether it is granted: (0, 90) or
      (4, 91). */
  lemma ReplyNamesPort(port: nat, granted: bool)
    requires port < 65536
    ensures ReplyTo(granted, Dec(port)).Some?
    ensures var r := ReplyTo(granted, Dec(port)).value;
            && |r| == 8 && r[2] as int * 256 + r[3] as int == port && r[4..] == [0, 0, 0, 0]
            && (if granted then r[0] == 0 && r[1] == 90 else r[0] == 4 && r[1] == 91)
  {
    StoiOfDec(port, "");
    assert Dec(port) + "" == Dec(port);
    ReplyBytes(port, granted, Dec(port));
  }

  lemma ReplyBytes(port: nat, granted: bool, text: string)
    requires port < 65536 && Stoi(text) == Some(port)
    ensures ReplyTo(granted, text).Some?
    ensures var r := ReplyTo(granted, text).value;
            && |r| == 8 && r[2] as int * 256 + r[3] as int == port && r[4..] == [0, 0, 0, 0]
            && (if granted then r[0] == 0 && r[1] == 90 else r[0] == 4 && r[1] == 91)
  {
    var r := ReplyTo(granted, text).value;
    assert r[2] == port / 256 && r[3] == port % 256;
  }

  // --- the rules ---

  predicate PartMatches(part: string, pattern: string) {
    part == pattern || pattern == "*"
  }

  /** match_IP's loop, on the parts at hand, what is left of both strings, and the counter. */
  function MatchFrom(a: string, b: string, ip: string, rule: string, i: nat): bool
    decreases |ip|
  {
    if !PartMatches(a, b) then i == 4
    else
      var (a', ip') := Cut(ip, '.');
      var (b', rule') := Cut(rule, '.');
      if ip' == "" || rule' == "" then i + 1 == 4 else MatchFrom(a', b', ip', rule', i + 1)
  }

  function Matches(ip: string, rule: string): bool {
    var (a, ip') := Cut(ip, '.');
    var (b, rule') := Cut(rule, '.');
    MatchFrom(a, b, ip', rule', 1)
  }

  method MatchIP(dstIp: string, allowIp: string) returns (r: bool)
    ensures r == Matches(dstIp, allowIp)
    ensures forall q: Quad | dstIp == Dotted(q) :: r <==> Allowed(q, allowIp)
  {
    var cmpA, str := Slicer(dstIp, '.');
    var cmpB, allow := Slicer(allowIp, '.');
    var i := 1;
    while cmpA == cmpB || cmpB == "*"
      invariant i >= 1 && MatchFrom(cmpA, cmpB, str, allow, i) == Matches(dstIp, allowIp)
      decreases |str|
    {
      var a, b;
      a, str := Slicer(str, '.');
      b, allow := Slicer(allow, '.');
      cmpA, cmpB := a, b;
      i := i + 1;
      if str == "" || allow == "" { break; }
    }
    r := i == 4;
    RuleDecides(dstIp, allowIp);
  }

  lemma RuleDecides(ip: string, rule: string)
    ensures forall q: Quad | ip == Dotted(q) :: Matches(ip, rule) <==> Allowed(q, rule)
  {
    forall q: Quad | ip == Dotted(q) ensures Matches(ip, rule) <==> Allowed(q, rule) { MatchesIff(q, rule); }
  }

  /** The loop, part by part. */
  lemma MatchesParts(q: Quad, rule: string)
    ensures Matches(Dotted(q), rule) <==>
            FirstThree(q, rule) && After(rule, 3) != ""
  {
    var q1 := q[1..];
    assert q1[1..] == q[2..];
    CutDotted(q);
    assert Dotted(q1) != "";
    assert After(rule, 1) == Cut(After(rule, 0), '.').1;
    SecondPart(q, rule);
    FirstPart(q, rule);
  }

  /** The turn of the loop that compares part k, for k = 0, 1, 2. */
  lemma FirstPart(q: Quad, rule: string)
    ensures MatchFrom(Dec(q[0]), Part(rule, 0), Dotted(q[1..]), After(rule, 1), 1)
        <==> && PartMatches(Dec(q[0]), Part(rule, 0)) && After(rule, 2) != ""
             && MatchFrom(Dec(q[1]), Part(rule, 1), Dotted(q[2..]), After(rule, 2), 2)
  {
    assert q[1..][1..] == q[2..];
    CutDotted(q[1..]);
    assert After(rule, 2) == Cut(After(rule, 1), '.').1;
    assert Dotted(q[2..]) != "";
  }

  lemma SecondPart(q: Quad, rule: string)
    ensures MatchFrom(Dec(q[1]), Part(rule, 1), Dotted(q[2..]), After(rule, 2), 2)
        <==> && PartMatches(Dec(q[1]), Part(rule, 1)) && After(rule, 3) != ""
             && PartMatches(Dec(q[2]), Part(rule, 2))
    ensures After(rule, 3) != "" ==> After(rule, 2) != ""
  {
    assert q[2..][1..] == q[3..];
    CutDotted(q[2..]);
    assert After(rule, 3) == Cut(After(rule, 2), '.').1;
    assert Dotted(q[3..]) != "";
    assert Cut("", '.') == ("", "");
    ThirdPart(q, rule);
  }

  /** Whatever the fourth parts are, they are not compared. */
  lemma ThirdPart(q: Quad, rule: string)
    ensures MatchFrom(Dec(q[2]), Part(rule, 2), Dotted(q[3..]), After(rule, 3), 3)
        <==> PartMatches(Dec(q[2]), Part(rule, 2))
  {
    CutDotted(q[3..]);
  }

  /** So a rule for one address grants all 256 that share its first three parts. */
  lemma FourthPartIgnored(q: Quad, d: Byte)
    ensures Matches(Dotted(q), Dotted(q[3 := d]))
  {
    var p := q[3 := d];
    var p1, p2, p3 := p[1..], p[2..], p[3..];
    assert p1[1..] == p2 && p2[1..] == p3;
    CutDotted(p);
    CutDotted(p1);
    CutDotted(p2);
    var rule := Dotted(p);
    assert After(rule, 1) == Dotted(p1);
    assert After(rule, 2) == Dotted(p2);
    assert After(rule, 3) == Dotted(p3) != "";
    MatchesParts(q, rule);
  }

  predicate FirstThree(q: Quad, rule: string) {
    && PartMatches(Dec(q[0]), Part(rule, 0)) && PartMatches(Dec(q[1]), Part(rule, 1))
    && PartMatches(Dec(q[2]), Part(rule, 2))
  }

  // --- the rules as texts ---

  /** A rule of three parts without dots and something after them. */
  ghost predicate FourParts(rule: string, a: string, b: string, c: string, d: string) {
    rule == a + "." + b + "." + c + "." + d && '.' !in a && '.' !in b && '.' !in c && d != ""
  }

  lemma PartsOf(rule: string, a: string, b: string, c: string, d: string)
    requires FourParts(rule, a, b, c, d)
    ensures Part(rule, 0) == a && Part(rule, 1) == b && Part(rule, 2) == c && After(rule, 3) == d
  {
    var r2 := c + ['.'] + d;
    var r1 := b + ['.'] + r2;
    assert rule == a + ['.'] + r1;
    CutJoined(a, r1, '.');
    CutJoined(b, r2, '.');
    CutJoined(c, d, '.');
    assert After(rule, 1) == r1;
    assert After(rule, 2) == Cut(After(rule, 1), '.').1 == r2;
    assert After(rule, 3) == Cut(After(rule, 2), '.').1 == d;
  }

  lemma CutRejoined(s: string)
    requires Cut(s, '.').1 != ""
    ensures s == Cut(s, '.').0 + ['.'] + Cut(s, '.').1 && '.' !in Cut(s, '.').0
  {
    var pos := FindChar(s, '.');
    assert s == s[..pos] + [s[pos]] + s[pos + 1..];
  }

  lemma PartsFound(rule: string)
    requires After(rule, 3) != ""
    ensures FourParts(rule, Part(rule, 0), Part(rule, 1), Part(rule, 2), After(rule, 3))
  {
    assert Cut("", '.') == ("", "");
    assert After(rule, 3) == Cut(After(rule, 2), '.').1;
    assert After(rule, 2) == Cut(After(rule, 1), '.').1;
    assert After(rule, 1) == Cut(After(rule, 0), '.').1;
    CutRejoined(After(rule, 2));
    CutRejoined(After(rule, 1));
    CutRejoined(rule);
    var a, b, c, d := Part(rule, 0), Part(rule, 1), Part(rule, 2), After(rule, 3);
    assert rule == a + "." + (b + "." + (c + "." + d));
    Regroup(a, b, c, d);
  }

  /** match_IP, in terms of the rule's text: each of its first three parts is a star or the octet in decimal;
      whatever stands after the third dot is not compared. */
  lemma MatchesText(q: Quad, a: string, b: string, c: string, d: string)
    requires '.' !in a && '.' !in b && '.' !in c && d != ""
    ensures Matches(Dotted(q), a + "." + b + "." + c + "." + d) <==>
            (a == "*" || a == Dec(q[0])) && (b == "*" || b == Dec(q[1])) && (c == "*" || c == Dec(q[2]))
  {
    var rule := a + "." + b + "." + c + "." + d;
    PartsOf(rule, a, b, c, d);
    MatchesParts(q, rule);
  }

  /** The address has a rule of the form a.b.c.d in which a, b and c fit it. */
  ghost predicate Allowed(q: Quad, rule: string) {
    exists a, b, c, d | FourParts(rule, a, b, c, d) ::
      (a == "*" || a == Dec(q[0])) && (b == "*" || b == Dec(q[1])) && (c == "*" || c == Dec(q[2]))
  }

  /** And a rule of any other form matches no address. */
  lemma MatchesIff(q: Quad, rule: string)
    ensures Matches(Dotted(q), rule) <==> Allowed(q, rule)
  {
    MatchesParts(q, rule);
    if After(rule, 3) != "" {
      PartsFound(rule);
      MatchesText(q, Part(rule, 0), Part(rule, 1), Part(rule, 2), After(rule, 3));
    }
    if Allowed(q, rule) {
      var a, b, c, d :| FourParts(rule, a, b, c, d) && (a == "*" || a == Dec(q[0])) && (b == "*" || b == Dec(q[1]))
                        && (c == "*" || c == Dec(q[2]));
      MatchesText(q, a, b, c, d);
    }
  }

  /** Four stars match every address. */
  lemma StarsMatchAll(q: Quad)
    ensures Matches(Dotted(q), "*.*.*.*")
  {
    assert "*.*.*.*" == "*" + "." + "*" + "." + "*" + "." + "*";
    MatchesText(q, "*", "*", "*", "*");
  }

  /** For rules of four parts, the code agrees with what is meant, each part a star or equal, exactly when the
      fourth part fits or one of the first three does not. */
  lemma MatchIntendedIff(q: Quad, a: string, b: string, c: string, d: string)
    requires '.' !in a && '.' !in b && '.' !in c && '.' !in d && d != ""
    ensures var first := (a == "*" || a == Dec(q[0])) && (b == "*" || b == Dec(q[1])) && (c == "*" || c == Dec(q[2]));
            var fourth := d == "*" || d == Dec(q[3]);
            (Matches(Dotted(q), a + "." + b + "." + c + "." + d) == (first && fourth)) <==> fourth || !first
  {
    MatchesText(q, a, b, c, d);
  }

  /** One line of socks.conf: a word, the method letter, the address pattern. */
  function Permits(line: string, cd: string, ip: string): bool {
    var rest := Cut(line, ' ').1;
    var (letter, rest') := Cut(rest, ' ');
    ((letter == "c" && cd == "1") || (letter == "b" && cd == "2")) && Matches(ip, Cut(rest', ' ').0)
  }

  /** A rule as it is meant: some word, the method letter, the address pattern, and perhaps more words. */
  datatype Rule = Rule(word: string, letter: string, pattern: string, tail: string) {
    predicate Valid() {
      ' ' !in word && ' ' !in letter && ' ' !in pattern && (tail == "" || tail[0] == ' ')
    }

    function Text(): string {
      word + " " + letter + " " + pattern + tail
    }

    /** The letter fits the command, and the pattern the address. */
    ghost predicate Grants(cd: string, q: Quad) {
      ((letter == "c" && cd == "1") || (letter == "b" && cd == "2")) && Allowed(q, pattern)
    }
  }

  lemma WordsOf(rule: Rule)
    requires rule.Valid()
    ensures Cut(Cut(rule.Text(), ' ').1, ' ').0 == rule.letter
    ensures Cut(Cut(Cut(rule.Text(), ' ').1, ' ').1, ' ').0 == rule.pattern
  {
    var last := rule.pattern + rule.tail;
    var rest := rule.letter + [' '] + last;
    assert rule.Text() == rule.word + [' '] + rest;
    CutJoined(rule.word, rest, ' ');
    CutJoined(rule.letter, last, ' ');
    FirstWord(rule.pattern, rule.tail);
  }

  lemma FirstWord(word: string, tail: string)
    requires ' ' !in word && (tail == "" || tail[0] == ' ')
    ensures Cut(word + tail, ' ').0 == word
  {
    if tail == "" {
      assert word + tail == word;
      CutLast(word, ' ');
    } else {
      assert word + tail == word + [' '] + tail[1..];
      CutJoined(word, tail[1..], ' ');
    }
  }

  lemma PermitsWords(line: string, letter: string, pattern: string, cd: string, ip: string)
    requires Cut(Cut(line, ' ').1, ' ').0 == letter && Cut(Cut(Cut(line, ' ').1, ' ').1, ' ').0 == pattern
    ensures Permits(line, cd, ip) <==>
            ((letter == "c" && cd == "1") || (letter == "b" && cd == "2")) && Matches(ip, pattern)
  {
  }

  /** What a line of the file grants, in terms of its three words. */
  lemma PermitsIff(rule: Rule, cd: string, q: Quad)
    requires rule.Valid()
    ensures Permits(rule.Text(), cd, Dotted(q)) <==> rule.Grants(cd, q)
  {
    WordsOf(rule);
    PermitsWords(rule.Text(), rule.letter, rule.pattern, cd, Dotted(q));
    MatchesIff(q, rule.pattern);
  }

  /** A line that permits all addresses to CONNECT, or all to BIND. */
  ghost predicate OpenToAll(line: string, cd: string) {
    exists r: Rule | r.Valid() && r.pattern == "*.*.*.*" ::
      r.letter == (if cd == "1" then "c" else "b") && line == r.Text()
  }

  lemma OpenPermits(line: string, cd: string, q: Quad)
    requires (cd == "1" || cd == "2") && OpenToAll(line, cd)
    ensures Permits(line, cd, Dotted(q))
  {
    var r: Rule :| r.Valid() && r.pattern == "*.*.*.*"
                   && r.letter == (if cd == "1" then "c" else "b") && line == r.Text();
    WordsOf(r);
    PermitsWords(line, r.letter, r.pattern, cd, Dotted(q));
    StarsMatchAll(q);
  }

  /** The file holds these rules, one a line. */
  ghost predicate Written(conf: seq<string>, rules: seq<Rule>) {
    |conf| == |rules| && forall k | 0 <= k < |conf| :: rules[k].Valid() && conf[k] == rules[k].Text()
  }

  predicate SomePermits(conf: seq<string>, cd: string, ip: string) {
    exists k :: 0 <= k < |conf| && Permits(conf[k], cd, ip)
  }

  lemma GrantedIff(conf: seq<string>, rules: seq<Rule>, cd: string, q: Quad)
    requires Written(conf, rules)
    ensures SomePermits(conf, cd, Dotted(q)) <==> exists r <- rules :: r.Grants(cd, q)
  {
    forall k | 0 <= k < |conf| ensures Permits(conf[k], cd, Dotted(q)) <==> rules[k].Grants(cd, q) {
      PermitsIff(rules[k], cd, q);
    }
  }

  /** The body of firewall's loop. */
  method RulePermits(line: string, cd: string, ip: string) returns (permitted: bool)
    ensures permitted == Permits(line, cd, ip)
  {
    var _, config := Slicer(line, ' ');
    var allowMethod, rest := Slicer(config, ' ');
    var allowIp, _ := Slicer(rest, ' ');
    permitted := false;
    if (allowMethod == "c" && cd == "1") || (allowMethod == "b" && cd == "2") {
      permitted := MatchIP(ip, allowIp);
    }
  }

  /** firewall's loop over the lines of the file. */
  method SomeLinePermits(conf: seq<string>, cd: string, ip: string) returns (granted: bool)
    ensures granted == SomePermits(conf, cd, ip)
  {
    var k := 0;
    while k < |conf|
      invariant 0 <= k <= |conf|
      invariant forall j :: 0 <= j < k ==> !Permits(conf[j], cd, ip)
    {
      var permitted := RulePermits(conf[k], cd, ip);
      if permitted { return true; }
      k := k + 1;
    }
    return false;
  }

  /** firewall: only CONNECT and BIND requests are ever granted; and a request for a dotted address is
      granted exactly when one of the rules written in the file grants it. */
  method Firewall(conf: seq<string>, cd: string, ip: string) returns (granted: bool)
    ensures granted ==> cd == "1" || cd == "2"
    ensures granted <==> exists k :: 0 <= k < |conf| && Permits(conf[k], cd, ip)
    ensures forall rules: seq<Rule>, q: Quad | Written(conf, rules) && ip == Dotted(q) ::
              granted <==> exists r <- rules :: r.Grants(cd, q)
    ensures forall k, q: Quad | 0 <= k < |conf| && (cd == "1" || cd == "2") && OpenToAll(conf[k], cd) ::
              ip == Dotted(q) ==> granted
  {
    granted := SomeLinePermits(conf, cd, ip);
    forall rules: seq<Rule>, q: Quad | Written(conf, rules) && ip == Dotted(q)
      ensures granted <==> exists r <- rules :: r.Grants(cd, q)
    {
      GrantedIff(conf, rules, cd, q);
    }
    forall k, q: Quad | 0 <= k < |conf| && (cd == "1" || cd == "2") && OpenToAll(conf[k], cd) && ip == Dotted(q)
      ensures granted
    {
      OpenPermits(conf[k], cd, q);
    }
  }
}
