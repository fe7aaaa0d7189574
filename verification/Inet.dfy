// src/lwip/inet.py: dotted-decimal IPv4 addresses and their integer form, which
// has the first octet in the least significant byte.
module Inet {
  import opened Basics
  import opened Digits

  // str.split('.')
  function Split(s: string): (parts: seq<string>)
    ensures |parts| >= 1
  {
    if s == "" then [""]
    else
      var rest := Split(s[1..]);
      if s[0] == '.' then [""] + rest else [[s[0]] + rest[0]] + rest[1..]
  }

  // '.'.join(parts)
  function Join(parts: seq<string>): string
    requires |parts| >= 1
  {
    if |parts| == 1 then parts[0] else parts[0] + "." + Join(parts[1..])
  }

  datatype Octets = Octets(a: nat, b: nat, c: nat, d: nat)

  predicate InRange(o: Octets) {
    o.a < 256 && o.b < 256 && o.c < 256 && o.d < 256
  }

  // `a, b, c, d = [int(o) for o in addr.split(".")]`; None stands for ValueError.
  function ParseQuad(s: string): Option<Octets> {
    var p := Split(s);
    if |p| != 4 then None
    else match (Parse(Ten, p[0]), Parse(Ten, p[1]), Parse(Ten, p[2]), Parse(Ten, p[3]))
      case (Some(a), Some(b), Some(c), Some(d)) => Some(Octets(a, b, c, d))
      case _ => None
  }

  function Dotted(o: Octets): string {
    Print(Ten, o.a) + "." + Print(Ten, o.b) + "." + Print(Ten, o.c) + "." + Print(Ten, o.d)
  }

  function HexOf(o: Octets): string {
    PrintPadded(Sixteen, o.d) + PrintPadded(Sixteen, o.c) + PrintPadded(Sixteen, o.b) + PrintPadded(Sixteen, o.a)
  }

  function Str2Ip(s: string): Option<nat> {
    match ParseQuad(s)
    case None => None
    case Some(o) => Parse(Sixteen, HexOf(o))
  }

  // `ipnum & 0xFF`, `(ipnum >> 8) & 0xFF`, ...: floor division and remainder, for
  // negative integers as well.
  function OctetsOf(n: int): Octets {
    Octets(n % 256, n / 256 % 256, n / 65536 % 256, n / 16777216 % 256)
  }

  function Ip2Str(n: int): string {
    Dotted(OctetsOf(n))
  }

  // The number the four octets stand for.
  function Number(o: Octets): nat {
    o.a + 256 * o.b + 65536 * o.c + 16777216 * o.d
  }

  const TWO_32: nat := 0x1_0000_0000

  // ---- splitting and joining ----------------------------------------------

  predicate NoDot(s: string) { '.' !in s }

  lemma {:induction false} SplitPart(p: string, rest: string)
    requires NoDot(p)
    ensures Split(p) == [p]
    ensures Split(p + "." + rest) == [p] + Split(rest)
  {
    if p == "" {
      assert ("" + "." + rest)[1..] == rest;
    } else {
      SplitPart(p[1..], rest);
      assert (p + "." + rest)[1..] == p[1..] + "." + rest;
      assert [p[0]] + p[1..] == p;
    }
  }

  lemma {:induction false} JoinSplit(s: string)
    ensures Join(Split(s)) == s
    ensures forall i :: 0 <= i < |Split(s)| ==> NoDot(Split(s)[i])
  {
    if s != "" {
      var rest := Split(s[1..]);
      JoinSplit(s[1..]);
      var parts := Split(s);
      if s[0] == '.' {
        assert parts[1..] == rest;
        assert Join(parts) == "" + "." + s[1..];
      } else if |rest| == 1 {
        assert Join(parts) == [s[0]] + s[1..];
      } else {
        assert parts[1..] == rest[1..];
        assert Join(parts) == [s[0]] + rest[0] + "." + Join(rest[1..]);
        assert Join(parts) == [s[0]] + (rest[0] + "." + Join(rest[1..]));
      }
    }
  }

  function Quad(p: string, q: string, r: string, t: string): string {
    p + "." + q + "." + r + "." + t
  }

  lemma SplitQuad(p: string, q: string, r: string, t: string)
    requires NoDot(p) && NoDot(q) && NoDot(r) && NoDot(t)
    ensures Split(Quad(p, q, r, t)) == [p, q, r, t]
  {
    var rt := r + "." + t;
    var qrt := q + "." + rt;
    QuadNests(p, q, r, t);
    SplitPart(t, "");
    SplitPart(r, t);
    SplitPart(q, rt);
    SplitPart(p, qrt);
    assert Split(rt) == [r, t];
    assert Split(qrt) == [q, r, t];
  }

  lemma QuadNests(p: string, q: string, r: string, t: string)
    ensures Quad(p, q, r, t) == p + "." + (q + "." + (r + "." + t))
  {}

  lemma QuadOfSplit(s: string)
    requires |Split(s)| == 4
    ensures var p := Split(s); s == Quad(p[0], p[1], p[2], p[3])
  {
    JoinSplit(s);
    var p := Split(s);
    assert p[1..][1..] == p[2..] && p[2..][1..] == p[3..];
    assert Join(p[3..]) == p[3];
    assert Join(p[2..]) == p[2] + "." + p[3];
    assert Join(p[1..]) == p[1] + "." + (p[2] + "." + p[3]);
    QuadNests(p[0], p[1], p[2], p[3]);
  }

  // ---- numbers and octets -------------------------------------------------

  lemma OctetsRange(n: int)
    ensures InRange(OctetsOf(n))
    ensures Number(OctetsOf(n)) == n % TWO_32
  {
    var q0, q1, q2, q3 := n / 256, n / 65536, n / 16777216, n / TWO_32;
    assert q1 == q0 / 256 && q2 == q1 / 256 && q3 == q2 / 256;
  }

  lemma OctetsNumber(o: Octets)
    requires InRange(o)
    ensures OctetsOf(Number(o)) == o && Number(o) < TWO_32
  {
    var n := Number(o);
    assert n / 256 == o.b + 256 * o.c + 65536 * o.d;
    assert n / 65536 == o.c + 256 * o.d;
    assert n / 16777216 == o.d;
  }

  // The detour through the hexadecimal string gives the number.
  lemma HexIsNumber(o: Octets)
    requires InRange(o)
    ensures Parse(Sixteen, HexOf(o)) == Some(Number(o))
  {
    var h1 := PrintPadded(Sixteen, o.d);
    var h2 := h1 + PrintPadded(Sixteen, o.c);
    var h3 := h2 + PrintPadded(Sixteen, o.b);
    assert IsNumeral(Sixteen, h1) && Value(Sixteen, h1) == o.d by {
      AppendHexByte("", o.d);
      assert "" + h1 == h1;
    }
    AppendHexByte(h1, o.c);
    AppendHexByte(h2, o.b);
    AppendHexByte(h3, o.a);
    HexShift(o);
  }

  lemma HexShift(o: Octets)
    ensures ((o.d * 256 + o.c) * 256 + o.b) * 256 + o.a == Number(o)
  {}

  lemma DottedParses(o: Octets)
    ensures ParseQuad(Dotted(o)) == Some(o)
  {
    PrintThenParse(Ten, o.a);
    PrintThenParse(Ten, o.b);
    PrintThenParse(Ten, o.c);
    PrintThenParse(Ten, o.d);
    SplitQuad(Print(Ten, o.a), Print(Ten, o.b), Print(Ten, o.c), Print(Ten, o.d));
  }

  lemma DottedNumber(o: Octets)
    requires InRange(o)
    ensures Str2Ip(Dotted(o)) == Some(Number(o))
  {
    DottedParses(o);
    HexIsNumber(o);
  }

  // ---- main results -------------------------------------------------------

  // str2ip(ip2str(n)) is n modulo 2^32 for every integer n ...
  lemma NumberRoundTrip(n: int)
    ensures Str2Ip(Ip2Str(n)) == Some(n % TWO_32)
  {
    assert InRange(OctetsOf(n)) && Number(OctetsOf(n)) == n % TWO_32 by { OctetsRange(n); }
    DottedNumberIs(OctetsOf(n), Ip2Str(n), n % TWO_32);
  }

  // ... and n itself for every 32-bit n.
  lemma NumberRoundTrip32(n: nat)
    requires n < TWO_32
    ensures Str2Ip(Ip2Str(n)) == Some(n)
  {
    assert n == n % TWO_32;
    NumberRoundTripIs(n, n);
  }

  lemma NumberRoundTripIs(n: int, m: nat)
    requires m == n % TWO_32
    ensures Str2Ip(Ip2Str(n)) == Some(m)
  {
    NumberRoundTrip(n);
  }

  lemma DottedNumberIs(o: Octets, s: string, m: nat)
    requires InRange(o) && s == Dotted(o) && m == Number(o)
    ensures Str2Ip(s) == Some(m)
  {
    DottedNumber(o);
  }

  // ip2str depends on its argument only modulo 2^32, and on all of that.
  lemma SameTextIff(n: int, m: int)
    ensures Ip2Str(n) == Ip2Str(m) <==> n % TWO_32 == m % TWO_32
  {
    NumberRoundTrip(n);
    NumberRoundTrip(m);
    OctetsRange(n);
    OctetsRange(m);
    OctetsNumber(OctetsOf(n));
    OctetsNumber(OctetsOf(m));
  }

  // Character by character: four canonical decimals without leading zeros.
  predicate IsCanonicalQuad(s: string) {
    var p := Split(s);
    |p| == 4 && forall i :: 0 <= i < 4 ==> IsCanonical(Ten, p[i])
  }

  // Every dotted quad with octets in 0..255, leading zeros or not, comes back as
  // the canonical spelling of the same octets; it comes back as itself exactly
  // when it is canonical.
  lemma TextRoundTrip(s: string)
    requires ParseQuad(s).Some? && InRange(ParseQuad(s).value)
    ensures Str2Ip(s) == Some(Number(ParseQuad(s).value))
    ensures Ip2Str(Number(ParseQuad(s).value)) == Dotted(ParseQuad(s).value)
    ensures Ip2Str(Number(ParseQuad(s).value)) == s <==> IsCanonicalQuad(s)
  {
    var o := ParseQuad(s).value;
    HexIsNumber(o);
    OctetsNumber(o);
    var p := Split(s);
    QuadOfSplit(s);
    ParseThenPrint(Ten, p[0]);
    ParseThenPrint(Ten, p[1]);
    ParseThenPrint(Ten, p[2]);
    ParseThenPrint(Ten, p[3]);
    DottedParses(o);
    DottedIsCanonical(o);
  }

  // ---- ip4_addr -----------------------------------------------------------

  // inet_pton(AF_INET, s) accepts canonical dotted quads with octets in 0..255 and
  // gives their four bytes in order; None stands for OSError.
  function InetPton4(s: string): (r: Option<seq<byte>>)
    ensures r.Some? ==> |r.value| == 4
  {
    if IsCanonicalQuad(s) && ParseQuad(s).Some? && InRange(ParseQuad(s).value) then
      var o := ParseQuad(s).value;
      Some([o.a as byte, o.b as byte, o.c as byte, o.d as byte])
    else None
  }

  function InetNtop4(b: seq<byte>): string
    requires |b| == 4
  {
    Dotted(Octets(b[0] as nat, b[1] as nat, b[2] as nat, b[3] as nat))
  }

  // The integer a little-endian host reads from four bytes.
  function LittleEndian(b: seq<byte>): nat {
    if b == [] then 0 else b[0] as nat + 256 * LittleEndian(b[1..])
  }

  // Fills a struct ip4_addr with the bytes of the address.
  method Ip4Addr(s: string) returns (r: Option<array<byte>>)
    ensures r.Some? <==> InetPton4(s).Some?
    ensures r.Some? ==> fresh(r.value) && r.value[..] == InetPton4(s).value
  {
    var addr := new byte[4](_ => 0);
    var bytes := InetPton4(s);
    if bytes.None? {
      return None;
    }
    for i := 0 to 4
      invariant addr[..i] == bytes.value[..i]
    {
      addr[i] := bytes.value[i];
    }
    r := Some(addr);
  }

  // On a little-endian host the struct ip4_addr fills and the number str2ip
  // computes are the same 32-bit integer.
  lemma StructHoldsTheNumber(s: string)
    requires InetPton4(s).Some?
    ensures Str2Ip(s) == Some(LittleEndian(InetPton4(s).value))
  {
    TextRoundTrip(s);
    FourBytes(InetPton4(s).value);
  }

  lemma FourBytes(b: seq<byte>)
    requires |b| == 4
    ensures LittleEndian(b) == Number(Octets(b[0] as nat, b[1] as nat, b[2] as nat, b[3] as nat))
  {
    assert b[1..][1..] == b[2..] && b[2..][1..] == b[3..] && b[3..][1..] == [];
    assert LittleEndian(b[3..]) == b[3] as nat;
    assert LittleEndian(b[2..]) == b[2] as nat + 256 * b[3] as nat;
  }

  // inet_pton and inet_ntop undo each other.
  lemma Pton4Ntop4(b: seq<byte>)
    requires |b| == 4
    ensures InetPton4(InetNtop4(b)) == Some(b)
  {
    var o := Octets(b[0] as nat, b[1] as nat, b[2] as nat, b[3] as nat);
    DottedParses(o);
    DottedIsCanonical(o);
    assert InetPton4(Dotted(o)).value == b;
  }

  lemma DottedIsCanonical(o: Octets)
    ensures IsCanonicalQuad(Dotted(o))
  {
    PrintIsCanonical(Ten, o.a);
    PrintIsCanonical(Ten, o.b);
    PrintIsCanonical(Ten, o.c);
    PrintIsCanonical(Ten, o.d);
    SplitQuad(Print(Ten, o.a), Print(Ten, o.b), Print(Ten, o.c), Print(Ten, o.d));
  }

  lemma Ntop4Pton4(s: string)
    requires InetPton4(s).Some?
    ensures InetNtop4(InetPton4(s).value) == s
  {
    TextRoundTrip(s);
  }

  // ---- what the text says -------------------------------------------------

  // Four decimal numerals joined by dots.
  predicate IsText(p0: string, p1: string, p2: string, p3: string, s: string) {
    && s == p0 + "." + p1 + "." + p2 + "." + p3
    && IsDecimal(p0) && IsDecimal(p1) && IsDecimal(p2) && IsDecimal(p3)
  }

  predicate AllBytes(v0: nat, v1: nat, v2: nat, v3: nat) {
    v0 < 256 && v1 < 256 && v2 < 256 && v3 < 256
  }

  lemma TextParses(p0: string, p1: string, p2: string, p3: string, s: string)
    requires IsText(p0, p1, p2, p3, s)
    ensures Split(s) == [p0, p1, p2, p3]
    ensures ParseQuad(s) == Some(Octets(Decimal(p0), Decimal(p1), Decimal(p2), Decimal(p3)))
  {
    SplitQuad(p0, p1, p2, p3);
    ParseMeaning(p0);
    ParseMeaning(p1);
    ParseMeaning(p2);
    ParseMeaning(p3);
  }

  // str2ip: the first numeral is the least significant byte, whatever zeros stand in
  // front of the numerals.
  lemma Str2IpMeaning(p0: string, p1: string, p2: string, p3: string, s: string, n: nat)
    requires IsText(p0, p1, p2, p3, s) && AllBytes(Decimal(p0), Decimal(p1), Decimal(p2), Decimal(p3))
    requires n == Decimal(p0) + 256 * Decimal(p1) + 65536 * Decimal(p2) + 16777216 * Decimal(p3)
    ensures Str2Ip(s) == Some(n)
  {
    TextParses(p0, p1, p2, p3, s);
    QuadIsNumber(s, Octets(Decimal(p0), Decimal(p1), Decimal(p2), Decimal(p3)), n);
  }

  lemma QuadIsNumber(s: string, o: Octets, n: nat)
    requires ParseQuad(s) == Some(o) && InRange(o) && n == Number(o)
    ensures Str2Ip(s) == Some(n)
  {
    HexIsNumber(o);
  }

  // It accepts nothing but four decimal numerals.
  lemma Str2IpAccepts(s: string) returns (p0: string, p1: string, p2: string, p3: string)
    requires Str2Ip(s).Some?
    ensures IsText(p0, p1, p2, p3, s)
  {
    QuadOfSplit(s);
    p0, p1, p2, p3 := Split(s)[0], Split(s)[1], Split(s)[2], Split(s)[3];
    ParseMeaning(p0);
    ParseMeaning(p1);
    ParseMeaning(p2);
    ParseMeaning(p3);
  }

  // ip2str prints the least significant byte first, each without leading zeros.
  lemma Ip2StrMeaning(v0: nat, v1: nat, v2: nat, v3: nat, n: nat)
    requires AllBytes(v0, v1, v2, v3) && n == v0 + 256 * v1 + 65536 * v2 + 16777216 * v3
    ensures Ip2Str(n) == Print(Ten, v0) + "." + Print(Ten, v1) + "." + Print(Ten, v2) + "." + Print(Ten, v3)
  {
    Ip2StrIsDotted(Octets(v0, v1, v2, v3), n);
  }

  lemma Ip2StrIsDotted(o: Octets, n: nat)
    requires InRange(o) && n == Number(o)
    ensures Ip2Str(n) == Dotted(o)
  {
    OctetsNumber(o);
  }

  // inet_pton accepts exactly the texts printed so, and gives their bytes in the order of
  // the text.
  lemma Pton4Meaning(v0: nat, v1: nat, v2: nat, v3: nat, s: string)
    requires AllBytes(v0, v1, v2, v3)
    ensures InetPton4(s) == Some([v0 as byte, v1 as byte, v2 as byte, v3 as byte]) <==>
              s == Print(Ten, v0) + "." + Print(Ten, v1) + "." + Print(Ten, v2) + "." + Print(Ten, v3)
  {
    var b := [v0 as byte, v1 as byte, v2 as byte, v3 as byte];
    Ntop4Meaning(b);
    Pton4Ntop4(b);
    if InetPton4(s) == Some(b) { Ntop4Pton4(s); }
  }

  lemma Ntop4Meaning(b: seq<byte>)
    requires |b| == 4
    ensures InetNtop4(b) == Print(Ten, b[0] as nat) + "." + Print(Ten, b[1] as nat) + "."
                            + Print(Ten, b[2] as nat) + "." + Print(Ten, b[3] as nat)
  {}
}
