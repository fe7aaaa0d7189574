// src/lwip/socket.py, class SockAddr: address tuples to and from one byte buffer
// that is seen through three struct layouts (sections 3.4 and 3.10 of RFC 3493).
module SockAddrs {
  import opened Basics
  import Inet

  // Byte offsets in the three layouts; length and family coincide in all of them.
  //
  //   sockaddr_storage   s2_len   ss_family    padding .............................
  //   sockaddr_in        sin_len  sin_family   port  addr4  zero ...................
  //   sockaddr_in6       sin6_len sin6_family  port  flowinfo  addr16 ....  scope_id
  const LEN: nat := 0
  const FAMILY: nat := 1
  const PORT: nat := 2
  const SIN_ADDR: nat := 4
  const SIN6_FLOWINFO: nat := 4
  const SIN6_ADDR: nat := 8
  const SIN6_SCOPE_ID: nat := 24

  const SIZEOF_STORAGE: nat := 28
  const SIZEOF_IN: nat := 16
  const SIZEOF_IN6: nat := 28

  const AF_UNSPEC: int := 0
  const AF_INET: int := 2
  const AF_INET6: int := 10

  type Bytes4 = b: seq<byte> | |b| == 4 witness [0, 0, 0, 0]
  type Bytes16 = b: seq<byte> | |b| == 16 witness seq(16, _ => 0)
  type Buffer = b: seq<byte> | |b| == SIZEOF_STORAGE witness seq(28, _ => 0)

  // An IPv6 host text is what inet_pton makes of it.
  datatype Host6 = Empty6 | Literal6(bytes: Bytes16) | Malformed6

  // An address tuple. `Other` is a tuple of any other length.
  datatype Address =
    | Pair(host: string, port: int)
    | Quad(host6: Host6, port: int, flowinfo: int, scopeId: int)
    | Other(length: nat)

  datatype AddressError =
    | WrongLength      // ValueError
    | WrongFamily      // ValueError
    | BadHost          // OSError, from inet_pton
    | Overflow         // OverflowError, from htons or a field assignment

  // ---- integers in memory -------------------------------------------------

  function BigEndian16(v: nat): (r: seq<byte>)
    requires v < 0x1_0000
    ensures |r| == 2
  {
    [(v / 256) as byte, (v % 256) as byte]
  }

  // A field of a struct, in the byte order of the host.
  function Word16(little: bool, v: nat): (r: seq<byte>)
    requires v < 0x1_0000
    ensures |r| == 2
  {
    if little then [(v % 256) as byte, (v / 256) as byte] else BigEndian16(v)
  }

  function Read16(little: bool, b: seq<byte>): (v: nat)
    requires |b| == 2
    ensures v < 0x1_0000
  {
    if little then b[0] as nat + 256 * b[1] as nat else 256 * b[0] as nat + b[1] as nat
  }

  function Word32(little: bool, v: nat): (r: seq<byte>)
    requires v < 0x1_0000_0000
    ensures |r| == 4
  {
    var lo, hi := v % 0x1_0000, v / 0x1_0000;
    if little then Word16(true, lo) + Word16(true, hi) else Word16(false, hi) + Word16(false, lo)
  }

  function Read32(little: bool, b: seq<byte>): (v: nat)
    requires |b| == 4
    ensures v < 0x1_0000_0000
  {
    if little then Read16(true, b[..2]) + 0x1_0000 * Read16(true, b[2..])
    else 0x1_0000 * Read16(false, b[..2]) + Read16(false, b[2..])
  }

  // socket.htons and socket.ntohs: swap the two bytes on a little-endian host.
  function Htons(little: bool, v: nat): (r: nat)
    requires v < 0x1_0000
    ensures r < 0x1_0000
  {
    if little then v % 256 * 256 + v / 256 else v
  }

  lemma Words16(little: bool, v: nat)
    requires v < 0x1_0000
    ensures Read16(little, Word16(little, v)) == v
    ensures Htons(little, Htons(little, v)) == v
    ensures Word16(little, Htons(little, v)) == BigEndian16(v)
    ensures Htons(little, Read16(little, BigEndian16(v))) == v
  {
    assert v == v / 256 * 256 + v % 256;
  }

  lemma Words16Back(little: bool, b: seq<byte>)
    requires |b| == 2
    ensures Word16(little, Read16(little, b)) == b
    ensures BigEndian16(Htons(little, Read16(little, b))) == b
  {
    var b0, b1 := b[0] as nat, b[1] as nat;
    Join16(b0, b1);
    Join16(b1, b0);
    assert b == [b[0], b[1]];
  }

  lemma Join16(lo: nat, hi: nat)
    requires lo < 256 && hi < 256
    ensures (lo + 256 * hi) % 256 == lo && (lo + 256 * hi) / 256 == hi
  {}

  lemma Words32(little: bool, v: nat)
    requires v < 0x1_0000_0000
    ensures Read32(little, Word32(little, v)) == v
  {
    var lo, hi := v % 0x1_0000, v / 0x1_0000;
    Words16(little, lo);
    Words16(little, hi);
    var w := Word32(little, v);
    if little {
      assert w[..2] == Word16(true, lo) && w[2..] == Word16(true, hi);
    } else {
      assert w[..2] == Word16(false, hi) && w[2..] == Word16(false, lo);
    }
  }

  lemma Words32Back(little: bool, b: seq<byte>)
    requires |b| == 4
    ensures Word32(little, Read32(little, b)) == b
  {
    Words16Back(little, b[..2]);
    Words16Back(little, b[2..]);
    var v := Read32(little, b);
    if little {
      assert v % 0x1_0000 == Read16(true, b[..2]) && v / 0x1_0000 == Read16(true, b[2..]);
    } else {
      assert v / 0x1_0000 == Read16(false, b[..2]) && v % 0x1_0000 == Read16(false, b[2..]);
    }
    assert b == b[..2] + b[2..];
  }

  // ---- the format ---------------------------------------------------------

  function Zeros(n: nat): (z: seq<byte>)
    ensures |z| == n
  {
    seq(n, _ => 0)
  }

  // The buffer an address stands for: the port in network order, flow information
  // and scope id in host order, everything not assigned zero.
  function Bytes4Of(host: string): Option<seq<byte>> {
    if host == "" then Some(Zeros(4)) else Inet.InetPton4(host)
  }

  function Bytes16Of(host: Host6): Option<seq<byte>> {
    match host
    case Empty6 => Some(Zeros(16))
    case Literal6(b) => Some(b)
    case Malformed6 => None
  }

  function InBuffer(port: nat, host: Bytes4): Buffer
    requires port < 0x1_0000
  {
    [16, 2] + BigEndian16(port) + host + Zeros(20)
  }

  function In6Buffer(little: bool, port: nat, flowinfo: nat, host: Bytes16, scopeId: nat): Buffer
    requires port < 0x1_0000 && flowinfo < 0x1_0000_0000 && scopeId < 0x1_0000_0000
  {
    [28, 10] + BigEndian16(port) + Word32(little, flowinfo) + host + Word32(little, scopeId)
  }

  function FamilyOf(a: Address, family: int): Result<int, AddressError> {
    if family != AF_UNSPEC then Ok(family)
    else match a
      case Pair(_, _) => Ok(AF_INET)
      case Quad(_, _, _, _) => Ok(AF_INET6)
      case Other(_) => Err(WrongLength)
  }

  function Encode(little: bool, a: Address, family: int): Result<Buffer, AddressError> {
    match FamilyOf(a, family)
    case Err(e) => Err(e)
    case Ok(f) =>
      if f == AF_INET then
        if !a.Pair? then Err(WrongLength)
        else if Bytes4Of(a.host).None? then Err(BadHost)
        else if !(0 <= a.port < 0x1_0000) then Err(Overflow)
        else Ok(InBuffer(a.port, Bytes4Of(a.host).value))
      else if f == AF_INET6 then
        if !a.Quad? then Err(WrongLength)
        else if Bytes16Of(a.host6).None? then Err(BadHost)
        else if !(0 <= a.port < 0x1_0000 && 0 <= a.flowinfo < 0x1_0000_0000 && 0 <= a.scopeId < 0x1_0000_0000)
        then Err(Overflow)
        else Ok(In6Buffer(little, a.port, a.flowinfo, Bytes16Of(a.host6).value, a.scopeId))
      else Err(WrongFamily)
  }

  // Reading the fields back, through the layout the family selects.
  function Decode(little: bool, b: Buffer): Result<Address, AddressError> {
    if b[FAMILY] as int == AF_INET then
      Ok(Pair(Inet.InetNtop4(b[4..8]), Htons(little, Read16(little, b[2..4]))))
    else if b[FAMILY] as int == AF_INET6 then
      Ok(Quad(Literal6(b[8..24]), Htons(little, Read16(little, b[2..4])),
              Read32(little, b[4..8]), Read32(little, b[24..28])))
    else Err(WrongFamily)
  }

  // The first two bytes of a zeroed buffer assigned one after the other.
  lemma TwoBytes(x: byte, y: byte)
    ensures var z, b := Zeros(SIZEOF_STORAGE), Zeros(SIZEOF_STORAGE)[..0] + [x] + Zeros(SIZEOF_STORAGE)[1..];
            && z[..0] + [x] + z[1..] == [x] + Zeros(SIZEOF_STORAGE - 1)
            && b[..1] + [y] + b[2..] == [x, y] + Zeros(SIZEOF_STORAGE - 2)
  {
    var z := Zeros(SIZEOF_STORAGE);
    var b := z[..0] + [x] + z[1..];
    assert b == [x] + Zeros(SIZEOF_STORAGE - 1);
    assert b[2..] == Zeros(SIZEOF_STORAGE - 2) && b[..1] == [x];
  }

  // ---- the object ---------------------------------------------------------

  class SockAddr {
    const little: bool
    const sa: array<byte>

    // ffi.new gives a zeroed struct sockaddr_storage.
    constructor (little: bool)
      ensures fresh(sa) && sa.Length == SIZEOF_STORAGE && sa[..] == Zeros(SIZEOF_STORAGE)
      ensures this.little == little
    {
      this.little := little;
      sa := new byte[SIZEOF_STORAGE](_ => 0);
    }

    // Assignment of a field, or memmove into one.
    method Store(offset: nat, bytes: seq<byte>)
      requires offset + |bytes| <= sa.Length
      modifies sa
      ensures sa[..] == old(sa[..offset]) + bytes + old(sa[offset + |bytes|..])
    {
      for i := 0 to |bytes|
        invariant sa[..] == old(sa[..offset]) + bytes[..i] + old(sa[offset + i..])
      {
        sa[offset + i] := bytes[i];
      }
    }

    // The storage view of length and family.
    method Len() returns (v: byte)
      requires sa.Length == SIZEOF_STORAGE
      ensures v == sa[LEN]
    {
      v := sa[LEN];
    }

    method Family() returns (v: byte)
      requires sa.Length == SIZEOF_STORAGE
      ensures v == sa[FAMILY]
    {
      v := sa[FAMILY];
    }

    static method CreateEmpty(little: bool) returns (s: SockAddr)
      ensures fresh(s) && fresh(s.sa) && s.little == little
      ensures s.sa[..] == [28] + Zeros(SIZEOF_STORAGE - 1)
    {
      s := new SockAddr(little);
      s.Store(LEN, [28]);
    }

    // The assignments through the sockaddr_in layout; a value that does not fit its
    // field stops them.
    method StoreIn(port: int, host: Bytes4) returns (stored: bool)
      requires sa.Length == SIZEOF_STORAGE && sa[..] == Zeros(SIZEOF_STORAGE)
      modifies sa
      ensures stored <==> 0 <= port < 0x1_0000
      ensures stored ==> sa[..] == InBuffer(port, host)
    {
      Store(LEN, [SIZEOF_IN as byte]);
      Store(FAMILY, [AF_INET as byte]);
      if !(0 <= port < 0x1_0000) {
        return false;
      }
      TwoBytes(16, 2);
      assert sa[..] == [16, 2] + Zeros(26);
      Store(PORT, Word16(little, Htons(little, port)));
      assert sa[..] == [16, 2] + BigEndian16(port) + Zeros(24) by { Words16(little, port); }
      Store(SIN_ADDR, host);
      stored := true;
    }

    // The assignments through the sockaddr_in6 layout.
    method StoreIn6(port: int, flowinfo: int, host: Bytes16, scopeId: int) returns (stored: bool)
      requires sa.Length == SIZEOF_STORAGE && sa[..] == Zeros(SIZEOF_STORAGE)
      modifies sa
      ensures stored <==> 0 <= port < 0x1_0000 && 0 <= flowinfo < 0x1_0000_0000 && 0 <= scopeId < 0x1_0000_0000
      ensures stored ==> sa[..] == In6Buffer(little, port, flowinfo, host, scopeId)
    {
      Store(LEN, [SIZEOF_IN6 as byte]);
      Store(FAMILY, [AF_INET6 as byte]);
      if !(0 <= port < 0x1_0000) {
        return false;
      }
      TwoBytes(28, 10);
      assert sa[..] == [28, 10] + Zeros(26);
      Store(PORT, Word16(little, Htons(little, port)));
      ghost var head := [28, 10] + BigEndian16(port);
      assert sa[..] == head + Zeros(24) by { Words16(little, port); }
      if !(0 <= flowinfo < 0x1_0000_0000) {
        return false;
      }
      Store(SIN6_FLOWINFO, Word32(little, flowinfo));
      assert sa[..] == head + Word32(little, flowinfo) + Zeros(20);
      Store(SIN6_ADDR, host);
      assert sa[..] == head + Word32(little, flowinfo) + host + Zeros(4);
      if !(0 <= scopeId < 0x1_0000_0000) {
        return false;
      }
      Store(SIN6_SCOPE_ID, Word32(little, scopeId));
      stored := true;
    }

    static method ParseAddress(little: bool, a: Address, family: int) returns (r: Result<SockAddr, AddressError>)
      ensures r.Err? ==> Encode(little, a, family) == Err(r.error)
      ensures r.Ok? ==> && fresh(r.value) && fresh(r.value.sa) && r.value.little == little
                        && r.value.sa.Length == SIZEOF_STORAGE
                        && Encode(little, a, family) == Ok(r.value.sa[..])
    {
      var f := family;
      if f == AF_UNSPEC {
        if a.Pair? {
          f := AF_INET;
        } else if a.Quad? {
          f := AF_INET6;
        } else {
          return Err(WrongLength);
        }
      }
      var s := new SockAddr(little);
      if f == AF_INET {
        if !a.Pair? {
          return Err(WrongLength);
        }
        var host := if a.host == "" then Some(Zeros(4)) else Inet.InetPton4(a.host);
        if host.None? {
          return Err(BadHost);
        }
        var stored := s.StoreIn(a.port, host.value);
        r := if stored then Ok(s) else Err(Overflow);
      } else if f == AF_INET6 {
        if !a.Quad? {
          return Err(WrongLength);
        }
        var host := Bytes16Of(a.host6);
        if host.None? {
          return Err(BadHost);
        }
        var stored := s.StoreIn6(a.port, a.flowinfo, host.value, a.scopeId);
        r := if stored then Ok(s) else Err(Overflow);
      } else {
        r := Err(WrongFamily);
      }
    }

    method UnparseAddress() returns (r: Result<Address, AddressError>)
      requires sa.Length == SIZEOF_STORAGE
      ensures r == Decode(little, sa[..])
    {
      var family := Family();
      if family as int == AF_INET {
        var host := Inet.InetNtop4(sa[SIN_ADDR..SIN_ADDR + 4]);
        var port := Htons(little, Read16(little, sa[PORT..PORT + 2]));
        r := Ok(Pair(host, port));
      } else if family as int == AF_INET6 {
        var host := sa[SIN6_ADDR..SIN6_ADDR + 16];
        var port := Htons(little, Read16(little, sa[PORT..PORT + 2]));
        var flowinfo := Read32(little, sa[SIN6_FLOWINFO..SIN6_FLOWINFO + 4]);
        var scopeId := Read32(little, sa[SIN6_SCOPE_ID..SIN6_SCOPE_ID + 4]);
        r := Ok(Quad(Literal6(host), port, flowinfo, scopeId));
      } else {
        r := Err(WrongFamily);
      }
    }
  }

  // ---- main results -------------------------------------------------------

  // An empty host is the wildcard; everything else is kept as it is.
  function Explicit(a: Address): Address {
    match a
    case Pair(host, port) => if host == "" then Pair("0.0.0.0", port) else a
    case Quad(Empty6, port, flowinfo, scopeId) => Quad(Literal6(Zeros(16)), port, flowinfo, scopeId)
    case _ => a
  }

  lemma Wildcard4()
    ensures Inet.InetNtop4(Zeros(4)) == "0.0.0.0"
  {}

  lemma DecodeIn(little: bool, port: nat, host: Bytes4)
    requires port < 0x1_0000
    ensures Decode(little, InBuffer(port, host)) == Ok(Pair(Inet.InetNtop4(host), port))
  {
    var b := InBuffer(port, host);
    assert b[2..4] == BigEndian16(port) && b[4..8] == host;
    Words16(little, port);
  }

  lemma DecodeIn6(little: bool, port: nat, flowinfo: nat, host: Bytes16, scopeId: nat)
    requires port < 0x1_0000 && flowinfo < 0x1_0000_0000 && scopeId < 0x1_0000_0000
    ensures Decode(little, In6Buffer(little, port, flowinfo, host, scopeId))
            == Ok(Quad(Literal6(host), port, flowinfo, scopeId))
  {
    var b := In6Buffer(little, port, flowinfo, host, scopeId);
    assert b[2..4] == BigEndian16(port) && b[4..8] == Word32(little, flowinfo);
    assert b[8..24] == host && b[24..28] == Word32(little, scopeId);
    Words16(little, port);
    Words32(little, flowinfo);
    Words32(little, scopeId);
  }

  // unparse_address undoes parse_address, for every address it accepts.
  lemma AddressRoundTrip(little: bool, a: Address, family: int)
    requires Encode(little, a, family).Ok?
    ensures Decode(little, Encode(little, a, family).value) == Ok(Explicit(a))
  {
    if a.Pair? {
      DecodeIn(little, a.port, Bytes4Of(a.host).value);
      if a.host == "" { Wildcard4(); } else { Inet.Ntop4Pton4(a.host); }
    } else {
      DecodeIn6(little, a.port, a.flowinfo, Bytes16Of(a.host6).value, a.scopeId);
    }
  }

  // The buffers parse_address makes: the length byte is the size of the struct
  // of the family, and the bytes no field covers are zero.
  predicate IsExact(b: Buffer) {
    || (b[FAMILY] as int == AF_INET && b[LEN] as nat == SIZEOF_IN && b[8..] == Zeros(20))
    || (b[FAMILY] as int == AF_INET6 && b[LEN] as nat == SIZEOF_IN6)
  }

  // Re-parsing: for every buffer whatsoever with a known family, unparsing and
  // parsing again gives back every byte exactly when the buffer is exact.
  lemma ReparseIsExactIff(little: bool, b: Buffer)
    requires Decode(little, b).Ok?
    ensures Encode(little, Decode(little, b).value, AF_UNSPEC).Ok?
    ensures Encode(little, Decode(little, b).value, AF_UNSPEC).value == b <==> IsExact(b)
  {
    Words16Back(little, b[2..4]);
    var port := Htons(little, Read16(little, b[2..4]));
    if b[FAMILY] as int == AF_INET {
      Inet.Pton4Ntop4(b[4..8]);
      InBufferIs(port, b[4..8], b);
    } else {
      Words32Back(little, b[4..8]);
      Words32Back(little, b[24..28]);
      var b' := In6Buffer(little, port, Read32(little, b[4..8]), b[8..24], Read32(little, b[24..28]));
      assert b' == [28, 10] + b[2..4] + b[4..8] + b[8..24] + b[24..28];
      assert b == [b[0], b[1]] + b[2..4] + b[4..8] + b[8..24] + b[24..28];
    }
  }

  lemma InBufferIs(port: nat, host: Bytes4, b: Buffer)
    requires port < 0x1_0000 && BigEndian16(port) == b[2..4] && host == b[4..8]
    ensures InBuffer(port, host) == b <==> b[0] == 16 && b[1] == 2 && b[8..] == Zeros(20)
  {
    var b' := InBuffer(port, host);
    assert b'[8..] == Zeros(20);
    assert b' == [16, 2] + b[2..4] + b[4..8] + Zeros(20);
    assert b == [b[0], b[1]] + b[2..4] + b[4..8] + b[8..];
  }

  // The image of parse_address is exactly the exact buffers, and whichever struct
  // was written, length and family read through the storage view are its own.
  lemma ParsedBuffersAreExact(little: bool, a: Address, family: int)
    requires Encode(little, a, family).Ok?
    ensures IsExact(Encode(little, a, family).value)
    ensures Encode(little, a, family).value[FAMILY] as int == FamilyOf(a, family).value
    ensures Encode(little, a, family).value[LEN] as nat == if a.Pair? then SIZEOF_IN else SIZEOF_IN6
    ensures Encode(little, Explicit(a), AF_UNSPEC) == Encode(little, a, family)
  {
    var b := Encode(little, a, family).value;
    if a.Pair? {
      assert b[8..] == Zeros(20);
    }
    AddressRoundTrip(little, a, family);
    ReparseIsExactIff(little, b);
  }

  // Two addresses share a buffer only if they are the same up to the wildcard.
  lemma EncodeIsInjective(little: bool, a: Address, a': Address, family: int)
    requires Encode(little, a, family).Ok? && Encode(little, a', family) == Encode(little, a, family)
    ensures Explicit(a) == Explicit(a')
  {
    AddressRoundTrip(little, a, family);
    AddressRoundTrip(little, a', family);
  }

  // ---- the buffers, byte by byte ------------------------------------------

  lemma Words16Bytes(little: bool, v: nat)
    requires v < 0x1_0000
    ensures BigEndian16(v) == [(v / 0x100) as byte, (v % 0x100) as byte]
    ensures Word16(little, v) == if little then [(v % 0x100) as byte, (v / 0x100) as byte] else BigEndian16(v)
  {}

  // The four bytes of a word, least significant first on a little-endian host only.
  lemma Words32Bytes(little: bool, b0: byte, b1: byte, b2: byte, b3: byte, v: nat)
    requires v == b0 as nat + 0x100 * b1 as nat + 0x1_0000 * b2 as nat + 0x100_0000 * b3 as nat
    ensures v < 0x1_0000_0000
    ensures Word32(little, v) == if little then [b0, b1, b2, b3] else [b3, b2, b1, b0]
  {
    Halves(b0 as nat + 0x100 * b1 as nat, b2 as nat + 0x100 * b3 as nat, v);
    Join16(b0 as nat, b1 as nat);
    Join16(b2 as nat, b3 as nat);
  }

  lemma Halves(lo: nat, hi: nat, v: nat)
    requires lo < 0x1_0000 && hi < 0x1_0000 && v == lo + 0x1_0000 * hi
    ensures v < 0x1_0000_0000 && v % 0x1_0000 == lo && v / 0x1_0000 == hi
  {}

  // What parse_address makes of an IPv4 tuple: length 16, family 2, the port in network
  // order, the four bytes of the host (zero for the empty host), zeros.
  lemma InBytes(little: bool, host: string, port: int, family: int)
    requires family == 0 || family == 2
    requires 0 <= port < 0x1_0000 && (host == "" || Inet.InetPton4(host).Some?)
    ensures var e := Encode(little, Pair(host, port), family);
            && e.Ok? && e.value[0] == 16 && e.value[1] == 2
            && 0x100 * e.value[2] as int + e.value[3] as int == port
            && e.value[4..8] == (if host == "" then [0, 0, 0, 0] else Inet.InetPton4(host).value)
            && forall i :: 8 <= i < 28 ==> e.value[i] == 0
  {
    var b := InBuffer(port, Bytes4Of(host).value);
    assert b[4..8] == Bytes4Of(host).value;
  }

  // ... and of an IPv6 tuple: length 28, family 10, the port in network order, flow
  // information and scope id as words of the host, the sixteen bytes of the address.
  lemma In6Bytes(little: bool, host6: Host6, port: int, flowinfo: int, scopeId: int, family: int)
    requires family == 0 || family == 10
    requires 0 <= port < 0x1_0000 && 0 <= flowinfo < 0x1_0000_0000 && 0 <= scopeId < 0x1_0000_0000
    requires !host6.Malformed6?
    ensures var e := Encode(little, Quad(host6, port, flowinfo, scopeId), family);
            && e.Ok? && e.value[0] == 28 && e.value[1] == 10
            && 0x100 * e.value[2] as int + e.value[3] as int == port
            && e.value[4..8] == Word32(little, flowinfo) && e.value[24..28] == Word32(little, scopeId)
            && e.value[8..24] == (if host6.Empty6? then seq(16, _ => 0) else host6.bytes)
  {
    Fields6(BigEndian16(port), Word32(little, flowinfo), Bytes16Of(host6).value, Word32(little, scopeId));
  }

  lemma Fields6(port: seq<byte>, flowinfo: seq<byte>, host: seq<byte>, scopeId: seq<byte>)
    requires |port| == 2 && |flowinfo| == 4 && |host| == 16 && |scopeId| == 4
    ensures var b := [28, 10] + port + flowinfo + host + scopeId;
            && |b| == 28 && b[0] == 28 && b[1] == 10 && b[2] == port[0] && b[3] == port[1]
            && b[4..8] == flowinfo && b[8..24] == host && b[24..28] == scopeId
  {}

  // When it raises, and what: the family is that of the tuple's length unless given.
  lemma EncodeErrors(little: bool, a: Address, family: int)
    ensures var f := if family != 0 then family else if a.Pair? then 2 else if a.Quad? then 10 else -1;
            var e := Encode(little, a, family);
            && (e == Err(WrongLength) <==> (f == 2 && !a.Pair?) || (f == 10 && !a.Quad?) || (family == 0 && f == -1))
            && (e == Err(WrongFamily) <==> f !in {2, 10} && !(family == 0 && f == -1))
            && (e == Err(BadHost) <==>
                  || (f == 2 && a.Pair? && a.host != "" && Inet.InetPton4(a.host).None?)
                  || (f == 10 && a.Quad? && a.host6.Malformed6?))
            && (e == Err(Overflow) ==>
                  || (a.Pair? && !(0 <= a.port < 0x1_0000))
                  || (a.Quad? && !(0 <= a.port < 0x1_0000 && 0 <= a.flowinfo < 0x1_0000_0000
                                   && 0 <= a.scopeId < 0x1_0000_0000)))
  {}

  // What unparse_address reads, whatever else is in the buffer.
  lemma DecodeFields(little: bool, b: Buffer)
    ensures var port := 0x100 * b[2] as int + b[3] as int;
            if b[1] == 2 then Decode(little, b) == Ok(Pair(Inet.InetNtop4(b[4..8]), port))
            else if b[1] == 10 then
              && Decode(little, b).Ok? && Decode(little, b).value.Quad?
              && Decode(little, b).value.host6 == Literal6(b[8..24]) && Decode(little, b).value.port == port
              && Word32(little, Decode(little, b).value.flowinfo) == b[4..8]
              && Word32(little, Decode(little, b).value.scopeId) == b[24..28]
            else Decode(little, b) == Err(WrongFamily)
  {
    if b[1] == 2 || b[1] == 10 {
      PortBytes(little, b[2..4]);
    }
    if b[1] == 10 {
      Words32Back(little, b[4..8]);
      Words32Back(little, b[24..28]);
    }
  }

  lemma PortBytes(little: bool, b: seq<byte>)
    requires |b| == 2
    ensures Htons(little, Read16(little, b)) == 0x100 * b[0] as int + b[1] as int
  {
    Join16(b[0] as nat, b[1] as nat);
    Join16(b[1] as nat, b[0] as nat);
  }
}
