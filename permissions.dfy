/** The webhook's origin check `IsAllowedIP` (app/order/permissions.py):
    which address the request is judged by, IPv4 dotted-quad parsing, and
    membership of the address in the payment provider's networks. An address
    is a version and an integer (32 bits for IPv4, 128 for IPv6); a network
    is a version, a network address and a prefix length, written as in
    section 3.1 of RFC 4632 (IPv4) and section 2.3 of RFC 4291 (IPv6). */
module Permissions {
  import opened Outcomes
  import opened Money
  import opened Text

  datatype Version = V4 | V6

  datatype IpAddress = IpAddress(version: Version, bits: nat)

  datatype IpNetwork = IpNetwork(version: Version, base: nat, prefix: nat)

  function Pow2(n: nat): (r: nat)
    ensures r >= 1
  {
    if n == 0 then 1 else 2 * Pow2(n - 1)
  }

  lemma {:induction false} Pow2Add(a: nat, b: nat)
    ensures Pow2(a + b) == Pow2(a) * Pow2(b)
  {
    if a > 0 {
      Pow2Add(a - 1, b);
      assert Pow2(a + b) == 2 * Pow2(a - 1 + b);
    }
  }

  lemma Pow2Small()
    ensures Pow2(0) == 1 && Pow2(5) == 32 && Pow2(7) == 128 && Pow2(8) == 256
  {
  }

  lemma Pow2Of32()
    ensures Pow2(16) == 0x1_0000 && Pow2(24) == 0x100_0000 && Pow2(32) == 0x1_0000_0000
  {
    Pow2Small();
    Pow2Add(8, 8);
    Pow2Add(16, 8);
    Pow2Add(16, 16);
  }

  lemma Pow2Of128()
    ensures Pow2(96) == 0x1_0000_0000_0000_0000_0000_0000
    ensures Pow2(128) == 0x1_0000_0000_0000_0000_0000_0000_0000_0000
  {
    Pow2Of32();
    Pow2Add(32, 32);
    Pow2Add(64, 32);
    Pow2Add(96, 32);
  }

  lemma Pow2Values()
    ensures Pow2(0) == 1 && Pow2(5) == 32 && Pow2(7) == 128 && Pow2(8) == 256
    ensures Pow2(32) == 0x1_0000_0000
    ensures Pow2(96) == 0x1_0000_0000_0000_0000_0000_0000
    ensures Pow2(128) == 0x1_0000_0000_0000_0000_0000_0000_0000_0000
  {
    Pow2Small();
    Pow2Of32();
    Pow2Of128();
  }

  /** `max_prefixlen`: the number of bits of an address of that version. */
  function Width(v: Version): nat {
    if v == V4 then 32 else 128
  }

  predicate ValidAddress(a: IpAddress) {
    a.bits < Pow2(Width(a.version))
  }

  /** Number of addresses the host part of a network spans. */
  function HostSpan(n: IpNetwork): nat
    requires n.prefix <= Width(n.version)
  {
    Pow2(Width(n.version) - n.prefix)
  }

  /** What `ip_network(...)` accepts in strict mode: the prefix fits and the
      host bits of the network address are zero. */
  predicate ValidNetwork(n: IpNetwork) {
    && n.prefix <= Width(n.version)
    && n.base < Pow2(Width(n.version))
    && n.base % HostSpan(n) == 0
  }

  /** `ip in network`: the same version, and `ip & netmask` equals the
      network address. */
  predicate InNetwork(a: IpAddress, n: IpNetwork)
    requires n.prefix <= Width(n.version)
  {
    a.version == n.version && (a.bits / HostSpan(n)) * HostSpan(n) == n.base
  }

  /** For a network in strict form, membership is equality of the top
      `prefix` bits. */
  lemma PrefixMatch(a: IpAddress, n: IpNetwork)
    requires ValidNetwork(n)
    ensures InNetwork(a, n) <==> a.version == n.version && a.bits / HostSpan(n) == n.base / HostSpan(n)
  {
    var s := HostSpan(n);
    var q, r := a.bits / s, n.base / s;
    DivExact(n.base, s);
    assert n.base == r * s;
    if q * s == n.base {
      MulCancel(q, r, s);
    }
  }

  /** A multiple of s is its quotient times s. */
  lemma DivExact(x: nat, s: nat)
    requires s > 0 && x % s == 0
    ensures x == (x / s) * s
  {
  }

  /** `ip_network("a.b.c.d")` without a prefix length: the single host, /32
      (for IPv6, /128). */
  function HostNetwork(a: IpAddress): (n: IpNetwork)
    ensures n.prefix == Width(a.version)
  {
    IpNetwork(a.version, a.bits, Width(a.version))
  }

  /** A host network holds exactly its one address. */
  lemma HostNetworkHoldsOnlyItsAddress(a: IpAddress, b: IpAddress)
    ensures InNetwork(b, HostNetwork(a)) <==> b == a
  {
    assert HostSpan(HostNetwork(a)) == 1;
  }

  /** The IPv4 address a.b.c.d as an integer. */
  function Quad(a: nat, b: nat, c: nat, d: nat): nat {
    a * 0x100_0000 + b * 0x1_0000 + c * 0x100 + d
  }

  function Ipv4(a: nat, b: nat, c: nat, d: nat): IpAddress {
    IpAddress(V4, Quad(a, b, c, d))
  }

  /** The entries of `YOOKASSA_IP_ADDRESSES`, in the order listed. */
  const Net0 := IpNetwork(V4, Quad(185, 71, 76, 0), 27)
  const Net1 := IpNetwork(V4, Quad(185, 71, 77, 0), 27)
  const Net2 := IpNetwork(V4, Quad(77, 75, 153, 0), 25)
  const Net3 := HostNetwork(Ipv4(77, 75, 156, 11))
  const Net4 := HostNetwork(Ipv4(77, 75, 156, 35))
  const Net5 := IpNetwork(V4, Quad(77, 75, 154, 128), 25)
  const Net6 := IpNetwork(V6, 0x2a02_5180_0000_0000_0000_0000_0000_0000, 32)

  /** `YOOKASSA_IP_ADDRESSES` */
  const AllowList: seq<IpNetwork> := [Net0, Net1, Net2, Net3, Net4, Net5, Net6]

  /** Every entry of the list is a network `ip_network` accepts. */
  lemma AllowListValid()
    ensures forall i :: 0 <= i < |AllowList| ==> ValidNetwork(AllowList[i])
  {
    forall i | 0 <= i < |AllowList|
      ensures ValidNetwork(AllowList[i])
    {
      EntryValid(i);
    }
  }

  /** One entry of the list at a time, from its span and its width's limit. */
  lemma EntryValid(k: nat)
    requires k < |AllowList|
    ensures ValidNetwork(AllowList[k])
  {
    Pow2Values();
    AllowListSpans();
    var limit4, limit6 := Pow2(32), Pow2(128);
    if k == 0 {
      ValidWithSpan(Net0, 32, limit4);
    } else if k == 1 {
      ValidWithSpan(Net1, 32, limit4);
    } else if k == 2 {
      ValidWithSpan(Net2, 128, limit4);
    } else if k == 3 {
      ValidWithSpan(Net3, 1, limit4);
    } else if k == 4 {
      ValidWithSpan(Net4, 1, limit4);
    } else if k == 5 {
      ValidWithSpan(Net5, 128, limit4);
    } else {
      ValidWithSpan(Net6, Pow2(96), limit6);
    }
  }

  /** Strict form once the span and the width's limit are known. */
  lemma ValidWithSpan(n: IpNetwork, span: nat, limit: nat)
    requires n.prefix <= Width(n.version) && HostSpan(n) == span && Pow2(Width(n.version)) == limit
    ensures ValidNetwork(n) <==> n.base < limit && n.base % span == 0
  {
  }

  /** Membership once the span of the network is known. */
  lemma InNetworkWithSpan(a: IpAddress, n: IpNetwork, span: nat)
    requires n.prefix <= Width(n.version) && HostSpan(n) == span
    ensures InNetwork(a, n) <==> a.version == n.version && (a.bits / span) * span == n.base
  {
  }

  /** `any(ip in net for net in nets)` */
  function AnyContains(nets: seq<IpNetwork>, a: IpAddress): (b: bool)
    requires forall i :: 0 <= i < |nets| ==> nets[i].prefix <= Width(nets[i].version)
    ensures b <==> exists i :: 0 <= i < |nets| && InNetwork(a, nets[i])
  {
    if |nets| == 0 then false
    else
      assert forall i :: 1 <= i < |nets| ==> nets[i] == nets[1..][i - 1];
      InNetwork(a, nets[0]) || AnyContains(nets[1..], a)
  }

  /** The address lies in at least one of the provider's networks. */
  function IsAllowedAddress(a: IpAddress): (b: bool)
    ensures b <==> exists i :: 0 <= i < |AllowList| && InNetwork(a, AllowList[i])
  {
    AnyContains(AllowList, a)
  }

  lemma InsideFirstBlock()
    ensures IsAllowedAddress(Ipv4(185, 71, 76, 5))
    ensures IsAllowedAddress(Ipv4(77, 75, 156, 11))
    ensures IsAllowedAddress(Ipv4(77, 75, 154, 255))
  {
    AllowListSpans();
    InNetworkWithSpan(Ipv4(185, 71, 76, 5), AllowList[0], 32);
    InNetworkWithSpan(Ipv4(77, 75, 156, 11), AllowList[3], 1);
    InNetworkWithSpan(Ipv4(77, 75, 154, 255), AllowList[5], 128);
    assert InNetwork(Ipv4(185, 71, 76, 5), AllowList[0]);
    assert InNetwork(Ipv4(77, 75, 156, 11), AllowList[3]);
    assert InNetwork(Ipv4(77, 75, 154, 255), AllowList[5]);
  }

  /** The host spans of the listed networks: /27, /27, /25, /32, /32, /25, /32 of IPv6. */
  lemma AllowListSpans()
    ensures HostSpan(AllowList[0]) == 32 && HostSpan(AllowList[1]) == 32 && HostSpan(AllowList[2]) == 128
    ensures HostSpan(AllowList[3]) == 1 && HostSpan(AllowList[4]) == 1 && HostSpan(AllowList[5]) == 128
    ensures HostSpan(AllowList[6]) == 0x1_0000_0000_0000_0000_0000_0000
  {
    Pow2Values();
    SpanOfHostBits(Net0, 5);
    SpanOfHostBits(Net1, 5);
    SpanOfHostBits(Net2, 7);
    SpanOfHostBits(Net3, 0);
    SpanOfHostBits(Net4, 0);
    SpanOfHostBits(Net5, 7);
    SpanOfHostBits(Net6, 96);
  }

  /** The span of a network with `bits` host bits. */
  lemma SpanOfHostBits(n: IpNetwork, bits: nat)
    requires n.prefix <= Width(n.version) && Width(n.version) - n.prefix == bits
    ensures HostSpan(n) == Pow2(bits)
  {
  }

  /** An IPv4 address outside every listed IPv4 network, given as the
      addresses the masks of the /27, /25 and /32 entries produce. */
  lemma NotListedIpv4(bits: nat)
    requires (bits / 32) * 32 != Quad(185, 71, 76, 0) && (bits / 32) * 32 != Quad(185, 71, 77, 0)
    requires (bits / 128) * 128 != Quad(77, 75, 153, 0) && (bits / 128) * 128 != Quad(77, 75, 154, 128)
    requires bits != Quad(77, 75, 156, 11) && bits != Quad(77, 75, 156, 35)
    ensures !IsAllowedAddress(IpAddress(V4, bits))
  {
    AllowListSpans();
  }

  /** 185.71.76.40 is beyond the /27 that starts at 185.71.76.0 and in no
      other listed network; neither is a neighbour of a listed host. */
  lemma OutsideEveryBlock()
    ensures !IsAllowedAddress(Ipv4(185, 71, 76, 40))
    ensures !IsAllowedAddress(Ipv4(77, 75, 156, 12))
    ensures !IsAllowedAddress(Ipv4(77, 75, 154, 127))
  {
    assert Quad(185, 71, 76, 40) / 32 * 32 == Quad(185, 71, 76, 32);
    NotListedIpv4(Quad(185, 71, 76, 40));
    assert Quad(77, 75, 156, 12) / 32 * 32 == Quad(77, 75, 156, 0);
    assert Quad(77, 75, 156, 12) / 128 * 128 == Quad(77, 75, 156, 0);
    NotListedIpv4(Quad(77, 75, 156, 12));
    assert Quad(77, 75, 154, 127) / 32 * 32 == Quad(77, 75, 154, 96);
    assert Quad(77, 75, 154, 127) / 128 * 128 == Quad(77, 75, 154, 0);
    NotListedIpv4(Quad(77, 75, 154, 127));
  }

  /** An address is only ever matched by networks of its own version. */
  lemma VersionsNeverMix(a: IpAddress, i: nat)
    requires i < |AllowList|
    ensures InNetwork(a, AllowList[i]) ==> a.version == AllowList[i].version
    ensures a.version == V4 ==> !InNetwork(a, AllowList[6])
    ensures a.version == V6 && i < 6 ==> !InNetwork(a, AllowList[i])
  {
  }

  /** The IPv6 block 2a02:5180::/32 holds exactly the addresses whose top 32
      bits are 0x2a025180. */
  lemma Ipv6BlockIsPrefix(a: IpAddress)
    requires a.version == V6
    ensures IsAllowedAddress(a) <==> a.bits / Pow2(96) == 0x2a02_5180
  {
    var n := AllowList[6];
    OnlyIpv6Entry(a);
    Pow2Of128();
    assert HostSpan(n) == Pow2(96);
    assert n.base == 0x2a02_5180 * Pow2(96);
    assert ValidNetwork(n);
    PrefixMatch(a, n);
  }

  /** An IPv6 address is allowed exactly when the one IPv6 entry holds it. */
  lemma OnlyIpv6Entry(a: IpAddress)
    requires a.version == V6
    ensures IsAllowedAddress(a) <==> InNetwork(a, AllowList[6])
  {
    assert forall i :: 0 <= i < 6 ==> AllowList[i].version == V4;
  }

  /** The address the request is judged by: the first comma-separated entry
      of X-Forwarded-For, stripped, when that header is non-empty; otherwise
      REMOTE_ADDR (None when the request has neither). */
  function ClientIp(forwardedFor: Option<string>, remoteAddr: Option<string>): (ip: Option<string>)
    ensures forwardedFor.Some? && forwardedFor.value != "" ==> ip == Some(Strip(FirstField(forwardedFor.value, ',')))
    ensures !(forwardedFor.Some? && forwardedFor.value != "") ==> ip == remoteAddr
  {
    if forwardedFor.Some? && forwardedFor.value != "" then
      Some(Strip(Split(forwardedFor.value, ',')[0]))
    else
      remoteAddr
  }

  /** From a non-empty X-Forwarded-For the address is a comma-free piece of
      the header's first entry, free of surrounding white space, and every
      character around it in that entry is white space. */
  lemma ForwardedAddressShape(forwardedFor: string, remoteAddr: Option<string>)
    requires forwardedFor != ""
    ensures var ip := ClientIp(Some(forwardedFor), remoteAddr).value;
      && ',' !in ip
      && (ip != [] ==> !IsSpace(ip[0]) && !IsSpace(ip[|ip| - 1]))
      && exists i, j :: 0 <= i <= j <= |forwardedFor| && ip == forwardedFor[i..j]
           && ',' !in forwardedFor[..j] && AllSpace(forwardedFor[..i])
  {
    var ip := ClientIp(Some(forwardedFor), remoteAddr).value;
    var i, j := StrippedFirstField(forwardedFor, FirstField(forwardedFor, ','), ip);
  }

  /** The stripped first field of a header, with the bounds of where it sits. */
  lemma StrippedFirstField(s: string, first: string, ip: string) returns (i: nat, j: nat)
    requires first == FirstField(s, ',') && ip == Strip(first)
    ensures 0 <= i <= j <= |s| && ip == s[i..j] && ',' !in s[..j] && AllSpace(s[..i])
    ensures ',' !in ip && (ip != [] ==> !IsSpace(ip[0]) && !IsSpace(ip[|ip| - 1]))
  {
    i, j :| 0 <= i <= j <= |first| && ip == first[i..j] && AllSpace(first[..i]) && AllSpace(first[j..]);
    PieceOfFirstField(s, first, i, j);
  }

  /** A piece of the first comma-free field is the same piece of the whole
      header, and nothing before its end is a comma. */
  lemma PieceOfFirstField(s: string, first: string, i: nat, j: nat)
    requires |first| <= |s| && first == s[..|first|] && ',' !in first
    requires i <= j <= |first| && AllSpace(first[..i])
    ensures s[i..j] == first[i..j] && ',' !in s[..j] && ',' !in first[i..j] && AllSpace(s[..i])
  {
    assert s[..j] == first[..j];
    assert s[..i] == first[..i];
    assert s[i..j] == first[i..j];
    assert forall k :: i <= k < j ==> first[i..j][k - i] == first[k];
  }

  /** One decimal octet as `IPv4Address` accepts it: one to three ASCII
      digits, no leading zero, at most 255. */
  function ParseOctet(s: string): (r: Option<nat>)
    ensures r.Some? ==> r.value <= 255 && s == NatToString(r.value)
  {
    if |s| <= 3 && CanonicalDigits(s) && DigitsValue(s) <= 255 then
      CanonicalDigitsRoundTrip(s);
      Some(DigitsValue(s))
    else None
  }

  /** Dotted-quad IPv4 text: exactly four octets separated by '.'. */
  function ParseIpv4(s: string): (r: Option<nat>)
    ensures r.Some? ==> r.value < Pow2(32)
  {
    var parts := Split(s, '.');
    if |parts| != 4 then None
    else
      match (ParseOctet(parts[0]), ParseOctet(parts[1]), ParseOctet(parts[2]), ParseOctet(parts[3]))
      case (Some(a), Some(b), Some(c), Some(d)) =>
        Pow2Values();
        Some(Quad(a, b, c, d))
      case _ => None
  }

  /** The four octets of a 32-bit address, most significant first. */
  function Octets(bits: nat): (nat, nat, nat, nat) {
    var low16 := bits / 0x100;
    var high := low16 / 0x100;
    (high / 0x100, high % 0x100, low16 % 0x100, bits % 0x100)
  }

  /** The canonical dotted-quad text of an IPv4 address. */
  function FormatIpv4(bits: nat): string
    requires bits < Pow2(32)
  {
    var o := Octets(bits);
    NatToString(o.0) + ['.'] + (NatToString(o.1) + ['.'] + (NatToString(o.2) + ['.'] + NatToString(o.3)))
  }

  lemma {:induction false} SplitSingle(s: string, sep: char)
    requires sep !in s
    ensures Split(s, sep) == [s]
  {
    if |s| > 0 {
      assert sep !in s[1..];
      SplitSingle(s[1..], sep);
      assert [s[0]] + s[1..] == s;
    }
  }

  lemma {:induction false} SplitAfterField(a: string, b: string, sep: char)
    requires sep !in a
    ensures Split(a + [sep] + b, sep) == [a] + Split(b, sep)
  {
    if |a| == 0 {
      assert a + [sep] + b == [sep] + b;
      assert ([sep] + b)[1..] == b;
    } else {
      var s := a + [sep] + b;
      assert s[0] == a[0] && s[1..] == a[1..] + [sep] + b;
      assert sep !in a[1..];
      SplitAfterField(a[1..], b, sep);
      assert [a[0]] + a[1..] == a;
    }
  }

  lemma OctetRoundTrip(o: nat)
    requires o <= 255
    ensures ParseOctet(NatToString(o)) == Some(o)
  {
    ShortNatToString(o);
    DigitsOfNat(o);
  }

  lemma NoDotInDigits(n: nat)
    ensures '.' !in NatToString(n)
  {
  }

  /** Four dot-free fields joined by dots split back into those fields. */
  lemma SplitFourFields(sa: string, sb: string, sc: string, sd: string)
    requires '.' !in sa && '.' !in sb && '.' !in sc && '.' !in sd
    ensures Split(sa + ['.'] + (sb + ['.'] + (sc + ['.'] + sd)), '.') == [sa, sb, sc, sd]
  {
    SplitSingle(sd, '.');
    SplitAfterField(sc, sd, '.');
    SplitAfterField(sb, sc + ['.'] + sd, '.');
    SplitAfterField(sa, sb + ['.'] + (sc + ['.'] + sd), '.');
  }

  /** The octets of a 32-bit address are bytes and make the address up again. */
  lemma QuadOfOctets(bits: nat)
    requires bits < 0x1_0000_0000
    ensures Octets(bits).0 <= 255 && Octets(bits).1 <= 255 && Octets(bits).2 <= 255 && Octets(bits).3 <= 255
    ensures Quad(Octets(bits).0, Octets(bits).1, Octets(bits).2, Octets(bits).3) == bits
  {
    var low16 := bits / 0x100;
    var high := low16 / 0x100;
    assert bits == low16 * 0x100 + bits % 0x100;
    assert low16 == high * 0x100 + low16 % 0x100;
    assert high == (high / 0x100) * 0x100 + high % 0x100;
    assert low16 < 0x100_0000 && high < 0x1_0000;
  }

  /** Parsing the canonical text of an IPv4 address gives the address back. */
  lemma Ipv4RoundTrip(bits: nat)
    requires bits < Pow2(32)
    ensures ParseIpv4(FormatIpv4(bits)) == Some(bits)
  {
    Pow2Of32();
    var o := Octets(bits);
    QuadOfOctets(bits);
    var sa, sb, sc, sd := NatToString(o.0), NatToString(o.1), NatToString(o.2), NatToString(o.3);
    NoDotInDigits(o.0); NoDotInDigits(o.1); NoDotInDigits(o.2); NoDotInDigits(o.3);
    SplitFourFields(sa, sb, sc, sd);
    OctetRoundTrip(o.0); OctetRoundTrip(o.1); OctetRoundTrip(o.2); OctetRoundTrip(o.3);
    var parts := Split(FormatIpv4(bits), '.');
    assert parts == [sa, sb, sc, sd];
    assert ParseOctet(parts[0]) == Some(o.0) && ParseOctet(parts[1]) == Some(o.1);
    assert ParseOctet(parts[2]) == Some(o.2) && ParseOctet(parts[3]) == Some(o.3);
  }

  /** Only canonical text parses: whatever `ParseIpv4` accepts is the
      dotted-quad text `FormatIpv4` prints for the result. */
  lemma Ipv4Canonical(s: string)
    ensures ParseIpv4(s).Some? ==> ParseIpv4(s).value < Pow2(32) && s == FormatIpv4(ParseIpv4(s).value)
  {
    if ParseIpv4(s).Some? {
      var parts := Split(s, '.');
      var a, b, c, d := ParseOctet(parts[0]).value, ParseOctet(parts[1]).value, ParseOctet(parts[2]).value, ParseOctet(parts[3]).value;
      assert ParseIpv4(s).value == Quad(a, b, c, d);
      OctetsOfQuad(a, b, c, d);
      JoinFour(parts, '.');
    }
  }

  /** Four pieces joined: the first, a separator, and the other three joined. */
  lemma JoinFour(parts: seq<string>, sep: char)
    requires |parts| == 4
    ensures Join(parts, sep) == parts[0] + [sep] + (parts[1] + [sep] + (parts[2] + [sep] + parts[3]))
  {
    var t1, t2, t3 := parts[1..], parts[2..], parts[3..];
    assert t1[1..] == t2 && t2[1..] == t3 && t3 == [parts[3]];
    assert Join(t3, sep) == parts[3];
    assert Join(t2, sep) == parts[2] + [sep] + parts[3];
    assert Join(t1, sep) == parts[1] + [sep] + (parts[2] + [sep] + parts[3]);
  }

  /** The octets of a quad of bytes are those bytes. */
  lemma OctetsOfQuad(a: nat, b: nat, c: nat, d: nat)
    requires a <= 255 && b <= 255 && c <= 255 && d <= 255
    ensures Octets(Quad(a, b, c, d)) == (a, b, c, d)
  {
    var bits := Quad(a, b, c, d);
    var low16 := a * 0x1_0000 + b * 0x100 + c;
    var high := a * 0x100 + b;
    assert bits == low16 * 0x100 + d;
    DivModOfBytes(bits, low16, d);
    assert low16 == high * 0x100 + c;
    DivModOfBytes(low16, high, c);
    DivModOfBytes(high, a, b);
  }

  lemma DivModOfBytes(x: nat, q: nat, r: nat)
    requires r < 0x100 && x == q * 0x100 + r
    ensures x / 0x100 == q && x % 0x100 == r
  {
  }

  /** `ipaddress.ip_address(text)`: IPv4 is tried first, then IPv6. Textual
      IPv6 parsing belongs to the library and is taken as a parameter. */
  function ParseAddress(s: string, parseIpv6: string -> Option<nat>): (r: Option<IpAddress>)
    ensures r.Some? ==> ValidAddress(r.value)
    ensures ParseIpv4(s).Some? ==> r == Some(IpAddress(V4, ParseIpv4(s).value))
  {
    Pow2Values();
    match ParseIpv4(s)
    case Some(bits) => Some(IpAddress(V4, bits))
    case None =>
      match parseIpv6(s)
      case Some(bits) => if bits < Pow2(128) then Some(IpAddress(V6, bits)) else None
      case None => None
  }

  /** `ip_address` raises ValueError on text that is no address (or on a
      missing REMOTE_ADDR); the request then fails instead of being judged. */
  datatype AddressError = InvalidAddress

  /** `IsAllowedIP.has_permission` */
  function HasPermission(forwardedFor: Option<string>, remoteAddr: Option<string>, parseIpv6: string -> Option<nat>): (r: Result<bool, AddressError>)
    ensures r == Ok(true) <==>
              (exists a :: ClientIp(forwardedFor, remoteAddr).Some?
                 && ParseAddress(ClientIp(forwardedFor, remoteAddr).value, parseIpv6) == Some(a)
                 && IsAllowedAddress(a))
    ensures r.Err? <==> (ClientIp(forwardedFor, remoteAddr).None?
      || ParseAddress(ClientIp(forwardedFor, remoteAddr).value, parseIpv6).None?)
  {
    match ClientIp(forwardedFor, remoteAddr)
    case None => Err(InvalidAddress)
    case Some(ip) =>
      match ParseAddress(ip, parseIpv6)
      case None => Err(InvalidAddress)
      case Some(a) => Ok(IsAllowedAddress(a))
  }
}
