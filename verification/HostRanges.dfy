/**
 * Hosts no outbound connector may reach, and the admissible endpoints that remain. The denylist works on host
 * text; the theorems say which addresses it denies, whatever their spelling.
 */
module HostRanges {
  import opened Wrappers
  import opened Strings
  import opened UrlAuthority
  import opened Loopback
  import opened Ipv6
  import opened Ipv6Spellings

  // ---- the denylist ---------------------------------------------------------------------------

  function StripDots(s: string): string { if s != "" && s[|s| - 1] == '.' then StripDots(s[..|s| - 1]) else s }

  /** Lower-cased, trimmed, and without trailing dots. */
  function Normal(host: string): string { StripDots(Trim(ToLower(host))) }

  predicate IsInternalName(h: string) {
    || h == "localhost" || EndsWith(h, ".localhost") || EndsWith(h, ".internal")
    || EndsWith(h, ".local") || EndsWith(h, ".lan") || EndsWith(h, ".home.arpa")
  }

  predicate IsNumericLabel(l: string) {
    || (l != "" && AllDigits(l))
    || (|l| >= 3 && l[..2] == "0x" && AllHex(l[2..]))
  }

  /** An attempt at a numeric IPv4 address in any base or arity. */
  predicate IsNumericAttempt(h: string) {
    && ':' !in h
    && (forall i :: 0 <= i < |h| ==> IsHexDigit(h[i]) || h[i] == 'x' || h[i] == '.')
    && (exists c :: c in h && IsDigit(c))
    && (forall l :: l in Split(h, '.') ==> IsNumericLabel(l))
  }

  predicate IsPrivatePrefix(a: nat, b: nat) {
    || a == 0 || a == 10 || a == 127 || (a == 169 && b == 254) || (a == 172 && 16 <= b <= 31)
    || (a == 192 && b == 168) || (a == 100 && 64 <= b <= 127)
  }

  predicate IsPrivateQuad(labels: seq<string>)
    requires IsDottedQuad(labels)
  {
    IsPrivatePrefix(DecimalOf(labels[0]), DecimalOf(labels[1]))
  }

  function Decimal(n: nat): (s: string)
    ensures s != "" && AllDigits(s)
  {
    if n < 10 then [('0' as int + n) as char] else Decimal(n / 10) + [('0' as int + n % 10) as char]
  }

  /** The dotted quad the last two hextets spell. */
  function EmbeddedQuad(hi: nat, lo: nat): seq<string> {
    [Decimal(hi / 256 % 256), Decimal(hi % 256), Decimal(lo / 256 % 256), Decimal(lo % 256)]
  }

  predicate HasEmbeddedQuad(g: seq<nat>)
    requires |g| == 8
  {
    (forall i :: 0 <= i < 5 ==> g[i] == 0) && (g[5] == 0 || g[5] == 0xffff)
  }

  /** Unspecified, loopback, link-local, unique local, or standing for an IPv4 address that is itself private. */
  predicate ArePrivateGroups(g: seq<nat>, quadIsPrivate: bool)
    requires |g| == 8
  {
    if forall i :: 0 <= i < 8 ==> g[i] == 0 then true
    else if (forall i :: 0 <= i < 7 ==> g[i] == 0) && g[7] == 1 then true
    else if 0xfe80 <= g[0] <= 0xfebf then true
    else if 0xfc00 <= g[0] <= 0xfdff then true
    else HasEmbeddedQuad(g) && quadIsPrivate
  }

  predicate IsPrivateHost(host: string)
    decreases if ':' in host then 1 else 0
  {
    var h := Normal(host);
    if h == "" || IsInternalName(h) then true
    else if IsNumericAttempt(h) then
      var labels := Split(h, '.');
      IsDottedQuad(labels) ==> IsPrivateQuad(labels)
    else if ':' in h then
      var parsed := Hextets(h);
      if parsed.None? || |parsed.value| != 8 then true
      else
        var g := parsed.value;
        var quad := EmbeddedQuad(g[6], g[7]);
        OneReduction(host, quad);
        ArePrivateGroups(g, HasEmbeddedQuad(g) && IsPrivateHost(Join(quad, '.')))
    else '.' !in h
  }

  /** Reducing an IPv6 literal to its embedded quad happens once: the quad has no colon to reduce again. */
  lemma OneReduction(host: string, quad: seq<string>)
    requires ':' in Normal(host) && forall k :: 0 <= k < |quad| ==> AllDigits(quad[k])
    ensures ':' in host && ':' !in Join(quad, '.')
  {
    EmbeddedHasNoColon(quad);
    ColonSurvives(host);
  }

  lemma EmbeddedHasNoColon(quad: seq<string>)
    requires forall k :: 0 <= k < |quad| ==> AllDigits(quad[k])
    ensures ':' !in Join(quad, '.')
  {
    JoinedDigits(quad);
  }

  lemma {:induction false} DotsPrefix(s: string)
    ensures StripDots(s) <= s
  {
    if s != "" && s[|s| - 1] == '.' { DotsPrefix(s[..|s| - 1]); }
  }

  lemma {:induction false} TrimStartWithin(s: string, c: char)
    requires c in TrimStart(s)
    ensures c in s
  {
    if s != "" && IsSpace(s[0]) { TrimStartWithin(s[1..], c); }
  }

  /** Normalising a host brings no colon in. */
  lemma ColonSurvives(host: string)
    requires ':' in Normal(host)
    ensures ':' in host
  {
    var low := ToLower(host);
    DotsPrefix(Trim(low));
    TrimEndEnds(TrimStart(low));
    TrimStartWithin(low, ':');
    LowerKeeps(host, ':');
  }

  // ---- IPv4 blocks ----------------------------------------------------------------------------

  function Address32(a: nat, b: nat, c: nat, d: nat): nat { ((a * 256 + b) * 256 + c) * 256 + d }

  /** The `size` addresses from `a.b.0.0` on. */
  predicate InBlock(address: nat, a: nat, b: nat, size: nat) {
    Address32(a, b, 0, 0) <= address < Address32(a, b, 0, 0) + size
  }

  predicate InPrivateBlock(address: nat) {
    || InBlock(address, 0, 0, 0x100_0000)      // 0.0.0.0/8
    || InBlock(address, 10, 0, 0x100_0000)     // 10.0.0.0/8
    || InBlock(address, 127, 0, 0x100_0000)    // 127.0.0.0/8
    || InBlock(address, 169, 254, 0x1_0000)    // 169.254.0.0/16
    || InBlock(address, 172, 16, 0x10_0000)    // 172.16.0.0/12
    || InBlock(address, 192, 168, 0x1_0000)    // 192.168.0.0/16
    || InBlock(address, 100, 64, 0x40_0000)    // 100.64.0.0/10
  }

  /** The octet comparisons pick out exactly the seven blocks of thirty-two-bit addresses. */
  lemma PrefixIsBlock(a: nat, b: nat, c: nat, d: nat)
    requires a <= 255 && b <= 255 && c <= 255 && d <= 255
    ensures IsPrivatePrefix(a, b) <==> InPrivateBlock(Address32(a, b, c, d))
  {
    var v := Address32(a, b, c, d);
    assert v == a * 0x100_0000 + b * 0x1_0000 + c * 256 + d;
  }

  function QuadAddress(labels: seq<string>): nat
    requires IsDottedQuad(labels)
  {
    Address32(DecimalOf(labels[0]), DecimalOf(labels[1]), DecimalOf(labels[2]), DecimalOf(labels[3]))
  }

  // ---- dotted quads ---------------------------------------------------------------------------

  /** A text of address characters that ends in none of them a dot is normal already and names no host. */
  lemma PlainIsNormal(s: string)
    requires s != "" && IsAddressText(s) && s[|s| - 1] != '.'
    ensures Normal(s) == s
    ensures !IsInternalName(s)
  {
    assert forall i :: 0 <= i < |s| ==> LowerChar(s[i]) == s[i] && !IsSpace(s[i]);
    assert ToLower(s) == s;
    TrimNoop(s);
    NoSuffix(s, "localhost", 0);
    NoSuffix(s, ".localhost", 1);
    NoSuffix(s, ".internal", 8);
    NoSuffix(s, ".local", 5);
    NoSuffix(s, ".lan", 1);
    NoSuffix(s, ".home.arpa", 1);
  }

  lemma NoSuffix(s: string, suffix: string, i: nat)
    requires IsAddressText(s) && i < |suffix| && !IsAddressChar(suffix[i])
    ensures !EndsWith(s, suffix) && s != suffix
  {
    assert |suffix| <= |s| ==> s[|s| - |suffix| + i] == s[|s| - |suffix|..][i];
    assert EndsWith(suffix, suffix);
  }

  lemma QuadTextEnds(labels: seq<string>)
    requires IsDottedQuad(labels)
    ensures (var q := Join(labels, '.'); q != "" && q[|q| - 1] != '.' && IsAddressText(q) && ':' !in q)
  {
    JoinedDigits(labels);
    JoinConcat(labels[..3], [labels[3]], '.');
    assert labels == labels[..3] + [labels[3]];
    var q := Join(labels, '.');
    assert q[|q| - 1] == labels[3][|labels[3]| - 1];
  }

  lemma QuadIsNumeric(labels: seq<string>)
    requires IsDottedQuad(labels)
    ensures IsNumericAttempt(Join(labels, '.')) && Split(Join(labels, '.'), '.') == labels
  {
    QuadText(labels);
    JoinedDigits(labels);
    var q := Join(labels, '.');
    assert q[0] == labels[0][0];
    assert q[0] in q && IsDigit(q[0]);
    forall l | l in labels ensures IsNumericLabel(l) {}
  }

  /** A dotted quad is denied exactly when its address lies in one of the seven blocks. */
  lemma QuadIsPrivateExactly(labels: seq<string>)
    requires IsDottedQuad(labels)
    ensures IsPrivateHost(Join(labels, '.')) <==> InPrivateBlock(QuadAddress(labels))
  {
    var q := Join(labels, '.');
    QuadTextEnds(labels);
    PlainIsNormal(q);
    QuadIsNumeric(labels);
    PrefixIsBlock(DecimalOf(labels[0]), DecimalOf(labels[1]), DecimalOf(labels[2]), DecimalOf(labels[3]));
  }

  /**
   * Every numeric host: a dotted quad is denied exactly by its address, and any other numeric form - octal or
   * hexadecimal, short, a single integer, an octet above 255 - is always denied.
   */
  lemma NumericIsPrivateExactly(host: string)
    requires Normal(host) != "" && !IsInternalName(Normal(host)) && IsNumericAttempt(Normal(host))
    ensures (var labels := Split(Normal(host), '.');
      IsPrivateHost(host) <==> !IsDottedQuad(labels) || InPrivateBlock(QuadAddress(labels)))
  {
    var labels := Split(Normal(host), '.');
    if IsDottedQuad(labels) {
      PrefixIsBlock(DecimalOf(labels[0]), DecimalOf(labels[1]), DecimalOf(labels[2]), DecimalOf(labels[3]));
    }
  }

  lemma SomeDecimals()
    ensures DecimalOf("0") == 0 && DecimalOf("1") == 1 && DecimalOf("10") == 10 && DecimalOf("012") == 12
  {
    assert "10"[..1] == "1" && "012"[..2] == "01" && "01"[..1] == "0";
    assert DecimalOf("01") == 1;
  }

  /** Labels are read in decimal whatever their zeros, so the denylist takes `012` for twelve and not for ten. */
  lemma LeadingZerosAreDecimal(padded: seq<string>, plain: seq<string>)
    requires padded == ["012", "0", "0", "1"] && plain == ["10", "0", "0", "1"]
    ensures !IsPrivateHost(Join(padded, '.')) && IsPrivateHost(Join(plain, '.'))
  {
    SomeDecimals();
    assert QuadAddress(padded) == Address32(12, 0, 0, 1);
    assert QuadAddress(plain) == Address32(10, 0, 0, 1);
    QuadIsPrivateExactly(padded);
    QuadIsPrivateExactly(plain);
  }

  // ---- IPv6 addresses -------------------------------------------------------------------------

  /** Link-local fe80::/10, unique local fc00::/7, or an embedded IPv4 address in a private block. */
  predicate IsPrivateAddress(v: seq<nat>)
    requires |v| == 8
  {
    || v[0] / 64 == 0xfe80 / 64
    || v[0] / 512 == 0xfc00 / 512
    || (HasEmbeddedQuad(v) && InPrivateBlock(v[6] * 0x1_0000 + v[7]))
  }

  lemma {:induction false} DecimalReadsBack(n: nat)
    ensures DecimalOf(Decimal(n)) == n
    ensures n <= 999 ==> |Decimal(n)| <= 3
    ensures n <= 99 ==> |Decimal(n)| <= 2
  {
    if n >= 10 { DecimalReadsBack(n / 10); }
  }

  lemma OctetReadsBack(n: nat)
    requires n <= 255
    ensures IsOctet(Decimal(n)) && DecimalOf(Decimal(n)) == n
  {
    DecimalReadsBack(n);
  }

  lemma Bytes(n: nat)
    requires n <= 0xffff
    ensures n / 256 % 256 <= 255 && n % 256 <= 255 && n / 256 % 256 * 256 + n % 256 == n
  {}

  /** Reading the two hextets as a dotted quad keeps their thirty-two bits. */
  lemma EmbeddedQuadValue(hi: nat, lo: nat)
    requires hi <= 0xffff && lo <= 0xffff
    ensures IsDottedQuad(EmbeddedQuad(hi, lo))
    ensures QuadAddress(EmbeddedQuad(hi, lo)) == hi * 0x1_0000 + lo
  {
    Bytes(hi);
    Bytes(lo);
    OctetReadsBack(hi / 256 % 256);
    OctetReadsBack(hi % 256);
    OctetReadsBack(lo / 256 % 256);
    OctetReadsBack(lo % 256);
  }

  lemma QuadHextetsAddress(quad: seq<string>)
    requires IsDottedQuad(quad)
    ensures QuadHextets(quad)[0] * 0x1_0000 + QuadHextets(quad)[1] == QuadAddress(quad)
  {}

  lemma EmbeddedIsPrivateExactly(hi: nat, lo: nat)
    requires hi <= 0xffff && lo <= 0xffff
    ensures IsPrivateHost(Join(EmbeddedQuad(hi, lo), '.')) <==> InPrivateBlock(hi * 0x1_0000 + lo)
  {
    EmbeddedQuadValue(hi, lo);
    QuadIsPrivateExactly(EmbeddedQuad(hi, lo));
  }

  lemma UnspecifiedAndLoopback()
    ensures InPrivateBlock(0) && InPrivateBlock(1)
  {}

  /** The branch an IPv6 literal takes. */
  lemma ColonHostForm(host: string, v: seq<nat>) returns (quadIsPrivate: bool)
    requires Normal(host) != "" && ':' in Normal(host) && !IsInternalName(Normal(host))
    requires Hextets(Normal(host)) == Some(v) && |v| == 8 && AreHextets(v)
    ensures quadIsPrivate <==> InPrivateBlock(v[6] * 0x1_0000 + v[7])
    ensures IsPrivateHost(host) == ArePrivateGroups(v, HasEmbeddedQuad(v) && quadIsPrivate)
  {
    assert !IsNumericAttempt(Normal(host));
    quadIsPrivate := IsPrivateHost(Join(EmbeddedQuad(v[6], v[7]), '.'));
    EmbeddedIsPrivateExactly(v[6], v[7]);
  }

  lemma ColonHostIsPrivateExactly(host: string, v: seq<nat>)
    requires Normal(host) != "" && ':' in Normal(host) && !IsInternalName(Normal(host))
    requires Hextets(Normal(host)) == Some(v) && |v| == 8 && AreHextets(v)
    ensures IsPrivateHost(host) <==> IsPrivateAddress(v)
  {
    var quadIsPrivate := ColonHostForm(host, v);
    GroupsAreAddress(v, quadIsPrivate);
  }

  lemma GroupsAreAddress(v: seq<nat>, quadIsPrivate: bool)
    requires |v| == 8 && AreHextets(v)
    requires quadIsPrivate <==> InPrivateBlock(v[6] * 0x1_0000 + v[7])
    ensures ArePrivateGroups(v, HasEmbeddedQuad(v) && quadIsPrivate) <==> IsPrivateAddress(v)
  {
    UnspecifiedAndLoopback();
  }

  lemma AddressEnds(sp: Spelling)
    requires WellFormed(sp) && LowerCase(sp)
    ensures (var t := Text(sp); t != "" && t[|t| - 1] != '.')
  {
    match sp
    case Full(groups, quad) => PiecesEnd(groups, quad);
    case Compressed(_, tail, quad) => PiecesEnd(tail, quad);
  }

  lemma PiecesEnd(gs: seq<string>, quad: Option<seq<string>>)
    requires AreGroups(gs) && GoodQuad(quad)
    ensures (var t := Join(gs + QuadPart(quad), ':');
      (gs + QuadPart(quad) != [] ==> t != "") && (t != "" ==> t[|t| - 1] != '.'))
  {
    if quad.Some? {
      QuadTextEnds(quad.value);
      if gs == [] { assert gs + QuadPart(quad) == QuadPart(quad); }
      else { JoinConcat(gs, QuadPart(quad), ':'); }
    } else {
      assert gs + QuadPart(quad) == gs;
      JoinedGroups(gs);
    }
  }

  lemma LowerTwice(s: string)
    ensures ToLower(ToLower(s)) == ToLower(s)
  {}

  /** Every spelling of an address, in any letter case, is denied exactly when the address is private. */
  lemma AddressIsPrivateExactly(sp: Spelling)
    requires WellFormed(sp)
    ensures IsPrivateHost(Text(sp)) <==> IsPrivateAddress(Value(sp))
  {
    var low := Lowered(sp);
    LoweredText(sp);
    LoweredValue(sp);
    AddressText(low);
    AddressEnds(low);
    PlainIsNormal(Text(low));
    LowerTwice(Text(sp));
    assert Normal(Text(sp)) == Normal(Text(low)) == Text(low);
    ParsesEverySpelling(sp);
    HextetsAreHextets(ToLower(Text(sp)));
    ColonHostIsPrivateExactly(Text(sp), Value(sp));
  }

  lemma MappedAddress(v: seq<nat>, quad: seq<string>)
    requires IsDottedQuad(quad) && v == [0, 0, 0, 0, 0, 0xffff] + QuadHextets(quad)
    ensures IsPrivateAddress(v) <==> InPrivateBlock(QuadAddress(quad))
  {
    QuadHextetsAddress(quad);
  }

  /** A mapped address is denied in every one of its spellings exactly when its dotted quad is. */
  lemma MappedAsItsQuad(sp: Spelling, quad: seq<string>)
    requires WellFormed(sp) && IsDottedQuad(quad)
    requires Value(sp) == [0, 0, 0, 0, 0, 0xffff] + QuadHextets(quad)
    ensures IsPrivateHost(Text(sp)) <==> IsPrivateHost(Join(quad, '.'))
  {
    var v := Value(sp);
    assert IsPrivateHost(Text(sp)) <==> IsPrivateAddress(v) by { AddressIsPrivateExactly(sp); }
    assert IsPrivateAddress(v) <==> InPrivateBlock(QuadAddress(quad)) by { MappedAddress(v, quad); }
    assert IsPrivateHost(Join(quad, '.')) <==> InPrivateBlock(QuadAddress(quad)) by { QuadIsPrivateExactly(quad); }
  }

  // ---- admissible remote endpoints ------------------------------------------------------------

  lemma OneIsPrivate(sp: Spelling)
    requires WellFormed(sp) && Value(sp) == [0, 0, 0, 0, 0, 0, 0, 1]
    ensures IsPrivateHost(Text(sp))
  {
    var v := Value(sp);
    assert IsPrivateHost(Text(sp)) <==> IsPrivateAddress(v) by { AddressIsPrivateExactly(sp); }
    assert IsPrivateAddress(v) by { LoopbackAddress(v); }
  }

  lemma LoopbackAddress(v: seq<nat>)
    requires v == [0, 0, 0, 0, 0, 0, 0, 1]
    ensures IsPrivateAddress(v)
  {
    assert v[6] * 0x1_0000 + v[7] == 1;
    assert HasEmbeddedQuad(v);
  }

  lemma ShortLoopback()
    ensures IsPrivateHost("::1")
  {
    var sp := Compressed([], ["1"], None);
    AlreadyLower(["1"]);
    assert HexOf("1") == 1;
    assert Text(sp) == "::1";
    OneIsPrivate(sp);
  }

  lemma LongLoopback()
    ensures IsPrivateHost("0:0:0:0:0:0:0:1")
  {
    var zeros := seq(7, i => "0");
    var sp := Full(zeros + ["1"], None);
    AlreadyLower(sp.groups);
    JoinZeros(7);
    JoinConcat(zeros, ["1"], ':');
    assert sp.groups + [] == sp.groups;
    assert Text(sp) == "0:0:0:0:0:0:0:1";
    assert HexOf("0") == 0 && HexOf("1") == 1;
    assert Value(sp) == HexAll(sp.groups);
    OneIsPrivate(sp);
  }

  lemma {:induction false} JoinZeros(n: nat)
    requires n > 0
    ensures (var t := Join(seq(n, i => "0"), ':');
      |t| == 2 * n - 1 && forall i :: 0 <= i < |t| ==> t[i] == if i % 2 == 0 then '0' else ':')
  {
    if n > 1 {
      JoinZeros(n - 1);
      assert seq(n, i => "0")[1..] == seq(n - 1, i => "0");
    }
  }

  lemma LoopbackQuad(labels: seq<string>)
    requires IsDottedQuad(labels) && labels[0] == "127"
    ensures IsPrivateHost(Join(labels, '.'))
  {
    QuadIsPrivateExactly(labels);
    assert DecimalOf("1") == 1;
    assert DecimalOf("12") == 12;
    assert DecimalOf("127") == 127;
  }

  /** The denylist contains everything the loopback predicate accepts. */
  lemma LoopbackIsPrivate(host: string)
    requires IsLoopbackHost(host)
    ensures IsPrivateHost(host)
  {
    if host == "localhost" {
      assert Normal(host) == host;
    } else if host == "::1" {
      ShortLoopback();
    } else if host == "0:0:0:0:0:0:0:1" {
      LongLoopback();
    } else {
      SplitThenJoin(host, '.');
      LoopbackQuad(Split(host, '.'));
    }
  }

  predicate Admits(endpoint: string, allowedHosts: seq<string>) {
    var raw := Trim(endpoint);
    HasScheme(raw, "https") &&
    var host := ExtractHost(raw);
    host.Some? && !IsLoopbackHost(host.value) && !IsPrivateHost(host.value) && IsAllowedHost(host.value, allowedHosts)
  }

  method IsAllowedRemoteEndpoint(endpoint: string, allowedHosts: seq<string>) returns (r: bool)
    ensures r == Admits(endpoint, allowedHosts)
  {
    var raw := Trim(endpoint);
    if |raw| == 0 || !HasScheme(raw, "https") { return false; }
    var host := ExtractHost(raw);
    if host.None? { return false; }
    if IsLoopbackHost(host.value) { return false; }
    if IsPrivateHost(host.value) { return false; }
    r := FindAllowed(host.value, allowedHosts, ExtractHost);
  }
}
