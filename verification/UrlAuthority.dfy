/** The single URL-authority isolator, the loopback predicate, and what they recover from a spelled endpoint. */
module UrlAuthority {
  import opened Wrappers
  import opened Strings

  const DELIMS := "/?#\\"

  // ---- isolating the authority ----------------------------------------------------------------

  /** The part of `s` before the earliest of `delims`. */
  function Segment(s: string, delims: string): string { s[..IndexOfAny(s, delims)] }

  method FirstSegment(str: string, delims: string) returns (r: string)
    ensures r == Segment(str, delims)
  {
    var cut := |str|;
    for j := 0 to |delims|
      invariant cut == IndexOfAny(str, delims[..j])
    {
      var i := IndexOfAny(str, [delims[j]]);
      EarlierOf(str, delims[..j], delims[j]);
      if i < |str| && i < cut { cut := i; }
      assert delims[..j + 1] == delims[..j] + [delims[j]];
    }
    assert delims[..|delims|] == delims;
    return str[..cut];
  }

  lemma {:induction false} EarlierOf(s: string, ds: string, d: char)
    ensures IndexOfAny(s, ds + [d]) ==
      (var i, j := IndexOfAny(s, ds), IndexOfAny(s, [d]); if j < i then j else i)
  {
    if s != "" && s[0] !in ds + [d] { EarlierOf(s[1..], ds, d); }
  }

  predicate IsSchemeChar(c: char) { IsLetter(c) || IsDigit(c) || c == '+' || c == '.' || c == '-' }

  function SchemeRun(s: string): (n: nat)
    ensures n <= |s|
  {
    if s == "" || !IsSchemeChar(s[0]) then 0 else 1 + SchemeRun(s[1..])
  }

  /** Drop an explicit `scheme://` prefix, or a protocol-relative `//`. */
  function StripScheme(s: string): string {
    if s != "" && IsLetter(s[0]) && "://" <= s[SchemeRun(s)..] then s[SchemeRun(s) + 3..]
    else if "//" <= s then s[2..]
    else s
  }

  /** Drop everything up to the last `@`. */
  function StripUserinfo(s: string): string { s[AfterLast(s, '@')..] }

  function ExtractAuthority(raw: string): Option<string> {
    var authority := Segment(StripScheme(Trim(raw)), DELIMS);
    var hostPort := StripUserinfo(authority);
    if hostPort == "" then None else Some(ToLower(hostPort))
  }

  method ExtractAuthorityOf(raw: string) returns (r: Option<string>)
    ensures r == ExtractAuthority(raw)
  {
    var s := Trim(raw);
    if |s| == 0 { return None; }
    s := StripScheme(s);
    s := FirstSegment(s, DELIMS);
    if |s| == 0 { return None; }
    var at := AfterLast(s, '@');
    if at > 0 { s := s[at..]; }
    if |s| == 0 { return None; }
    return Some(ToLower(s));
  }

  function ExtractHost(raw: string): Option<string> {
    match ExtractAuthority(raw)
    case None => None
    case Some(s) => HostOf(s)
  }

  /** The bare host of an authority: brackets or a single port removed. */
  function HostOf(s: string): Option<string> {
    if "[" <= s then
      var close := IndexOfAny(s, "]");
      if close == |s| then None else Some(s[1..close])
    else if Count(s, ':') == 1 then Some(Segment(s, ":"))
    else Some(s)
  }

  predicate IsAllowedHost(host: string, allowedHosts: seq<string>) {
    exists k :: 0 <= k < |allowedHosts| && ExtractHost(allowedHosts[k]) == Some(host)
  }

  /** The allowlist loop; `read` is the parser both sides go through. */
  method FindAllowed(host: string, allowedHosts: seq<string>, read: string -> Option<string>) returns (r: bool)
    ensures r <==> exists k :: 0 <= k < |allowedHosts| && read(allowedHosts[k]) == Some(host)
  {
    for k := 0 to |allowedHosts|
      invariant forall j :: 0 <= j < k ==> read(allowedHosts[j]) != Some(host)
    {
      if read(allowedHosts[k]) == Some(host) { return true; }
    }
    return false;
  }

  // ---- spelled endpoints ----------------------------------------------------------------------

  datatype Prefix = Schemed(scheme: string) | Relative | Bare

  /** A registered name or IPv4 literal, a bracketed IPv6 literal, or a bare IPv6 literal. */
  datatype HostForm = Name(name: string) | Bracketed(literal: string) | BareIpv6(address: string)

  /** The parts of `scheme://userinfo@host:port/tail`. */
  datatype Endpoint = Endpoint(
    prefix: Prefix, userinfo: Option<string>, host: HostForm, port: Option<string>, tail: string)

  function PrefixText(p: Prefix): string {
    match p
    case Schemed(scheme) => scheme + "://"
    case Relative => "//"
    case Bare => ""
  }

  function UserText(u: Option<string>): string { if u.Some? then u.value + "@" else "" }

  function HostText(h: HostForm): string {
    match h
    case Name(name) => name
    case Bracketed(literal) => "[" + literal + "]"
    case BareIpv6(address) => address
  }

  function PortText(p: Option<string>): string { if p.Some? then ":" + p.value else "" }

  function HostPort(e: Endpoint): string { HostText(e.host) + PortText(e.port) }

  function Spell(e: Endpoint): string { PrefixText(e.prefix) + (UserText(e.userinfo) + HostPort(e) + e.tail) }

  function BareHost(h: HostForm): string {
    match h
    case Name(name) => name
    case Bracketed(literal) => literal
    case BareIpv6(address) => address
  }

  predicate ValidScheme(s: string) {
    s != "" && IsLetter(s[0]) && forall i :: 0 <= i < |s| ==> IsSchemeChar(s[i])
  }

  predicate HostChar(c: char) { c !in DELIMS && c != '@' && !IsSpace(c) }

  predicate HostChars(s: string) { s != "" && forall i :: 0 <= i < |s| ==> HostChar(s[i]) }

  predicate ValidHost(h: HostForm) {
    HostChars(BareHost(h)) &&
    match h
    case Name(name) => ':' !in name && name[0] != '['
    case Bracketed(literal) => ']' !in literal
    case BareIpv6(address) => Count(address, ':') >= 2 && address[0] != '['
  }

  /**
   * The one ambiguous text: a bare `name:` with an empty port before a tail that begins `//` is also the start of
   * a schemed endpoint, and is read as that.
   */
  predicate ReadsAsScheme(e: Endpoint) {
    && e.prefix.Bare? && e.userinfo.None?
    && e.host.Name? && ValidScheme(e.host.name)
    && e.port == Some("") && "//" <= e.tail
  }

  /**
   * Any scheme, any userinfo free of the four delimiters, any host, any digits for a port and any tail that
   * begins with a delimiter, except the one ambiguous text.
   */
  predicate WellSpelled(e: Endpoint) {
    && ValidHost(e.host)
    && (e.prefix.Schemed? ==> ValidScheme(e.prefix.scheme))
    && (e.userinfo.Some? ==> forall i :: 0 <= i < |e.userinfo.value| ==> e.userinfo.value[i] !in DELIMS)
    && (e.port.Some? ==> forall i :: 0 <= i < |e.port.value| ==> IsDigit(e.port.value[i]))
    && (e.host.BareIpv6? ==> e.port.None?)
    && (e.tail != "" ==> e.tail[0] in DELIMS)
    && !ReadsAsScheme(e)
  }

  /** The userinfo that trimming leaves: at the very front it loses leading white space. */
  function ShownUser(e: Endpoint): Option<string> {
    if e.prefix.Bare? && e.userinfo.Some? then Some(TrimStart(e.userinfo.value)) else e.userinfo
  }

  /** What stands between the prefix and the tail once the endpoint is trimmed. */
  function BodyOf(e: Endpoint): string { UserText(ShownUser(e)) + HostPort(e) }

  // ---- the round trip -------------------------------------------------------------------------

  lemma HostPortChars(e: Endpoint)
    requires WellSpelled(e)
    ensures HostChars(HostPort(e))
  {
    var h := HostText(e.host);
    assert forall i :: 0 <= i < |h| ==> HostChar(h[i]);
    var p := PortText(e.port);
    assert forall i :: 0 <= i < |p| ==> HostChar(p[i]);
  }

  /** Trimming a string whose body neither starts nor ends in white space only shortens what follows it. */
  lemma TrimBody(body: string, tail: string) returns (rest: string)
    requires body != "" && !IsSpace(body[0]) && !IsSpace(body[|body| - 1])
    requires tail != "" ==> tail[0] in DELIMS
    ensures Trim(body + tail) == body + rest
    ensures rest != "" ==> rest[0] in DELIMS
    ensures "//" <= rest ==> "//" <= tail
  {
    assert (body + tail)[0] == body[0];
    TrimEndAfter(body, tail);
    rest := TrimEnd(tail);
    TrimEndEnds(tail);
  }

  lemma {:induction false} RunOfScheme(scheme: string, rest: string)
    requires forall i :: 0 <= i < |scheme| ==> IsSchemeChar(scheme[i])
    requires rest != "" ==> !IsSchemeChar(rest[0])
    ensures SchemeRun(scheme + rest) == |scheme|
  {
    if scheme == "" { assert scheme + rest == rest; }
    else {
      assert (scheme + rest)[1..] == scheme[1..] + rest;
      RunOfScheme(scheme[1..], rest);
    }
  }

  lemma StripsScheme(scheme: string, rest: string)
    requires ValidScheme(scheme)
    ensures StripScheme(scheme + "://" + rest) == rest
  {
    var s := scheme + "://" + rest;
    assert s == scheme + ("://" + rest);
    RunOfScheme(scheme, "://" + rest);
    assert s[0] == scheme[0];
    assert s[|scheme|..] == "://" + rest;
    assert s[|scheme| + 3..] == rest;
  }

  lemma {:induction false} RunIsScheme(s: string, i: nat)
    requires i < SchemeRun(s)
    ensures IsSchemeChar(s[i])
  {
    if i > 0 { RunIsScheme(s[1..], i - 1); }
  }

  /** The text before `//` that would make it a scheme mark. */
  predicate EndsAsScheme(body: string) {
    body != "" && body[|body| - 1] == ':' && ValidScheme(body[..|body| - 1])
  }

  /** A bare authority that does not read `scheme:` before `//` carries no scheme to strip. */
  lemma BareHasNoScheme(body: string, rest: string)
    requires body != "" && forall i :: 0 <= i < |body| ==> body[i] !in DELIMS
    requires rest != "" ==> rest[0] in DELIMS
    requires "//" <= rest ==> !EndsAsScheme(body)
    ensures StripScheme(body + rest) == body + rest
  {
    var s := body + rest;
    var n := SchemeRun(s);
    assert s[0] == body[0];
    assert rest != "" ==> s[|body|] == rest[0];
    if n > |body| {
      RunIsScheme(s, |body|);
      assert false;
    }
    assert n + 1 == |body| ==> s[n..][1..] == rest;
    assert n == |body| && rest != "" ==> s[n] == rest[0];
    assert n + 1 < |body| ==> s[n..][1] == body[n + 1];
    if n + 1 == |body| && "://" <= s[n..] {
      assert body[n] == s[n] == s[n..][0];
      forall i | 0 <= i < n ensures IsSchemeChar(body[..n][i]) { RunIsScheme(s, i); }
    }
  }

  lemma AuthorityOf(user: string, hostPort: string, rest: string)
    requires HostChars(hostPort)
    requires user == "" || user[|user| - 1] == '@'
    requires forall i :: 0 <= i < |user + hostPort| ==> (user + hostPort)[i] !in DELIMS
    requires rest != "" ==> rest[0] in DELIMS
    ensures StripUserinfo(Segment(user + hostPort + rest, DELIMS)) == hostPort
  {
    var authority := user + hostPort;
    FirstOf(authority, rest, DELIMS);
    assert Segment(user + hostPort + rest, DELIMS) == authority;
    if user == "" {
      assert authority == hostPort;
      NoLast(hostPort, '@');
    } else {
      assert authority == user[..|user| - 1] + ['@'] + hostPort;
      LastOf(user[..|user| - 1], hostPort, '@');
    }
  }

  lemma {:induction false} TrimStartPlain(s: string)
    requires forall i :: 0 <= i < |s| ==> s[i] !in DELIMS
    ensures forall i :: 0 <= i < |TrimStart(s)| ==> TrimStart(s)[i] !in DELIMS
  {
    if s != "" && IsSpace(s[0]) { TrimStartPlain(s[1..]); }
  }

  lemma BodyIsPlain(e: Endpoint)
    requires WellSpelled(e)
    ensures BodyOf(e) != "" && forall i :: 0 <= i < |BodyOf(e)| ==> BodyOf(e)[i] !in DELIMS
  {
    HostPortChars(e);
    if e.userinfo.Some? { TrimStartPlain(e.userinfo.value); }
  }

  lemma TrimStartNoop(s: string)
    requires s != "" ==> !IsSpace(s[0])
    ensures TrimStart(s) == s
  {}

  lemma ShownBareUser(user: string, hostPort: string, tail: string)
    requires hostPort != ""
    ensures TrimStart(user + "@" + hostPort + tail) == TrimStart(user) + "@" + hostPort + tail
    ensures !IsSpace((TrimStart(user) + "@" + hostPort)[0])
  {
    var after := "@" + hostPort + tail;
    assert user + "@" + hostPort + tail == user + after && after[0] == '@';
    TrimStartBefore(user, after);
    assert TrimStart(user) + after == TrimStart(user) + "@" + hostPort + tail;
    TrimStartStarts(user);
  }

  /** In front of a prefix, or of a host that has no userinfo, nothing is trimmed. */
  lemma ShownAsWritten(e: Endpoint)
    requires WellSpelled(e) && (e.prefix.Bare? ==> e.userinfo.None?)
    ensures Spell(e) == PrefixText(e.prefix) + BodyOf(e) + e.tail
    ensures !IsSpace((PrefixText(e.prefix) + BodyOf(e))[0])
  {
    HostPortChars(e);
    var hp := HostPort(e);
    assert HostChar(hp[0]);
    match e.prefix
    case Schemed(scheme) => assert (PrefixText(e.prefix) + BodyOf(e))[0] == scheme[0];
    case Relative => assert (PrefixText(e.prefix) + BodyOf(e))[0] == '/';
    case Bare => assert (PrefixText(e.prefix) + BodyOf(e))[0] == hp[0];
  }

  /** Trimming a spelling cuts at most the white space in front of a bare userinfo and behind the tail. */
  lemma ShownSpelling(e: Endpoint)
    requires WellSpelled(e)
    ensures TrimStart(Spell(e)) == PrefixText(e.prefix) + BodyOf(e) + e.tail
    ensures !IsSpace((PrefixText(e.prefix) + BodyOf(e))[0])
  {
    HostPortChars(e);
    if e.prefix.Bare? && e.userinfo.Some? {
      var user, hp := e.userinfo.value, HostPort(e);
      ShownBareUser(user, hp, e.tail);
      assert Spell(e) == user + "@" + hp + e.tail;
      assert PrefixText(e.prefix) + BodyOf(e) == TrimStart(user) + "@" + hp;
    } else {
      ShownAsWritten(e);
      assert Spell(e)[0] == (PrefixText(e.prefix) + BodyOf(e))[0];
      TrimStartNoop(Spell(e));
    }
  }

  /** What trimming leaves of a spelled endpoint: the same endpoint with a shorter tail. */
  lemma TrimmedSpelling(e: Endpoint) returns (rest: string)
    requires WellSpelled(e)
    ensures Trim(Spell(e)) == PrefixText(e.prefix) + (BodyOf(e) + rest)
    ensures rest != "" ==> rest[0] in DELIMS
    ensures "//" <= rest ==> "//" <= e.tail
  {
    HostPortChars(e);
    ShownSpelling(e);
    var pre, hp := PrefixText(e.prefix), HostPort(e);
    var body := pre + BodyOf(e);
    assert body[|body| - 1] == hp[|hp| - 1];
    rest := TrimBody(body, e.tail);
    assert Trim(Spell(e)) == Trim(body + e.tail) by { assert (body + e.tail)[0] == body[0]; }
    assert body + rest == pre + (BodyOf(e) + rest);
  }

  lemma SchemeStripped(p: Prefix, body: string, rest: string)
    requires p.Schemed? ==> ValidScheme(p.scheme)
    requires body != "" && forall i :: 0 <= i < |body| ==> body[i] !in DELIMS
    requires rest != "" ==> rest[0] in DELIMS
    requires p.Bare? && "//" <= rest ==> !EndsAsScheme(body)
    ensures StripScheme(PrefixText(p) + (body + rest)) == body + rest
  {
    var s := PrefixText(p) + (body + rest);
    match p
    case Schemed(scheme) =>
      StripsScheme(scheme, body + rest);
    case Relative =>
      assert s[0] == '/' && s[2..] == body + rest;
    case Bare =>
      assert s == body + rest;
      BareHasNoScheme(body, rest);
  }

  lemma UserGivesAway(user: string, hostPort: string)
    requires hostPort != ""
    ensures !EndsAsScheme(user + "@" + hostPort)
  {
    var body := user + "@" + hostPort;
    assert body[..|body| - 1][|user|] == '@';
  }

  lemma NameEndsAsScheme(name: string, port: Option<string>)
    requires name != "" && ':' !in name
    requires port.Some? ==> forall i :: 0 <= i < |port.value| ==> IsDigit(port.value[i])
    ensures EndsAsScheme(name + PortText(port)) ==> port == Some("") && ValidScheme(name)
  {
    var body := name + PortText(port);
    if port.None? { assert body[|body| - 1] == name[|name| - 1]; }
    else if port.value != "" { assert body[|body| - 1] == port.value[|port.value| - 1]; }
    assert port == Some("") ==> body[..|body| - 1] == name;
  }

  lemma {:induction false} TwoColons(s: string)
    requires Count(s, ':') >= 2
    ensures exists i :: 0 <= i < |s| - 1 && s[i] == ':'
  {
    if s[0] == ':' {
      assert Count(s[1..], ':') >= 1;
      assert |s[1..]| >= 1;
    } else {
      TwoColons(s[1..]);
      var i :| 0 <= i < |s[1..]| - 1 && s[1..][i] == ':';
      assert s[i + 1] == ':';
    }
  }

  lemma ColonsGiveAway(address: string)
    requires Count(address, ':') >= 2
    ensures !EndsAsScheme(address)
  {
    TwoColons(address);
    var i :| 0 <= i < |address| - 1 && address[i] == ':';
    assert address[..|address| - 1][i] == ':';
  }

  /** Only the ambiguous text reads as a scheme: a userinfo, a bracket, a digit or a second colon tells the others. */
  lemma OnlyOneEndsAsScheme(e: Endpoint)
    requires WellSpelled(e) && e.prefix.Bare? && "//" <= e.tail
    ensures !EndsAsScheme(BodyOf(e))
  {
    HostPortChars(e);
    if e.userinfo.Some? {
      UserGivesAway(TrimStart(e.userinfo.value), HostPort(e));
    } else {
      assert BodyOf(e) == HostPort(e);
      match e.host
      case Name(name) => NameEndsAsScheme(name, e.port);
      case Bracketed(literal) => assert HostPort(e)[..|HostPort(e)| - 1][0] == '[';
      case BareIpv6(address) => assert HostPort(e) == address; ColonsGiveAway(address);
    }
  }

  /** The excluded text is a schemed endpoint, and its host is looked for behind the `//`. */
  lemma AmbiguousIsSchemed(e: Endpoint)
    requires ReadsAsScheme(e)
    ensures Spell(e) == e.host.name + "://" + e.tail[2..] && StripScheme(Spell(e)) == e.tail[2..]
  {
    assert e.tail == "//" + e.tail[2..];
    assert Spell(e) == e.host.name + "://" + e.tail[2..];
    StripsScheme(e.host.name, e.tail[2..]);
  }

  lemma SpellingStripped(e: Endpoint, rest: string)
    requires WellSpelled(e)
    requires (rest != "" ==> rest[0] in DELIMS) && ("//" <= rest ==> "//" <= e.tail)
    ensures StripScheme(PrefixText(e.prefix) + (BodyOf(e) + rest)) == BodyOf(e) + rest
  {
    BodyIsPlain(e);
    if e.prefix.Bare? && "//" <= rest { OnlyOneEndsAsScheme(e); }
    SchemeStripped(e.prefix, BodyOf(e), rest);
  }

  /** The authority of every spelled endpoint is its host and port, lower-cased: the rest never shows. */
  lemma AuthorityRoundTrip(e: Endpoint)
    requires WellSpelled(e)
    ensures ExtractAuthority(Spell(e)) == Some(ToLower(HostPort(e)))
  {
    HostPortChars(e);
    var rest := TrimmedSpelling(e);
    SpellingStripped(e, rest);
    BodyIsPlain(e);
    AuthorityOf(UserText(ShownUser(e)), HostPort(e), rest);
  }

  lemma LowerConcat(a: string, b: string)
    ensures ToLower(a + b) == ToLower(a) + ToLower(b)
  {}

  lemma LowerKeeps(s: string, c: char)
    requires !IsLetter(c)
    ensures c in ToLower(s) <==> c in s
  {
    if c in s { var i :| 0 <= i < |s| && s[i] == c; assert ToLower(s)[i] == c; }
    if c in ToLower(s) { var i :| 0 <= i < |s| && ToLower(s)[i] == c; assert s[i] == c; }
  }

  lemma {:induction false} LowerCount(s: string, c: char)
    requires !IsLetter(c)
    ensures Count(ToLower(s), c) == Count(s, c)
  {
    if s != "" {
      LowerCount(s[1..], c);
      assert ToLower(s)[1..] == ToLower(s[1..]);
    }
  }

  lemma LowerDigits(s: string)
    requires forall i :: 0 <= i < |s| ==> IsDigit(s[i])
    ensures ToLower(s) == s && ':' !in s
  {}

  lemma NamedHost(name: string, port: Option<string>)
    requires name != "" && name[0] != '[' && ':' !in name
    requires port.Some? ==> ':' !in port.value
    ensures HostOf(name + PortText(port)) == Some(name)
  {
    var s := name + PortText(port);
    assert s[0] == name[0];
    CountOf(name, ':');
    CountConcat(name, PortText(port), ':');
    FirstOf(name, PortText(port), ":");
    if port.Some? {
      CountOf(port.value, ':');
      assert PortText(port)[1..] == port.value;
      assert s[..|name|] == name;
    } else {
      assert s == name;
    }
  }

  lemma BracketedHost(literal: string, after: string)
    requires ']' !in literal
    ensures HostOf("[" + literal + "]" + after) == Some(literal)
  {
    var s := "[" + literal + "]" + after;
    assert s == ("[" + literal) + ("]" + after);
    FirstOf("[" + literal, "]" + after, "]");
    assert s[1..|literal| + 1] == literal;
  }

  lemma LowerBracketed(literal: string)
    ensures ToLower("[" + literal + "]") == "[" + ToLower(literal) + "]"
  {
    LowerConcat("[" + literal, "]");
    LowerConcat("[", literal);
    assert ToLower("[") == "[" && ToLower("]") == "]";
  }

  /** What the host parser makes of the lowered host and port. */
  lemma HostOfSpelled(h: HostForm, port: Option<string>)
    requires ValidHost(h) && (h.BareIpv6? ==> port.None?)
    requires port.Some? ==> ':' !in port.value
    ensures HostOf(ToLower(HostText(h)) + PortText(port)) == Some(ToLower(BareHost(h)))
  {
    match h
    case Name(name) =>
      LowerKeeps(name, ':');
      NamedHost(ToLower(name), port);
    case Bracketed(literal) =>
      LowerKeeps(literal, ']');
      LowerBracketed(literal);
      BracketedHost(ToLower(literal), PortText(port));
    case BareIpv6(address) =>
      LowerCount(address, ':');
      assert ToLower(address)[0] != '[';
      assert ToLower(address) + "" == ToLower(address);
  }

  lemma LowerHostPort(e: Endpoint)
    requires WellSpelled(e)
    ensures ToLower(HostPort(e)) == ToLower(HostText(e.host)) + PortText(e.port)
    ensures e.port.Some? ==> ':' !in e.port.value
  {
    if e.port.Some? { LowerDigits(e.port.value); }
    assert ToLower(PortText(e.port)) == PortText(e.port);
    LowerConcat(HostText(e.host), PortText(e.port));
  }

  lemma HostFromAuthority(raw: string, authority: string)
    requires ExtractAuthority(raw) == Some(authority)
    ensures ExtractHost(raw) == HostOf(authority)
  {}

  /** The bare host survives any scheme, userinfo, port, brackets and tail. */
  lemma HostRoundTrip(e: Endpoint)
    requires WellSpelled(e)
    ensures ExtractHost(Spell(e)) == Some(ToLower(BareHost(e.host)))
  {
    AuthorityRoundTrip(e);
    HostFromAuthority(Spell(e), ToLower(HostPort(e)));
    LowerHostPort(e);
    HostOfSpelled(e.host, e.port);
  }

  /** Two endpoints naming the same host are read alike, whatever their schemes, userinfos, ports and tails. */
  lemma SameHostSameAnswer(a: Endpoint, b: Endpoint)
    requires WellSpelled(a) && WellSpelled(b)
    requires ToLower(BareHost(a.host)) == ToLower(BareHost(b.host))
    ensures ExtractHost(Spell(a)) == ExtractHost(Spell(b))
    ensures HostText(a.host) == HostText(b.host) && a.port == b.port ==>
      ExtractAuthority(Spell(a)) == ExtractAuthority(Spell(b))
  {
    HostRoundTrip(a);
    HostRoundTrip(b);
    AuthorityRoundTrip(a);
    AuthorityRoundTrip(b);
  }
}
