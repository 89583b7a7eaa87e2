/** What counts as loopback, and exactly which spelled endpoints do. */
module Loopback {
  import opened Wrappers
  import opened Strings
  import opened UrlAuthority

  // ---- decimal octets -------------------------------------------------------------------------

  predicate AllDigits(s: string) { forall i :: 0 <= i < |s| ==> IsDigit(s[i]) }

  function DigitOf(c: char): (n: nat)
    requires IsDigit(c)
    ensures n <= 9
  {
    c as int - '0' as int
  }

  function DecimalOf(s: string): nat
    requires AllDigits(s)
  {
    if s == "" then 0 else 10 * DecimalOf(s[..|s| - 1]) + DigitOf(s[|s| - 1])
  }

  /** One to three decimal digits worth at most 255; leading zeros are read as decimal. */
  predicate IsOctet(s: string) { 1 <= |s| <= 3 && AllDigits(s) && DecimalOf(s) <= 255 }

  predicate IsDottedQuad(labels: seq<string>) { |labels| == 4 && forall k :: 0 <= k < 4 ==> IsOctet(labels[k]) }

  // ---- the two predicates ---------------------------------------------------------------------

  predicate IsLoopbackHost(host: string) {
    || host == "localhost" || host == "::1" || host == "0:0:0:0:0:0:0:1"
    || (var labels := Split(host, '.'); IsDottedQuad(labels) && labels[0] == "127")
  }

  /** `raw` begins `word://`, in any letter case. */
  predicate HasScheme(raw: string, word: string) {
    |word| + 3 <= |raw| && ToLower(raw[..|word| + 3]) == word + "://"
  }

  predicate HasFileAuthority(raw: string) { HasScheme(raw, "unix") || HasScheme(raw, "file") }

  /** `unix:` or `file:` with no `//`, or an absolute path: on this machine with no host to judge. */
  predicate IsPathForm(raw: string) {
    "unix:" <= raw || "file:" <= raw || ("/" <= raw && !("//" <= raw))
  }

  predicate IsLoopbackEndpoint(endpoint: string) {
    var raw := Trim(endpoint);
    if raw == "" then false
    else if HasFileAuthority(raw) then FileAuthorityIsLocal(Segment(raw[7..], DELIMS))
    else if IsPathForm(raw) then true
    else var host := ExtractHost(raw); host.Some? && IsLoopbackHost(host.value)
  }

  predicate FileAuthorityIsLocal(authority: string) {
    authority == "" || IsLoopbackHost(ToLower(Segment(StripUserinfo(authority), ":")))
  }

  // ---- exactness on spelled endpoints ---------------------------------------------------------

  predicate FileScheme(p: Prefix) { p.Schemed? && ToLower(p.scheme) in {"unix", "file"} }

  /** A bare `unix:` or `file:` form, which names a path and no host. */
  predicate PathForm(e: Endpoint) {
    e.prefix.Bare? && ("unix:" <= BodyOf(e) || "file:" <= BodyOf(e))
  }

  predicate IsWord(w: string) { w != "" && forall i :: 0 <= i < |w| ==> 'a' <= w[i] <= 'z' }

  lemma SchemeMark(raw: string, word: string)
    requires HasScheme(raw, word) && IsWord(word)
    ensures StripScheme(raw) == raw[|word| + 3..] && raw[0] != '/'
  {
    var n := |word|;
    assert forall i :: 0 <= i < n + 3 ==> LowerChar(raw[i]) == (word + "://")[i];
    assert ValidScheme(raw[..n]);
    assert (word + "://")[n] == ':' && (word + "://")[n + 1] == '/' && (word + "://")[n + 2] == '/';
    assert raw == raw[..n] + "://" + raw[n + 3..];
    StripsScheme(raw[..n], raw[n + 3..]);
  }

  lemma SameScheme(scheme: string, after: string, word: string)
    requires ValidScheme(scheme) && IsWord(word)
    ensures HasScheme(scheme + "://" + after, word) <==> ToLower(scheme) == word
  {
    var raw := scheme + "://" + after;
    StripsScheme(scheme, after);
    if HasScheme(raw, word) {
      SchemeMark(raw, word);
      assert |word| == |scheme|;
    }
    if |word| == |scheme| {
      assert raw[..|word| + 3] == scheme + "://";
      LowerConcat(scheme, "://");
      assert ToLower("://") == "://";
      assert (ToLower(scheme) + "://")[..|word|] == ToLower(scheme) && (word + "://")[..|word|] == word;
    }
  }

  /** A spelled endpoint begins `word://` exactly when that is its scheme. */
  lemma SpelledScheme(e: Endpoint, body: string, rest: string, word: string)
    requires IsWord(word) && (e.prefix.Schemed? ==> ValidScheme(e.prefix.scheme))
    requires StripScheme(PrefixText(e.prefix) + (body + rest)) == body + rest
    ensures HasScheme(PrefixText(e.prefix) + (body + rest), word) <==>
      (e.prefix.Schemed? && ToLower(e.prefix.scheme) == word)
  {
    var raw := PrefixText(e.prefix) + (body + rest);
    if HasScheme(raw, word) { SchemeMark(raw, word); }
    match e.prefix
    case Schemed(scheme) =>
      assert raw == scheme + "://" + (body + rest);
      SameScheme(scheme, body + rest, word);
    case Relative =>
      assert raw[0] == '/';
    case Bare =>
      assert raw == body + rest;
  }

  /** `localhost`, two spellings of the IPv6 loopback address, or a dotted quad written `127` and three octets. */
  ghost predicate IsThisMachine(host: string) {
    || host in {"localhost", "::1", "0:0:0:0:0:0:0:1"}
    || exists a, b, c :: IsOctet(a) && IsOctet(b) && IsOctet(c) && host == Join(["127", a, b, c], '.')
  }

  lemma ThisMachineExactly(host: string)
    ensures IsLoopbackHost(host) <==> IsThisMachine(host)
  {
    var labels := Split(host, '.');
    if IsDottedQuad(labels) && labels[0] == "127" {
      SplitThenJoin(host, '.');
      assert labels == ["127", labels[1], labels[2], labels[3]];
    }
    if a, b, c :| IsOctet(a) && IsOctet(b) && IsOctet(c) && host == Join(["127", a, b, c], '.') {
      JoinThenSplit(["127", a, b, c], '.');
      SevenFits();
    }
  }

  lemma SevenFits()
    ensures IsOctet("127")
  {
    assert DecimalOf("1") == 1;
    assert DecimalOf("12") == 12;
  }

  /** What the loopback predicate must answer on a spelled endpoint. */
  ghost predicate NamesThisMachine(e: Endpoint) {
    if FileScheme(e.prefix) then IsThisMachine(ToLower(Segment(HostText(e.host), ":")))
    else PathForm(e) || IsThisMachine(ToLower(BareHost(e.host)))
  }

  /** After a `unix://` or `file://`, only the host text up to its first colon is judged. */
  lemma FileHost(e: Endpoint, rest: string)
    requires WellSpelled(e)
    requires rest != "" ==> rest[0] in DELIMS
    ensures (var authority := Segment(BodyOf(e) + rest, DELIMS);
      authority != "" && Segment(StripUserinfo(authority), ":") == Segment(HostText(e.host), ":"))
  {
    BodyIsPlain(e);
    FirstOf(BodyOf(e), rest, DELIMS);
    HostPortChars(e);
    AuthorityOf(UserText(ShownUser(e)), HostPort(e), rest);
    FirstColon(HostText(e.host), PortText(e.port));
  }

  lemma {:induction false} FirstColon(h: string, port: string)
    requires port == "" || port[0] == ':'
    ensures Segment(h + port, ":") == Segment(h, ":")
  {
    var i := IndexOfAny(h, ":");
    assert h + port == h[..i] + (h[i..] + port);
    FirstOf(h[..i], h[i..] + port, ":");
  }

  /** What is left of a spelled endpoint once it is trimmed, and what the parser says of that. */
  lemma Trimmed(e: Endpoint) returns (rest: string)
    requires WellSpelled(e)
    ensures Trim(Spell(e)) == PrefixText(e.prefix) + (BodyOf(e) + rest) && Trim(Spell(e)) != ""
    ensures StripScheme(PrefixText(e.prefix) + (BodyOf(e) + rest)) == BodyOf(e) + rest
    ensures rest != "" ==> rest[0] in DELIMS
    ensures ExtractHost(Trim(Spell(e))) == Some(ToLower(BareHost(e.host)))
  {
    rest := TrimmedSpelling(e);
    SpellingStripped(e, rest);
    HostRoundTrip(e);
    TrimTwice(Spell(e));
  }

  lemma WhenFileAuthority(e: Endpoint, rest: string)
    requires e.prefix.Schemed? ==> ValidScheme(e.prefix.scheme)
    requires StripScheme(PrefixText(e.prefix) + (BodyOf(e) + rest)) == BodyOf(e) + rest
    ensures HasFileAuthority(PrefixText(e.prefix) + (BodyOf(e) + rest)) <==> FileScheme(e.prefix)
  {
    SpelledScheme(e, BodyOf(e), rest, "unix");
    SpelledScheme(e, BodyOf(e), rest, "file");
  }

  lemma FileEndpoint(e: Endpoint, rest: string, raw: string)
    requires WellSpelled(e) && FileScheme(e.prefix)
    requires rest != "" ==> rest[0] in DELIMS
    requires raw == Trim(Spell(e)) == PrefixText(e.prefix) + (BodyOf(e) + rest)
    requires HasFileAuthority(raw)
    ensures IsLoopbackEndpoint(Spell(e)) <==> IsLoopbackHost(ToLower(Segment(HostText(e.host), ":")))
  {
    assert |e.prefix.scheme| == |ToLower(e.prefix.scheme)|;
    assert raw[7..] == BodyOf(e) + rest;
    FileHost(e, rest);
  }

  lemma HostEndpoint(endpoint: string, host: string)
    requires Trim(endpoint) != "" && !HasFileAuthority(Trim(endpoint))
    requires ExtractHost(Trim(endpoint)) == Some(host)
    ensures IsLoopbackEndpoint(endpoint) <==> IsPathForm(Trim(endpoint)) || IsLoopbackHost(host)
  {}

  /** On every spelled endpoint the predicate holds exactly for this machine's own addresses and path forms. */
  lemma LoopbackExactly(e: Endpoint)
    requires WellSpelled(e)
    ensures IsLoopbackEndpoint(Spell(e)) <==> NamesThisMachine(e)
  {
    var rest := Trimmed(e);
    WhenFileAuthority(e, rest);
    ThisMachineExactly(ToLower(Segment(HostText(e.host), ":")));
    ThisMachineExactly(ToLower(BareHost(e.host)));
    if FileScheme(e.prefix) {
      FileEndpoint(e, rest, Trim(Spell(e)));
    } else {
      WhenPathForm(e, rest);
      HostEndpoint(Spell(e), ToLower(BareHost(e.host)));
    }
  }

  lemma WhenPathForm(e: Endpoint, rest: string)
    requires WellSpelled(e) && !FileScheme(e.prefix)
    requires rest != "" ==> rest[0] in DELIMS
    ensures IsPathForm(PrefixText(e.prefix) + (BodyOf(e) + rest)) <==> PathForm(e)
  {
    BodyIsPlain(e);
    var raw := PrefixText(e.prefix) + (BodyOf(e) + rest);
    match e.prefix
    case Schemed(scheme) =>
      assert raw == scheme + "://" + (BodyOf(e) + rest);
      SchemedIsNoPath(scheme, BodyOf(e) + rest);
    case Relative =>
      assert raw[0] == '/' && raw[1] == '/';
    case Bare =>
      assert raw == BodyOf(e) + rest && raw[0] == BodyOf(e)[0];
      PrefixWithin("unix:", BodyOf(e), rest);
      PrefixWithin("file:", BodyOf(e), rest);
  }

  lemma SchemedIsNoPath(scheme: string, after: string)
    requires ValidScheme(scheme) && ToLower(scheme) !in {"unix", "file"}
    ensures !IsPathForm(scheme + "://" + after)
  {
    var raw := scheme + "://" + after;
    assert raw[0] == scheme[0] && raw[..|scheme|] == scheme;
    assert raw[|scheme|] == ':' && forall i :: 0 <= i < |scheme| ==> raw[i] == scheme[i] && raw[i] != ':';
    if "unix:" <= raw { ColonAfter(raw, "unix", |scheme|); }
    if "file:" <= raw { ColonAfter(raw, "file", |scheme|); }
  }

  lemma SchemeAndHost(e: Endpoint, word: string)
    requires WellSpelled(e) && IsWord(word)
    ensures HasScheme(Trim(Spell(e)), word) <==> (e.prefix.Schemed? && ToLower(e.prefix.scheme) == word)
    ensures ExtractHost(Trim(Spell(e))) == Some(ToLower(BareHost(e.host)))
  {
    var rest := Trimmed(e);
    SpelledScheme(e, BodyOf(e), rest, word);
  }

  /** The first colon of a string that begins `word:` stands right after the word. */
  lemma ColonAfter(raw: string, word: string, n: nat)
    requires word + ":" <= raw && ':' !in word && ToLower(word) == word
    requires n < |raw| && raw[n] == ':' && forall i :: 0 <= i < n ==> raw[i] != ':'
    ensures n == |word| && raw[..n] == word && ToLower(raw[..n]) == word
  {
    var w := word + ":";
    assert raw[|word|] == w[|word|];
    assert forall i :: 0 <= i < |word| ==> raw[i] == w[i] == word[i];
  }

  lemma PrefixWithin(p: string, body: string, rest: string)
    requires forall i :: 0 <= i < |p| ==> p[i] !in DELIMS
    requires rest != "" ==> rest[0] in DELIMS
    ensures p <= body + rest <==> p <= body
  {
    var w := body + rest;
    assert |p| <= |body| ==> w[..|p|] == body[..|p|];
    assert |body| < |w| ==> w[|body|] in DELIMS;
    assert p <= w ==> forall i :: 0 <= i < |p| ==> p[i] == w[i];
  }
}
