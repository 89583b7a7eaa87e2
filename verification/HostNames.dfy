/**
 * Which host texts are public, label by label, and so which endpoints the gate admits. A host is judged by its text
 * alone: a name, a numeric form in any base and arity, or an IPv6 literal.
 */
module HostNames {
  import opened Wrappers
  import opened Strings
  import opened UrlAuthority
  import opened Loopback
  import opened Ipv6
  import opened HostRanges

  // ---- labels ---------------------------------------------------------------------------------

  /** A decimal or octal number, or a hexadecimal one. */
  predicate IsNumber(text: string) {
    || (text != "" && AllDigits(text))
    || (|text| > 2 && text[0] == '0' && text[1] == 'x' && AllHex(text[2..]))
  }

  predicate AreNumbers(labels: seq<string>) { forall k :: 0 <= k < |labels| ==> IsNumber(labels[k]) }

  /** The name ends in one of the five endings that are never public; `localhost` counts on its own too. */
  predicate EndsInside(labels: seq<string>) {
    var n := |labels|;
    || labels == ["localhost"]
    || (n >= 2 && labels[n - 1] in {"localhost", "internal", "local", "lan"})
    || (n >= 3 && labels[n - 2] == "home" && labels[n - 1] == "arpa")
  }

  lemma SuffixSplits(x: string, tail: seq<string>)
    requires tail != [] && forall k :: 0 <= k < |tail| ==> '.' !in tail[k]
    ensures Split(x + ("." + Join(tail, '.')), '.') == Split(x, '.') + tail
  {
    var t := Join(tail, '.');
    assert x + ("." + t) == x + ['.'] + t;
    SplitAt(x, t, '.');
    JoinThenSplit(tail, '.');
  }

  lemma TailEnds(front: seq<string>, tail: seq<string>)
    requires front != [] && tail != []
    ensures EndsWith(Join(front + tail, '.'), "." + Join(tail, '.'))
  {
    var t := "." + Join(tail, '.');
    JoinConcat(front, tail, '.');
    assert Join(front + tail, '.') == Join(front, '.') + t;
  }

  /** A text ends in a dot and some labels exactly when they are the last of its labels, and not all of them. */
  lemma EndsInLabels(h: string, tail: seq<string>)
    requires tail != [] && forall k :: 0 <= k < |tail| ==> '.' !in tail[k]
    ensures EndsWith(h, "." + Join(tail, '.')) <==> HasTail(Split(h, '.'), tail)
  {
    var labels, t := Split(h, '.'), "." + Join(tail, '.');
    if EndsWith(h, t) {
      var x := h[..|h| - |t|];
      assert h == x + t;
      SuffixSplits(x, tail);
      assert labels == Split(x, '.') + tail;
    }
    if HasTail(labels, tail) {
      var front := labels[..|labels| - |tail|];
      assert labels == front + tail;
      SplitThenJoin(h, '.');
      TailEnds(front, tail);
    }
  }

  predicate HasTail(labels: seq<string>, tail: seq<string>) {
    |labels| > |tail| && labels[|labels| - |tail|..] == tail
  }

  lemma EndsInWord(h: string, word: string, suffix: string)
    requires '.' !in word && suffix == "." + word
    ensures (var labels := Split(h, '.');
      EndsWith(h, suffix) <==> |labels| >= 2 && labels[|labels| - 1] == word)
  {
    EndsInLabels(h, [word]);
    LastWord(Split(h, '.'), word);
  }

  lemma LastWord(labels: seq<string>, word: string)
    ensures HasTail(labels, [word]) <==> |labels| >= 2 && labels[|labels| - 1] == word
  {
    if |labels| >= 2 { assert labels[|labels| - 1..] == [labels[|labels| - 1]]; }
  }

  lemma EndsInArpa(h: string)
    ensures (var labels := Split(h, '.'); var n := |labels|;
      EndsWith(h, ".home.arpa") <==> n >= 3 && labels[n - 2] == "home" && labels[n - 1] == "arpa")
  {
    ArpaText();
    EndsInLabels(h, ["home", "arpa"]);
    LastTwo(Split(h, '.'));
  }

  lemma ArpaText()
    ensures "." + Join(["home", "arpa"], '.') == ".home.arpa"
  {
    assert ["home", "arpa"][1..] == ["arpa"];
  }

  lemma LastTwo(labels: seq<string>)
    ensures var n := |labels|;
      HasTail(labels, ["home", "arpa"]) <==> n >= 3 && labels[n - 2] == "home" && labels[n - 1] == "arpa"
  {
    var n := |labels|;
    if n >= 3 { assert labels[n - 2..] == [labels[n - 2], labels[n - 1]]; }
  }

  lemma OneWord(h: string, word: string)
    requires '.' !in word
    ensures h == word <==> Split(h, '.') == [word]
  {
    SplitThenJoin(h, '.');
    SplitWhole(word, '.');
  }

  lemma InternalExactly(h: string)
    ensures IsInternalName(h) <==> EndsInside(Split(h, '.'))
  {
    OneWord(h, "localhost");
    EndsInWord(h, "localhost", ".localhost");
    EndsInWord(h, "internal", ".internal");
    EndsInWord(h, "local", ".local");
    EndsInWord(h, "lan", ".lan");
    EndsInArpa(h);
  }

  lemma {:induction false} JoinedChars(labels: seq<string>, c: char)
    ensures c in Join(labels, '.') ==> c == '.' || exists k :: 0 <= k < |labels| && c in labels[k]
    ensures forall k :: 0 <= k < |labels| && c in labels[k] ==> c in Join(labels, '.')
  {
    if |labels| > 1 {
      var rest := labels[1..];
      JoinedChars(rest, c);
      if j :| 0 <= j < |rest| && c in rest[j] { assert c in labels[j + 1]; }
      forall k | 0 <= k < |labels| && c in labels[k] ensures c in Join(labels, '.') {
        if k > 0 { assert c in rest[k - 1]; }
      }
    }
  }

  lemma NumberChars(text: string)
    requires IsNumber(text)
    ensures forall c :: c in text ==> IsHexDigit(c) || c == 'x'
    ensures text != "" && IsDigit(text[0]) && IsNumericLabel(text)
  {
    if |text| > 2 && text[0] == '0' && text[1] == 'x' && AllHex(text[2..]) {
      assert text == "0x" + text[2..];
    }
  }

  lemma NumericIsNumber(text: string)
    requires IsNumericLabel(text)
    ensures IsNumber(text)
  {
    if |text| > 2 && text[..2] == "0x" { assert text[0] == text[..2][0] && text[1] == text[..2][1]; }
  }

  /** A host without a colon is taken for a number exactly when each of its labels is one. */
  lemma NumericExactly(h: string)
    ensures IsNumericAttempt(h) <==> ':' !in h && AreNumbers(Split(h, '.'))
  {
    var labels := Split(h, '.');
    SplitThenJoin(h, '.');
    if IsNumericAttempt(h) {
      forall k | 0 <= k < |labels| ensures IsNumber(labels[k]) {
        assert labels[k] in labels;
        NumericIsNumber(labels[k]);
      }
    }
    if ':' !in h && AreNumbers(labels) { NumbersAreAttempt(h, labels); }
  }

  lemma NumbersAreAttempt(h: string, labels: seq<string>)
    requires labels == Split(h, '.') && Join(labels, '.') == h && ':' !in h && AreNumbers(labels)
    ensures IsNumericAttempt(h)
  {
    forall i | 0 <= i < |h| ensures IsHexDigit(h[i]) || h[i] == 'x' || h[i] == '.' {
      JoinedChars(labels, h[i]);
      if h[i] != '.' {
        var k :| 0 <= k < |labels| && h[i] in labels[k];
        NumberChars(labels[k]);
      }
    }
    NumberChars(labels[0]);
    JoinedChars(labels, labels[0][0]);
    assert labels[0][0] in h && IsDigit(labels[0][0]);
    forall l | l in labels ensures IsNumericLabel(l) {
      var k :| 0 <= k < |labels| && labels[k] == l;
      NumberChars(labels[k]);
    }
  }

  // ---- public hosts ---------------------------------------------------------------------------

  /**
   * A host text is public when it is none of the inside names and is, with a colon, an IPv6 address that is not
   * private; of numbers only, a dotted quad outside the private blocks; or else a name of two labels or more.
   */
  ghost predicate IsPublicHost(host: string) {
    var h := Normal(host);
    var labels := Split(h, '.');
    && h != "" && !EndsInside(labels)
    && if ':' in h then IsPublicLiteral(h)
       else if AreNumbers(labels) then IsDottedQuad(labels) && !InPrivateBlock(QuadAddress(labels))
       else |labels| >= 2
  }

  ghost predicate IsPublicLiteral(h: string) {
    exists v: seq<nat> :: Hextets(h) == Some(v) && |v| == 8 && !IsPrivateAddress(v)
  }

  lemma LiteralExactly(host: string)
    requires Normal(host) != "" && ':' in Normal(host) && !IsInternalName(Normal(host))
    ensures IsPrivateHost(host) <==> !IsPublicLiteral(Normal(host))
  {
    var h := Normal(host);
    assert !IsNumericAttempt(h);
    if Hextets(h).Some? {
      HextetsAreHextets(h);
      ColonHostIsPrivateExactly(host, Hextets(h).value);
    } else {
      assert IsPrivateHost(host);
    }
  }

  lemma NoDotExactly(h: string)
    ensures '.' !in h <==> |Split(h, '.')| == 1
  {
    if '.' !in h { SplitWhole(h, '.'); }
  }

  /** Every host text is private or public, and this says which. */
  lemma PublicExactly(host: string)
    ensures IsPrivateHost(host) <==> !IsPublicHost(host)
  {
    var h := Normal(host);
    InternalExactly(h);
    NumericExactly(h);
    NoDotExactly(h);
    if h != "" && !IsInternalName(h) {
      if ':' in h { LiteralExactly(host); }
      else if IsNumericAttempt(h) { NumericIsPrivateExactly(host); }
    }
  }

  // ---- written hosts --------------------------------------------------------------------------

  /** Labels of a host as one writes them: any characters but dots, colons and white space, in any letter case. */
  predicate AreLabels(labels: seq<string>) {
    && labels != []
    && forall k :: 0 <= k < |labels| ==>
      labels[k] != "" && forall c :: c in labels[k] ==> c != '.' && c != ':' && !IsSpace(c)
  }

  function Lowered(labels: seq<string>): (r: seq<string>)
    ensures |r| == |labels|
  {
    seq(|labels|, k requires 0 <= k < |labels| => ToLower(labels[k]))
  }

  function Dots(n: nat): string { if n == 0 then "" else Dots(n - 1) + "." }

  /** The labels joined with dots, and any number of dots behind them. */
  function HostName(labels: seq<string>, dots: nat): string { Join(labels, '.') + Dots(dots) }

  lemma {:induction false} LoweredJoin(labels: seq<string>)
    ensures ToLower(Join(labels, '.')) == Join(Lowered(labels), '.')
  {
    if |labels| > 1 {
      LoweredJoin(labels[1..]);
      assert Lowered(labels)[1..] == Lowered(labels[1..]);
      LowerConcat(labels[0] + ".", Join(labels[1..], '.'));
      LowerConcat(labels[0], ".");
      assert ToLower(".") == ".";
    }
  }

  lemma OneDotStripped(s: string)
    ensures StripDots(s + ".") == StripDots(s)
  {
    var t := s + ".";
    assert t[|t| - 1] == '.' && t[..|t| - 1] == s;
  }

  lemma {:induction false} DotsStripped(s: string, n: nat)
    requires s != "" && s[|s| - 1] != '.'
    ensures StripDots(s + Dots(n)) == s
  {
    if n == 0 {
      assert s + "" == s;
    } else {
      DotsStripped(s, n - 1);
      OneDotStripped(s + Dots(n - 1));
      assert s + Dots(n) == s + Dots(n - 1) + ".";
    }
  }

  lemma {:induction false} AreDots(n: nat)
    ensures forall i :: 0 <= i < |Dots(n)| ==> Dots(n)[i] == '.'
    ensures ToLower(Dots(n)) == Dots(n)
  {
    if n > 0 { AreDots(n - 1); }
  }

  lemma {:induction false} LabelsEnds(labels: seq<string>)
    requires AreLabels(labels)
    ensures (var j := Join(labels, '.');
      && j != "" && !IsSpace(j[0]) && !IsSpace(j[|j| - 1]) && j[|j| - 1] != '.' && ':' !in j)
  {
    assert labels[0][0] in labels[0] && labels[0][|labels[0]| - 1] in labels[0];
    if |labels| > 1 {
      assert AreLabels(labels[1..]);
      LabelsEnds(labels[1..]);
    }
  }

  lemma NormalName(labels: seq<string>, dots: nat)
    requires AreLabels(labels)
    ensures Normal(HostName(labels, dots)) == Join(Lowered(labels), '.')
    ensures Split(Join(Lowered(labels), '.'), '.') == Lowered(labels) && ':' !in Join(Lowered(labels), '.')
  {
    var low := Lowered(labels);
    LoweredLabels(labels);
    LabelsEnds(low);
    LoweredJoin(labels);
    LowerConcat(Join(labels, '.'), Dots(dots));
    var s := Join(low, '.');
    DotsStripped(s, dots);
    AreDots(dots);
    var t := s + Dots(dots);
    assert t[0] == s[0] && !IsSpace(t[|t| - 1]);
    TrimNoop(t);
    JoinThenSplit(low, '.');
  }

  lemma LoweredLabels(labels: seq<string>)
    requires AreLabels(labels)
    ensures AreLabels(Lowered(labels))
  {
    var low := Lowered(labels);
    forall k | 0 <= k < |low|
      ensures low[k] != "" && forall c :: c in low[k] ==> c != '.' && c != ':' && !IsSpace(c)
    {
      assert labels[k] != "" && low[k] == ToLower(labels[k]);
      forall c | c in low[k] ensures c != '.' && c != ':' && !IsSpace(c) {
        var i :| 0 <= i < |low[k]| && low[k][i] == c;
        assert labels[k][i] in labels[k];
      }
    }
  }

  /**
   * The denylist on written hosts: the inside endings are denied, a single label is, and so is every numeric form but
   * a dotted quad outside the private blocks; every other name is public.
   */
  lemma NameIsPrivateExactly(labels: seq<string>, dots: nat)
    requires AreLabels(labels)
    ensures (var low := Lowered(labels);
      IsPrivateHost(HostName(labels, dots)) <==>
        || EndsInside(low)
        || (if AreNumbers(low) then !IsDottedQuad(low) || InPrivateBlock(QuadAddress(low)) else |low| == 1))
  {
    NormalName(labels, dots);
    PublicExactly(HostName(labels, dots));
    LoweredLabels(labels);
    LabelsEnds(Lowered(labels));
  }

  // ---- admissible endpoints -------------------------------------------------------------------

  function SpellAll(es: seq<Endpoint>): (r: seq<string>)
    ensures |r| == |es|
  {
    seq(|es|, k requires 0 <= k < |es| => Spell(es[k]))
  }

  /** Only HTTPS reaches a host, only a public one, and only one that an allowlist entry names exactly. */
  ghost predicate IsAdmissible(e: Endpoint, allowed: seq<Endpoint>) {
    && e.prefix.Schemed? && ToLower(e.prefix.scheme) == "https"
    && IsPublicHost(ToLower(BareHost(e.host)))
    && exists k :: 0 <= k < |allowed| && ToLower(BareHost(allowed[k].host)) == ToLower(BareHost(e.host))
  }

  lemma AllowedHosts(host: string, allowed: seq<Endpoint>)
    requires forall k :: 0 <= k < |allowed| ==> WellSpelled(allowed[k])
    ensures IsAllowedHost(host, SpellAll(allowed)) <==>
      exists k :: 0 <= k < |allowed| && ToLower(BareHost(allowed[k].host)) == host
  {
    forall k | 0 <= k < |allowed|
      ensures ExtractHost(SpellAll(allowed)[k]) == Some(ToLower(BareHost(allowed[k].host)))
    {
      HostRoundTrip(allowed[k]);
    }
  }

  lemma AdmitsWhen(endpoint: string, host: string, allowedHosts: seq<string>)
    requires ExtractHost(Trim(endpoint)) == Some(host)
    ensures Admits(endpoint, allowedHosts) <==>
      HasScheme(Trim(endpoint), "https") && !IsPrivateHost(host) && IsAllowedHost(host, allowedHosts)
  {
    if IsLoopbackHost(host) { LoopbackIsPrivate(host); }
  }

  /** On spelled endpoints and allowlists the gate is exact, and its loopback test adds nothing to the denylist. */
  lemma AdmitsExactly(e: Endpoint, allowed: seq<Endpoint>)
    requires WellSpelled(e) && forall k :: 0 <= k < |allowed| ==> WellSpelled(allowed[k])
    ensures Admits(Spell(e), SpellAll(allowed)) <==> IsAdmissible(e, allowed)
  {
    var endpoint, hosts, host := Spell(e), SpellAll(allowed), ToLower(BareHost(e.host));
    SchemeAndHost(e, "https");
    AdmitsWhen(endpoint, host, hosts);
    AllowedHosts(host, allowed);
    PublicExactly(host);
  }
}
