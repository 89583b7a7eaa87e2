/** Every spelling of section 2.2 of RFC 4291, the hextets it denotes, and the proof that the parser finds them. */
module Ipv6Spellings {
  import opened Wrappers
  import opened Strings
  import opened Loopback
  import opened Ipv6

  /**
   * Eight groups, or six and a dotted quad; or groups around one `::` that stands for at least one zero
   * group. Groups are one to four hexadecimal digits, in the case the writer chose.
   */
  datatype Spelling =
    | Full(groups: seq<string>, quad: Option<seq<string>>)
    | Compressed(head: seq<string>, tail: seq<string>, quad: Option<seq<string>>)

  function QuadPart(quad: Option<seq<string>>): seq<string> { if quad.Some? then [Join(quad.value, '.')] else [] }

  function Text(sp: Spelling): string {
    match sp
    case Full(groups, quad) => Join(groups + QuadPart(quad), ':')
    case Compressed(head, tail, quad) => Join(head, ':') + "::" + Join(tail + QuadPart(quad), ':')
  }

  function LowerAll(gs: seq<string>): (r: seq<string>)
    ensures |r| == |gs|
  {
    seq(|gs|, i requires 0 <= i < |gs| => ToLower(gs[i]))
  }

  predicate Written(gs: seq<string>) { AreGroups(LowerAll(gs)) }

  predicate GoodQuad(quad: Option<seq<string>>) { quad.Some? ==> IsDottedQuad(quad.value) }

  function QuadWidth(quad: Option<seq<string>>): nat { if quad.Some? then 2 else 0 }

  predicate WellFormed(sp: Spelling) {
    && GoodQuad(sp.quad)
    && match sp
       case Full(groups, quad) => Written(groups) && |groups| + QuadWidth(quad) == 8
       case Compressed(head, tail, quad) => Written(head) && Written(tail) && |head| + |tail| + QuadWidth(quad) <= 7
  }

  function QuadValue(quad: Option<seq<string>>): (r: seq<nat>)
    requires GoodQuad(quad)
    ensures |r| == QuadWidth(quad)
  {
    if quad.Some? then QuadHextets(quad.value) else []
  }

  function Meaning(gs: seq<string>): (r: seq<nat>)
    requires Written(gs)
    ensures |r| == |gs|
  {
    HexAll(LowerAll(gs))
  }

  /** The eight hextets a spelling denotes. */
  function Value(sp: Spelling): (v: seq<nat>)
    requires WellFormed(sp)
    ensures |v| == 8
  {
    match sp
    case Full(groups, quad) => Meaning(groups) + QuadValue(quad)
    case Compressed(head, tail, quad) =>
      Meaning(head) + Zeros(8 - |head| - |tail| - QuadWidth(quad)) + Meaning(tail) + QuadValue(quad)
  }

  // ---- joined groups --------------------------------------------------------------------------

  predicate IsGroupText(s: string) { forall i :: 0 <= i < |s| ==> IsHexDigit(s[i]) || s[i] == ':' }

  /** Joined groups are hexadecimal at both ends and never hold two colons in a row. */
  lemma {:induction false} JoinedGroups(gs: seq<string>)
    requires AreGroups(gs)
    ensures (var t := Join(gs, ':');
      && IsGroupText(t)
      && (gs == [] <==> t == "")
      && (t != "" ==> IsHexDigit(t[0]) && IsHexDigit(t[|t| - 1]))
      && forall k :: 0 <= k && k + 1 < |t| ==> !(t[k] == ':' && t[k + 1] == ':'))
  {
    if |gs| > 1 {
      var g, rest := gs[0], Join(gs[1..], ':');
      JoinedGroups(gs[1..]);
      var t := g + [':'] + rest;
      assert forall k :: 0 <= k < |g| ==> t[k] == g[k];
      assert t[|g|] == ':' && forall k :: |g| < k < |t| ==> t[k] == rest[k - |g| - 1];
    }
  }

  lemma GroupsOfJoined(gs: seq<string>)
    requires AreGroups(gs)
    ensures Groups(Join(gs, ':')) == Some(HexAll(gs))
  {
    JoinedGroups(gs);
    if gs != [] {
      forall k | 0 <= k < |gs| ensures ':' !in gs[k] {}
      JoinThenSplit(gs, ':');
    }
  }

  predicate NoDouble(s: string) { forall k :: 0 <= k && k + 1 < |s| ==> !(s[k] == ':' && s[k + 1] == ':') }

  lemma OneHalf(s: string)
    requires NoDouble(s)
    ensures SplitDouble(s) == [s]
  {}

  lemma TwoHalves(a: string, b: string)
    requires NoDouble(a) && NoDouble(b)
    requires a != "" ==> a[|a| - 1] != ':'
    ensures SplitDouble(a + "::" + b) == [a, b]
  {
    var s := a + "::" + b;
    assert s[|a|] == ':' && s[|a| + 1] == ':';
    assert forall k :: 0 <= k < |a| ==> s[k] == a[k];
    assert FirstDouble(s) == |a|;
    assert s[..|a|] == a && s[|a| + 2..] == b;
    OneHalf(b);
  }

  // ---- the trailing quad ----------------------------------------------------------------------

  lemma {:induction false} PieceHolding(s: string, sep: char, c: char)
    requires c in s && c != sep
    ensures exists k :: 0 <= k < |Split(s, sep)| && c in Split(s, sep)[k]
    decreases |s|
  {
    var i := IndexOfAny(s, [sep]);
    if i == |s| {
      assert c in Split(s, sep)[0];
    } else if c in s[..i] {
      assert c in Split(s, sep)[0];
    } else {
      assert s == s[..i] + [sep] + s[i + 1..];
      PieceHolding(s[i + 1..], sep, c);
      var k :| 0 <= k < |Split(s[i + 1..], sep)| && c in Split(s[i + 1..], sep)[k];
      assert Split(s, sep)[k + 1] == Split(s[i + 1..], sep)[k];
    }
  }

  lemma ColonIsNoQuad(s: string)
    requires ':' in s
    ensures !IsQuadText(s)
  {
    PieceHolding(s, '.', ':');
  }

  lemma {:induction false} FirstSuffixAt(s: string, from: nat, p: string -> bool, i: nat)
    requires from <= i <= |s|
    requires forall j :: from <= j < i ==> !p(s[j..])
    requires i < |s| ==> p(s[i..])
    ensures FirstSuffix(s, from, p) == i
    decreases i - from
  {
    if from < i { FirstSuffixAt(s, from + 1, p, i); }
  }

  lemma NoQuad(s: string)
    requires '.' !in s
    ensures QuadStart(s) == |s| && QuadTail(s) == Some((s, []))
  {
    forall j | 0 <= j < |s| ensures !IsQuadText(s[j..]) {
      SplitWhole(s[j..], '.');
    }
    FirstSuffixAt(s, 0, IsQuadText, |s|);
  }

  lemma {:induction false} JoinHas(parts: seq<string>, sep: char)
    requires parts != []
    ensures |Join(parts, sep)| >= |parts[0]|
    ensures |parts| > 1 ==> sep in Join(parts, sep)
  {}

  lemma QuadText(quad: seq<string>)
    requires IsDottedQuad(quad)
    ensures (var q := Join(quad, '.'); q != "" && IsQuadText(q) && Split(q, '.') == quad)
  {
    forall k | 0 <= k < |quad| ensures '.' !in quad[k] {}
    JoinThenSplit(quad, '.');
    JoinHas(quad, '.');
  }

  /** A quad is found where it starts when nothing before it could start one. */
  lemma QuadFoundAfter(front: string, quad: seq<string>)
    requires IsDottedQuad(quad)
    requires forall j :: 0 <= j < |front| ==> !IsQuadText((front + Join(quad, '.'))[j..])
    ensures QuadStart(front + Join(quad, '.')) == |front|
    ensures QuadTail(front + Join(quad, '.')) == Some((DropJoint(front), QuadHextets(quad)))
  {
    QuadText(quad);
    var s := front + Join(quad, '.');
    assert s[|front|..] == Join(quad, '.') && s[..|front|] == front;
    FirstSuffixAt(s, 0, IsQuadText, |front|);
  }

  lemma ColonAhead(front: string, q: string, j: nat)
    requires j < |front| && front[|front| - 1] == ':'
    ensures !IsQuadText((front + q)[j..])
  {
    assert (front + q)[j..][|front| - 1 - j] == ':';
    ColonIsNoQuad((front + q)[j..]);
  }

  /** A quad that follows a colon is found where it starts, and only the joining colon is cut. */
  lemma QuadFound(before: string, quad: seq<string>)
    requires before != "" && before[|before| - 1] == ':'
    requires IsDottedQuad(quad)
    ensures QuadStart(before + Join(quad, '.')) == |before|
    ensures QuadTail(before + Join(quad, '.')) == Some((DropJoint(before), QuadHextets(quad)))
  {
    forall j | 0 <= j < |before| ensures !IsQuadText((before + Join(quad, '.'))[j..]) {
      ColonAhead(before, Join(quad, '.'), j);
    }
    QuadFoundAfter(before, quad);
  }

  // ---- completeness ---------------------------------------------------------------------------

  /** The part of a spelling the parser splits at `::`. */
  function Front(sp: Spelling): string {
    match sp
    case Full(groups, _) => Join(groups, ':')
    case Compressed(head, tail, _) => Join(head, ':') + "::" + Join(tail, ':')
  }

  predicate LowerCase(sp: Spelling) {
    match sp
    case Full(groups, _) => AreGroups(groups)
    case Compressed(head, tail, _) => AreGroups(head) && AreGroups(tail)
  }

  lemma DropsOneColon(s: string)
    requires s != "" && s[|s| - 1] != ':'
    ensures DropJoint(s + ":") == s
  {
    var t := s + ":";
    assert t[|t| - 2..][0] == s[|s| - 1] && t[|t| - 1..] == ":";
  }

  lemma KeepsDoubleColon(s: string)
    ensures DropJoint(s + "::") == s + "::"
  {
    var t := s + "::";
    assert t[|t| - 2..] == "::";
  }

  lemma FrontFullQuad(groups: seq<string>, quad: seq<string>)
    requires AreGroups(groups) && groups != [] && IsDottedQuad(quad)
    ensures QuadTail(Join(groups + [Join(quad, '.')], ':')) == Some((Join(groups, ':'), QuadHextets(quad)))
  {
    JoinedGroups(groups);
    JoinConcat(groups, [Join(quad, '.')], ':');
    QuadAfterGroup(Join(groups, ':'), quad);
  }

  lemma QuadAfterDouble(h: string, quad: seq<string>)
    requires IsDottedQuad(quad)
    ensures QuadTail(h + "::" + Join(quad, '.')) == Some((h + "::", QuadHextets(quad)))
  {
    QuadFound(h + "::", quad);
    KeepsDoubleColon(h);
  }

  lemma QuadAfterGroup(front: string, quad: seq<string>)
    requires front != "" && front[|front| - 1] != ':' && IsDottedQuad(quad)
    ensures QuadTail(front + ":" + Join(quad, '.')) == Some((front, QuadHextets(quad)))
  {
    QuadFound(front + ":", quad);
    DropsOneColon(front);
  }

  lemma TailGroups(h: string, tail: seq<string>, q: string)
    requires AreGroups(tail) && tail != []
    ensures (var front := h + "::" + Join(tail, ':');
      front[|front| - 1] != ':' && h + "::" + Join(tail + [q], ':') == front + ":" + q)
  {
    JoinedGroups(tail);
    JoinConcat(tail, [q], ':');
    var t := Join(tail, ':');
    var front := h + "::" + t;
    assert front[|front| - 1] == t[|t| - 1];
    assert h + "::" + (t + [':'] + q) == front + ":" + q;
  }

  lemma FrontCompressedQuad(h: string, tail: seq<string>, quad: seq<string>)
    requires AreGroups(tail) && IsDottedQuad(quad)
    ensures QuadTail(h + "::" + Join(tail + [Join(quad, '.')], ':')) ==
      Some((h + "::" + Join(tail, ':'), QuadHextets(quad)))
  {
    if tail == [] {
      assert tail + [Join(quad, '.')] == [Join(quad, '.')];
      QuadAfterDouble(h, quad);
      assert h + "::" + "" == h + "::";
    } else {
      TailGroups(h, tail, Join(quad, '.'));
      QuadAfterGroup(h + "::" + Join(tail, ':'), quad);
    }
  }

  lemma FrontFull(groups: seq<string>, quad: Option<seq<string>>)
    requires AreGroups(groups) && groups != [] && GoodQuad(quad)
    ensures QuadTail(Join(groups + QuadPart(quad), ':')) == Some((Join(groups, ':'), QuadValue(quad)))
  {
    if quad.Some? { FrontFullQuad(groups, quad.value); }
    else {
      assert groups + [] == groups;
      JoinedGroups(groups);
      NoQuad(Join(groups, ':'));
    }
  }

  lemma FrontCompressed(head: seq<string>, tail: seq<string>, quad: Option<seq<string>>)
    requires AreGroups(head) && AreGroups(tail) && GoodQuad(quad)
    ensures QuadTail(Join(head, ':') + "::" + Join(tail + QuadPart(quad), ':'))
         == Some((Join(head, ':') + "::" + Join(tail, ':'), QuadValue(quad)))
  {
    if quad.Some? { FrontCompressedQuad(Join(head, ':'), tail, quad.value); }
    else {
      assert tail + [] == tail;
      JoinedGroups(head);
      JoinedGroups(tail);
      NoQuad(Join(head, ':') + "::" + Join(tail, ':'));
    }
  }

  lemma FrontOf(sp: Spelling)
    requires WellFormed(sp) && LowerCase(sp)
    ensures QuadTail(Text(sp)) == Some((Front(sp), QuadValue(sp.quad)))
  {
    match sp
    case Full(groups, quad) => FrontFull(groups, quad);
    case Compressed(head, tail, quad) => FrontCompressed(head, tail, quad);
  }

  lemma AssembledFull(groups: seq<string>, quad4: seq<nat>)
    requires AreGroups(groups) && |groups| + |quad4| == 8
    ensures Assemble(SplitDouble(Join(groups, ':')), quad4) == Some(HexAll(groups) + quad4)
  {
    JoinedGroups(groups);
    OneHalf(Join(groups, ':'));
    GroupsOfJoined(groups);
  }

  lemma AssembledPair(halves: seq<string>, head: seq<nat>, tail: seq<nat>, quad4: seq<nat>)
    requires |halves| == 2 && Groups(halves[0]) == Some(head) && Groups(halves[1]) == Some(tail)
    requires |head| + |tail| + |quad4| <= 8
    ensures Assemble(halves, quad4) == Some(head + Zeros(8 - |head| - |tail| - |quad4|) + tail + quad4)
  {}

  lemma HalvesOf(head: seq<string>, tail: seq<string>)
    requires AreGroups(head) && AreGroups(tail)
    ensures SplitDouble(Join(head, ':') + "::" + Join(tail, ':')) == [Join(head, ':'), Join(tail, ':')]
  {
    JoinedGroups(head);
    JoinedGroups(tail);
    TwoHalves(Join(head, ':'), Join(tail, ':'));
  }

  lemma AssembledCompressed(head: seq<string>, tail: seq<string>, quad4: seq<nat>)
    requires AreGroups(head) && AreGroups(tail) && |head| + |tail| + |quad4| <= 8
    ensures Assemble(SplitDouble(Join(head, ':') + "::" + Join(tail, ':')), quad4)
         == Some(HexAll(head) + Zeros(8 - |head| - |tail| - |quad4|) + HexAll(tail) + quad4)
  {
    var halves := [Join(head, ':'), Join(tail, ':')];
    GroupsOfJoined(head);
    GroupsOfJoined(tail);
    AssembledPair(halves, HexAll(head), HexAll(tail), quad4);
    HalvesOf(head, tail);
  }

  lemma AssembledValue(sp: Spelling)
    requires WellFormed(sp) && LowerCase(sp)
    ensures Assemble(SplitDouble(Front(sp)), QuadValue(sp.quad)) == Some(Value(sp))
  {
    match sp
    case Full(groups, quad) =>
      AlreadyLower(groups);
      AssembledFull(groups, QuadValue(quad));
    case Compressed(head, tail, quad) =>
      AlreadyLower(head);
      AlreadyLower(tail);
      AssembledCompressed(head, tail, QuadValue(quad));
  }

  lemma AlreadyLower(gs: seq<string>)
    requires AreGroups(gs)
    ensures LowerAll(gs) == gs
  {
    forall k | 0 <= k < |gs| ensures ToLower(gs[k]) == gs[k] {
      forall i | 0 <= i < |gs[k]| ensures LowerChar(gs[k][i]) == gs[k][i] { assert IsHexDigit(gs[k][i]); }
    }
  }

  // ---- any letter case ------------------------------------------------------------------------

  function Lowered(sp: Spelling): Spelling {
    match sp
    case Full(groups, quad) => Full(LowerAll(groups), quad)
    case Compressed(head, tail, quad) => Compressed(LowerAll(head), LowerAll(tail), quad)
  }

  lemma {:induction false} LowerJoin(parts: seq<string>, sep: char)
    requires !IsLetter(sep)
    ensures ToLower(Join(parts, sep)) == Join(LowerAll(parts), sep)
  {
    if |parts| > 1 {
      LowerJoin(parts[1..], sep);
      assert LowerAll(parts)[1..] == LowerAll(parts[1..]);
      var a, b := parts[0] + [sep], Join(parts[1..], sep);
      assert ToLower(a + b) == ToLower(a) + ToLower(b);
      assert ToLower(a) == ToLower(parts[0]) + [sep];
    }
  }

  predicate IsQuadChar(c: char) { IsDigit(c) || c == '.' }

  lemma {:induction false} JoinedDigits(labels: seq<string>)
    requires forall k :: 0 <= k < |labels| ==> AllDigits(labels[k])
    ensures forall i :: 0 <= i < |Join(labels, '.')| ==> IsQuadChar(Join(labels, '.')[i])
  {
    if |labels| == 1 { assert AllDigits(labels[0]); }
    else if |labels| > 1 {
      JoinedDigits(labels[1..]);
      assert AllDigits(labels[0]);
    }
  }

  lemma QuadPartIsLower(quad: Option<seq<string>>)
    requires GoodQuad(quad)
    ensures LowerAll(QuadPart(quad)) == QuadPart(quad)
  {
    if quad.Some? {
      JoinedDigits(quad.value);
      assert ToLower(Join(quad.value, '.')) == Join(quad.value, '.');
    }
  }

  lemma LowerPieces(gs: seq<string>, quad: Option<seq<string>>)
    requires GoodQuad(quad)
    ensures ToLower(Join(gs + QuadPart(quad), ':')) == Join(LowerAll(gs) + QuadPart(quad), ':')
  {
    LowerJoin(gs + QuadPart(quad), ':');
    QuadPartIsLower(quad);
    assert LowerAll(gs + QuadPart(quad)) == LowerAll(gs) + LowerAll(QuadPart(quad));
  }

  lemma LoweredText(sp: Spelling)
    requires WellFormed(sp)
    ensures ToLower(Text(sp)) == Text(Lowered(sp))
  {
    match sp
    case Full(groups, quad) =>
      LowerPieces(groups, quad);
    case Compressed(head, tail, quad) =>
      LowerPieces(tail, quad);
      LowerJoin(head, ':');
      var a, b := Join(head, ':'), Join(tail + QuadPart(quad), ':');
      assert ToLower(a + "::" + b) == ToLower(a) + "::" + ToLower(b);
  }

  lemma LoweredValue(sp: Spelling)
    requires WellFormed(sp)
    ensures WellFormed(Lowered(sp)) && LowerCase(Lowered(sp)) && Value(Lowered(sp)) == Value(sp)
  {
    match sp
    case Full(groups, _) =>
      AlreadyLower(LowerAll(groups));
    case Compressed(head, tail, _) =>
      AlreadyLower(LowerAll(head));
      AlreadyLower(LowerAll(tail));
  }

  // ---- the alphabet of an address -------------------------------------------------------------

  predicate IsAddressChar(c: char) { IsHexDigit(c) || c == ':' || c == '.' }

  predicate IsAddressText(s: string) { forall i :: 0 <= i < |s| ==> IsAddressChar(s[i]) }

  lemma {:induction false} JoinedAlphabet(parts: seq<string>)
    requires forall k :: 0 <= k < |parts| ==> IsAddressText(parts[k])
    ensures IsAddressText(Join(parts, ':'))
    ensures |parts| >= 2 ==> ':' in Join(parts, ':')
  {
    if |parts| > 1 {
      JoinedAlphabet(parts[1..]);
      JoinHas(parts, ':');
    }
  }

  lemma AddressPieces(gs: seq<string>, quad: Option<seq<string>>)
    requires AreGroups(gs) && GoodQuad(quad)
    ensures IsAddressText(Join(gs + QuadPart(quad), ':'))
    ensures |gs + QuadPart(quad)| >= 2 ==> ':' in Join(gs + QuadPart(quad), ':')
  {
    forall k | 0 <= k < |gs + QuadPart(quad)| ensures IsAddressText((gs + QuadPart(quad))[k]) {
      if k < |gs| { assert IsGroup(gs[k]); }
      else { JoinedDigits(quad.value); }
    }
    JoinedAlphabet(gs + QuadPart(quad));
  }

  lemma AddressText(sp: Spelling)
    requires WellFormed(sp) && LowerCase(sp)
    ensures IsAddressText(Text(sp)) && ':' in Text(sp)
  {
    match sp
    case Full(groups, quad) =>
      AddressPieces(groups, quad);
    case Compressed(head, tail, quad) =>
      JoinedGroups(head);
      AddressPieces(tail, quad);
      assert Text(sp)[|Join(head, ':')|] == ':';
  }

  lemma CoreOfAddress(s: string)
    requires IsAddressText(s)
    ensures CoreOf(s) == s
  {
    assert forall i :: 0 <= i < |s| ==> !IsSpace(s[i]) && s[i] != '%';
    assert IndexOfAny(s, "%") == |s|;
    TrimNoop(s);
  }

  /** Every spelling of eight hextets, in any letter case, parses back to those hextets. */
  lemma ParsesEverySpelling(sp: Spelling)
    requires WellFormed(sp)
    ensures Hextets(ToLower(Text(sp))) == Some(Value(sp))
  {
    var low := Lowered(sp);
    LoweredText(sp);
    LoweredValue(sp);
    AddressText(low);
    CoreOfAddress(Text(low));
    FrontOf(low);
    AssembledValue(low);
  }

  lemma CoreOfZoned(s: string, zone: string)
    requires IsAddressText(s)
    ensures CoreOf(s + "%" + zone) == s
  {
    assert forall i :: 0 <= i < |s| ==> !IsSpace(s[i]) && s[i] != '%';
    assert s + "%" + zone == s + ("%" + zone);
    FirstOf(s, "%" + zone, "%");
    TrimNoop(s);
  }

  lemma SameCore(a: string, b: string)
    requires CoreOf(a) == CoreOf(b)
    ensures Hextets(a) == Hextets(b)
  {}

  /** A zone identifier never changes the address. */
  lemma ZoneIsIgnored(sp: Spelling, zone: string)
    requires WellFormed(sp)
    ensures Hextets(ToLower(Text(sp)) + "%" + zone) == Some(Value(sp))
  {
    ParsesEverySpelling(sp);
    LoweredText(sp);
    LoweredValue(sp);
    var t := Text(Lowered(sp));
    AddressText(Lowered(sp));
    CoreOfAddress(t);
    CoreOfZoned(t, zone);
    SameCore(t + "%" + zone, t);
  }
}
