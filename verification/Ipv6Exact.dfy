/**
 * Which texts the parser accepts beyond addresses: those with digits run into the trailing quad, and those whose
 * `::` stands for no group at all. Guarded against the two, acceptance is exactly being an address.
 */
module Ipv6Exact {
  import opened Wrappers
  import opened Strings
  import opened Loopback
  import opened Ipv6
  import opened Ipv6Spellings

  // ---- the two guards -------------------------------------------------------------------------

  /** A trailing quad, when there is one, stands right after a colon. */
  predicate QuadStandsFree(s: string) {
    var i := QuadStart(s);
    i == |s| || (i > 0 && s[i - 1] == ':')
  }

  /** The number of groups written in a part. */
  function Pieces(part: string): nat { if part == "" then 0 else |Split(part, ':')| }

  /** A `::` leaves room for at least one zero group. */
  predicate RunStandsForZeros(s: string) {
    match QuadTail(s)
    case None => true
    case Some(t) =>
      var halves := SplitDouble(t.0);
      |halves| == 2 ==> Pieces(halves[0]) + Pieces(halves[1]) + |t.1| < 8
  }

  ghost predicate IsAddress(s: string) { exists sp :: WellFormed(sp) && s == ToLower(Text(sp)) }

  // ---- an accepted, guarded text is an address ------------------------------------------------

  lemma GroupsWritten(part: string) returns (gs: seq<string>)
    requires Groups(part).Some?
    ensures AreGroups(gs) && Join(gs, ':') == part
    ensures |gs| == |Groups(part).value| == Pieces(part)
  {
    if part == "" { gs := []; }
    else {
      gs := Split(part, ':');
      SplitThenJoin(part, ':');
    }
  }

  lemma HalvesJoin(s: string)
    ensures |SplitDouble(s)| == 1 ==> s == SplitDouble(s)[0]
    ensures |SplitDouble(s)| == 2 ==> s == SplitDouble(s)[0] + "::" + SplitDouble(s)[1]
  {
    var i := FirstDouble(s);
    if i < |s| {
      var rest := SplitDouble(s[i + 2..]);
      assert s == s[..i] + "::" + s[i + 2..];
      assert |rest| == 1 ==> FirstDouble(s[i + 2..]) == |s[i + 2..]|;
    }
  }

  /** The groups of an assembled front spell it, whatever quad follows. */
  lemma FrontWritten(front: string, quad: Option<seq<string>>) returns (sp: Spelling)
    requires GoodQuad(quad) && Assemble(SplitDouble(front), QuadValue(quad)).Some?
    requires |SplitDouble(front)| == 2 ==>
      Pieces(SplitDouble(front)[0]) + Pieces(SplitDouble(front)[1]) + QuadWidth(quad) < 8
    ensures LowerCase(sp) && sp.quad == quad && Front(sp) == front
    ensures WellFormed(sp)
  {
    var halves := SplitDouble(front);
    HalvesJoin(front);
    var head := GroupsWritten(halves[0]);
    if |halves| == 1 {
      AlreadyLower(head);
      sp := Full(head, quad);
    } else {
      var tail := GroupsWritten(halves[1]);
      AlreadyLower(head);
      AlreadyLower(tail);
      sp := Compressed(head, tail, quad);
    }
  }

  lemma LowerCaseText(sp: Spelling)
    requires WellFormed(sp) && LowerCase(sp)
    ensures ToLower(Text(sp)) == Text(sp)
  {
    LoweredText(sp);
    match sp
    case Full(groups, _) => AlreadyLower(groups);
    case Compressed(head, tail, _) => AlreadyLower(head); AlreadyLower(tail);
  }

  /** How a spelling goes on from its front: nothing, or the quad after one colon or after the `::`. */
  lemma TextFromFront(sp: Spelling)
    requires WellFormed(sp) && LowerCase(sp)
    ensures sp.quad.None? ==> Text(sp) == Front(sp)
    ensures sp.quad.Some? ==> Front(sp) != ""
    ensures sp.quad.Some? && Front(sp)[|Front(sp)| - 1] == ':' ==>
      EndsWith(Front(sp), "::") && Text(sp) == Front(sp) + Join(sp.quad.value, '.')
    ensures sp.quad.Some? && Front(sp)[|Front(sp)| - 1] != ':' ==>
      Text(sp) == Front(sp) + ":" + Join(sp.quad.value, '.')
  {
    match sp
    case Full(groups, quad) =>
      if quad.None? { assert groups + [] == groups; }
      else {
        JoinedGroups(groups);
        JoinConcat(groups, [Join(quad.value, '.')], ':');
      }
    case Compressed(head, tail, quad) =>
      if quad.None? { assert tail + [] == tail; }
      else { CompressedFromFront(Join(head, ':'), tail, Join(quad.value, '.')); }
  }

  lemma CompressedFromFront(h: string, tail: seq<string>, q: string)
    requires AreGroups(tail)
    ensures var front := h + "::" + Join(tail, ':');
      && (front[|front| - 1] == ':' ==> EndsWith(front, "::") && h + "::" + Join(tail + [q], ':') == front + q)
      && (front[|front| - 1] != ':' ==> h + "::" + Join(tail + [q], ':') == front + ":" + q)
  {
    var front := h + "::" + Join(tail, ':');
    if tail == [] {
      assert front == h + "::" && tail + [q] == [q];
      assert front[|front| - 2..] == "::";
    } else {
      TailGroups(h, tail, q);
    }
  }

  /** What is left in front of a quad shows what joined them: a single colon was cut, a `::` was not. */
  lemma JointCases(before: string)
    requires before != "" && before[|before| - 1] == ':'
    ensures (var front := DropJoint(before);
      front != "" ==> before == if front[|front| - 1] == ':' then front else front + ":")
  {
    var last := before[..|before| - 1];
    assert before == last + ":";
    if last != "" && last[|last| - 1] == ':' {
      assert before == last[..|last| - 1] + "::";
      KeepsDoubleColon(last[..|last| - 1]);
    } else if last != "" {
      DropsOneColon(last);
    } else {
      assert before[|before| - 1..] == ":";
    }
  }

  lemma QuadWritten(core: string) returns (quad: seq<string>)
    requires QuadStart(core) < |core| && QuadTail(core).Some?
    ensures IsDottedQuad(quad) && core == core[..QuadStart(core)] + Join(quad, '.')
    ensures QuadTail(core).value == (DropJoint(core[..QuadStart(core)]), QuadHextets(quad))
  {
    var i := QuadStart(core);
    quad := Split(core[i..], '.');
    SplitThenJoin(core[i..], '.');
    assert core == core[..i] + core[i..];
    assert !HasWideOctet(quad);
  }

  lemma AcceptedIsAddress(core: string)
    requires QuadTail(core).Some? && Assemble(SplitDouble(QuadTail(core).value.0), QuadTail(core).value.1).Some?
    requires QuadStandsFree(core) && RunStandsForZeros(core)
    ensures IsAddress(core)
  {
    var t, i := QuadTail(core).value, QuadStart(core);
    if i == |core| {
      var sp := FrontWritten(core, None);
      TextFromFront(sp);
      LowerCaseText(sp);
    } else {
      var quad := QuadWritten(core);
      var sp := FrontWritten(t.0, Some(quad));
      TextFromFront(sp);
      JointCases(core[..i]);
      assert Text(sp) == core;
      LowerCaseText(sp);
    }
  }

  // ---- an address is accepted and guarded -----------------------------------------------------

  lemma PiecesOfJoined(gs: seq<string>)
    requires AreGroups(gs)
    ensures Pieces(Join(gs, ':')) == |gs|
  {
    JoinedGroups(gs);
    if gs != [] {
      forall k | 0 <= k < |gs| ensures ':' !in gs[k] {}
      JoinThenSplit(gs, ':');
    }
  }

  lemma AddressRunIsGuarded(sp: Spelling)
    requires WellFormed(sp) && LowerCase(sp)
    ensures RunStandsForZeros(Text(sp))
  {
    FrontOf(sp);
    match sp
    case Full(groups, _) =>
      JoinedGroups(groups);
      OneHalf(Join(groups, ':'));
    case Compressed(head, tail, _) =>
      HalvesOf(head, tail);
      PiecesOfJoined(head);
      PiecesOfJoined(tail);
  }

  lemma AddressQuadIsGuarded(sp: Spelling)
    requires WellFormed(sp) && LowerCase(sp)
    ensures QuadStandsFree(Text(sp))
  {
    TextFromFront(sp);
    var front := Front(sp);
    if sp.quad.Some? {
      var before := if front[|front| - 1] == ':' then front else front + ":";
      QuadFound(before, sp.quad.value);
      assert Text(sp) == before + Join(sp.quad.value, '.');
      assert Text(sp)[|before| - 1] == ':';
    } else {
      match sp
      case Full(groups, _) => JoinedGroups(groups); NoQuad(front);
      case Compressed(head, tail, _) => JoinedGroups(head); JoinedGroups(tail); NoQuad(front);
    }
  }

  /**
   * A guarded text is accepted exactly when it is an address in lower case. Both guards are needed:
   * `GluedQuadIsAccepted` and `EmptyRunIsAccepted` give what is accepted without them.
   */
  lemma AcceptsExactlyAddresses(input: string)
    ensures Hextets(input).Some? && QuadStandsFree(CoreOf(input)) && RunStandsForZeros(CoreOf(input)) <==>
      IsAddress(CoreOf(input))
  {
    var core := CoreOf(input);
    if Hextets(input).Some? && QuadStandsFree(core) && RunStandsForZeros(core) { AcceptedIsAddress(core); }
    if IsAddress(core) {
      var sp :| WellFormed(sp) && core == ToLower(Text(sp));
      var low := Lowered(sp);
      LoweredText(sp);
      LoweredValue(sp);
      AddressText(low);
      CoreOfAddress(core);
      SameCore(input, core);
      ParsesEverySpelling(sp);
      AddressRunIsGuarded(low);
      AddressQuadIsGuarded(low);
    }
  }

  // ---- what is accepted without a guard -------------------------------------------------------

  /** Characters run into the first octet that are no digits, or too many, start no quad. */
  lemma GluedLabel(x: string, quad: seq<string>)
    requires x != "" && '.' !in x && IsDottedQuad(quad)
    requires IsDigit(x[|x| - 1]) ==> |quad[0]| == 3
    ensures !IsQuadText(x + Join(quad, '.'))
  {
    var octet, rest := x + quad[0], Join(quad[1..], '.');
    assert AllDigits(quad[0]) && '.' !in octet;
    assert x + Join(quad, '.') == octet + ['.'] + rest;
    SplitFirst(octet, rest, '.');
    assert Split(x + Join(quad, '.'), '.')[0] == octet;
    assert octet[|x| - 1] == x[|x| - 1];
  }

  lemma GluedQuadStart(front: string, quad: seq<string>)
    requires front != "" && IsGroupText(front) && IsHexDigit(front[|front| - 1]) && IsDottedQuad(quad)
    requires IsDigit(front[|front| - 1]) ==> |quad[0]| == 3
    ensures QuadStart(front + Join(quad, '.')) == |front|
    ensures QuadTail(front + Join(quad, '.')) == Some((front, QuadHextets(quad)))
  {
    var q := Join(quad, '.');
    forall j | 0 <= j < |front| ensures !IsQuadText((front + q)[j..]) {
      assert (front + q)[j..] == front[j..] + q;
      if ':' in front[j..] {
        var k :| 0 <= k < |front[j..]| && front[j..][k] == ':';
        assert (front[j..] + q)[k] == ':';
        ColonIsNoQuad(front[j..] + q);
      } else {
        GluedLabel(front[j..], quad);
      }
    }
    QuadFoundAfter(front, quad);
    assert front[|front| - 1..][0] != ':';
  }

  lemma HextetsOfCore(core: string, front: string, quad4: seq<nat>)
    requires IsAddressText(core) && ':' in core && QuadTail(core) == Some((front, quad4))
    ensures Hextets(core) == Assemble(SplitDouble(front), quad4)
  {
    CoreOfAddress(core);
  }

  lemma UnguardedIsNoAddress(core: string)
    requires IsAddressText(core) && !(QuadStandsFree(core) && RunStandsForZeros(core))
    ensures !IsAddress(core)
  {
    CoreOfAddress(core);
    AcceptsExactlyAddresses(core);
  }

  lemma GluedText(gs: seq<string>, quad: seq<string>)
    requires AreGroups(gs) && |gs| == 6 && IsDottedQuad(quad)
    ensures (var front := Join(gs, ':');
      && front != "" && IsGroupText(front) && IsHexDigit(front[|front| - 1])
      && IsAddressText(front + Join(quad, '.')) && ':' in front + Join(quad, '.') && Join(quad, '.') != "")
  {
    JoinedGroups(gs);
    JoinHas(gs, ':');
    JoinedDigits(quad);
    QuadText(quad);
  }

  /**
   * The quad is looked for from the end of the text only: six groups may run into one, when the last of them ends
   * in a letter or the first octet has three digits already. So `1:2:3:4:5:a1.2.3.4` is accepted.
   */
  lemma GluedQuadIsAccepted(gs: seq<string>, quad: seq<string>)
    requires AreGroups(gs) && |gs| == 6 && IsDottedQuad(quad)
    requires IsDigit(Join(gs, ':')[|Join(gs, ':')| - 1]) ==> |quad[0]| == 3
    ensures Hextets(Join(gs, ':') + Join(quad, '.')) == Some(HexAll(gs) + QuadHextets(quad))
    ensures !IsAddress(Join(gs, ':') + Join(quad, '.'))
  {
    var front := Join(gs, ':');
    var s := front + Join(quad, '.');
    GluedText(gs, quad);
    GluedQuadStart(front, quad);
    HextetsOfCore(s, front, QuadHextets(quad));
    AssembledFull(gs, QuadHextets(quad));
    assert s[|front| - 1] == front[|front| - 1];
    UnguardedIsNoAddress(s);
  }

  lemma EmptyRunText(head: seq<string>, tail: seq<string>)
    requires AreGroups(head) && AreGroups(tail)
    ensures (var s := Join(head, ':') + "::" + Join(tail, ':');
      IsAddressText(s) && ':' in s && QuadTail(s) == Some((s, [])))
  {
    var s := Join(head, ':') + "::" + Join(tail, ':');
    JoinedGroups(head);
    JoinedGroups(tail);
    assert s[|Join(head, ':')|] == ':';
    NoQuad(s);
  }

  lemma EmptyRunIsNoAddress(head: seq<string>, tail: seq<string>)
    requires AreGroups(head) && AreGroups(tail) && |head| + |tail| == 8
    ensures !IsAddress(Join(head, ':') + "::" + Join(tail, ':'))
  {
    EmptyRunText(head, tail);
    HalvesOf(head, tail);
    PiecesOfJoined(head);
    PiecesOfJoined(tail);
    UnguardedIsNoAddress(Join(head, ':') + "::" + Join(tail, ':'));
  }

  lemma NoFill(head: seq<nat>, tail: seq<nat>)
    ensures head + Zeros(0) + tail + [] == head + tail
  {
    assert Zeros(0) == [];
  }

  /** A `::` between eight groups stands for nothing and is accepted: `1:2:3:4::5:6:7:8`. */
  lemma EmptyRunIsAccepted(head: seq<string>, tail: seq<string>)
    requires AreGroups(head) && AreGroups(tail) && |head| + |tail| == 8
    ensures Hextets(Join(head, ':') + "::" + Join(tail, ':')) == Some(HexAll(head) + HexAll(tail))
    ensures !IsAddress(Join(head, ':') + "::" + Join(tail, ':'))
  {
    var s := Join(head, ':') + "::" + Join(tail, ':');
    EmptyRunText(head, tail);
    HextetsOfCore(s, s, []);
    AssembledCompressed(head, tail, []);
    NoFill(HexAll(head), HexAll(tail));
    EmptyRunIsNoAddress(head, tail);
  }
}
