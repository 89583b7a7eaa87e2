/** The optional value used for JavaScript's `undefined`/`null` results. */
module Wrappers {
  datatype Option<+T> = None | Some(value: T)
}

/**
 * The JavaScript string operations the policy package relies on, over `seq<char>`.
 * Lower-casing is ASCII; trimming uses the full ECMAScript white-space set.
 */
module Strings {
  import opened Wrappers

  // ---- characters -------------------------------------------------------------------------

  predicate IsSpace(c: char) {
    || '\U{0009}' <= c <= '\U{000D}' || c == ' ' || c == '\U{00A0}' || c == '\U{1680}'
    || '\U{2000}' <= c <= '\U{200A}' || c == '\U{2028}' || c == '\U{2029}' || c == '\U{202F}'
    || c == '\U{205F}' || c == '\U{3000}' || c == '\U{FEFF}'
  }

  predicate IsDigit(c: char) { '0' <= c <= '9' }

  predicate IsHexDigit(c: char) { IsDigit(c) || 'a' <= c <= 'f' }

  predicate IsLetter(c: char) { 'a' <= c <= 'z' || 'A' <= c <= 'Z' }

  function LowerChar(c: char): char {
    if 'A' <= c <= 'Z' then (c as int + 32) as char else c
  }

  function ToLower(s: string): (r: string)
    ensures |r| == |s|
    ensures forall i :: 0 <= i < |s| ==> r[i] == LowerChar(s[i])
  {
    seq(|s|, i requires 0 <= i < |s| => LowerChar(s[i]))
  }

  // ---- trimming ---------------------------------------------------------------------------

  function TrimStart(s: string): string {
    if s != "" && IsSpace(s[0]) then TrimStart(s[1..]) else s
  }

  function TrimEnd(s: string): string {
    if s != "" && IsSpace(s[|s| - 1]) then TrimEnd(s[..|s| - 1]) else s
  }

  function Trim(s: string): string { TrimEnd(TrimStart(s)) }

  // ---- searching --------------------------------------------------------------------------

  predicate EndsWith(s: string, t: string) {
    |t| <= |s| && s[|s| - |t|..] == t
  }

  /** Index of the first character of `s` that is one of `delims`, or `|s|`. */
  function IndexOfAny(s: string, delims: string): (i: nat)
    ensures i <= |s|
    ensures i < |s| ==> s[i] in delims
    ensures forall k :: 0 <= k < i ==> s[k] !in delims
  {
    if s == "" || s[0] in delims then 0 else 1 + IndexOfAny(s[1..], delims)
  }

  /** The index just past the last occurrence of `c` in `s`, or 0 when there is none. */
  function AfterLast(s: string, c: char): (i: nat)
    ensures i <= |s|
    ensures i == 0 ==> c !in s
    ensures i > 0 ==> s[i - 1] == c
    ensures forall k :: i <= k < |s| ==> s[k] != c
  {
    if s == "" then 0
    else if s[|s| - 1] == c then |s|
    else AfterLast(s[..|s| - 1], c)
  }

  predicate HasPair(s: string, a: char, b: char) {
    exists i :: 0 <= i < |s| - 1 && s[i] == a && s[i + 1] == b
  }

  function Count(s: string, c: char): nat {
    if s == "" then 0 else (if s[0] == c then 1 else 0) + Count(s[1..], c)
  }

  // ---- splitting --------------------------------------------------------------------------

  /** `s.split(sep)` for a one-character separator. */
  function Split(s: string, sep: char): (parts: seq<string>)
    ensures |parts| >= 1
    ensures forall k :: 0 <= k < |parts| ==> sep !in parts[k]
  {
    var i := IndexOfAny(s, [sep]);
    if i == |s| then [s] else [s[..i]] + Split(s[i + 1..], sep)
  }

  function Join(parts: seq<string>, sep: char): string {
    if |parts| == 0 then ""
    else if |parts| == 1 then parts[0]
    else parts[0] + [sep] + Join(parts[1..], sep)
  }

  // ---- laws -------------------------------------------------------------------------------

  lemma FirstOf(s: string, t: string, delims: string)
    requires forall k :: 0 <= k < |s| ==> s[k] !in delims
    requires t == "" || t[0] in delims
    ensures IndexOfAny(s + t, delims) == |s|
  {
    var w := s + t;
    assert forall k :: 0 <= k < |s| ==> w[k] == s[k];
    assert t != "" ==> w[|s|] == t[0];
  }

  lemma {:induction false} LastOf(s: string, t: string, c: char)
    requires c !in t
    ensures AfterLast(s + [c] + t, c) == |s| + 1
  {
    var w := s + [c] + t;
    if t != "" {
      var front := t[..|t| - 1];
      assert w[..|w| - 1] == s + [c] + front && w[|w| - 1] == t[|t| - 1];
      LastOf(s, front, c);
    }
  }

  lemma NoLast(s: string, c: char)
    requires c !in s
    ensures AfterLast(s, c) == 0
  {}

  /** Splitting on a separator loses nothing: joining the pieces again gives the string back. */
  lemma {:induction false} SplitThenJoin(s: string, sep: char)
    ensures Join(Split(s, sep), sep) == s
    decreases |s|
  {
    var i := IndexOfAny(s, [sep]);
    if i < |s| {
      SplitThenJoin(s[i + 1..], sep);
      var rest := Split(s[i + 1..], sep);
      assert ([s[..i]] + rest)[1..] == rest;
      assert s == s[..i] + [sep] + s[i + 1..];
    }
  }

  lemma SplitFirst(s: string, t: string, sep: char)
    requires sep !in s
    ensures Split(s + [sep] + t, sep) == [s] + Split(t, sep)
  {
    var w := s + [sep] + t;
    assert w == s + ([sep] + t);
    FirstOf(s, [sep] + t, [sep]);
    assert w[..|s|] == s && w[|s| + 1..] == t;
  }

  lemma SplitWhole(s: string, sep: char)
    requires sep !in s
    ensures Split(s, sep) == [s]
  {
    FirstOf(s, "", [sep]);
    assert s + "" == s;
  }

  lemma {:induction false} JoinConcat(a: seq<string>, b: seq<string>, sep: char)
    requires a != [] && b != []
    ensures Join(a + b, sep) == Join(a, sep) + [sep] + Join(b, sep)
  {
    if |a| == 1 {
      assert (a + b)[1..] == b;
    } else {
      assert (a + b)[1..] == a[1..] + b;
      JoinConcat(a[1..], b, sep);
    }
  }

  /** Splitting inverts joining on every non-empty list of separator-free pieces. */
  lemma {:induction false} JoinThenSplit(parts: seq<string>, sep: char)
    requires |parts| >= 1
    requires forall k :: 0 <= k < |parts| ==> sep !in parts[k]
    ensures Split(Join(parts, sep), sep) == parts
    decreases |parts|
  {
    if |parts| == 1 {
      SplitWhole(parts[0], sep);
    } else {
      JoinThenSplit(parts[1..], sep);
      SplitFirst(parts[0], Join(parts[1..], sep), sep);
    }
  }

  /** Splitting distributes over a separator. */
  lemma {:induction false} SplitAt(s: string, t: string, sep: char)
    ensures Split(s + [sep] + t, sep) == Split(s, sep) + Split(t, sep)
    decreases |s|
  {
    var i := IndexOfAny(s, [sep]);
    if i == |s| {
      SplitFirst(s, t, sep);
      SplitWhole(s, sep);
    } else {
      var a, rest := s[..i], s[i + 1..];
      assert s == a + [sep] + rest;
      SplitAt(rest, t, sep);
      SplitAtAfter(a, rest, t, sep);
    }
  }

  lemma SplitAtAfter(a: string, s: string, t: string, sep: char)
    requires sep !in a
    requires Split(s + [sep] + t, sep) == Split(s, sep) + Split(t, sep)
    ensures Split(a + [sep] + s + [sep] + t, sep) == Split(a + [sep] + s, sep) + Split(t, sep)
  {
    var rest := s + [sep] + t;
    assert a + [sep] + s + [sep] + t == a + [sep] + rest;
    SplitFirst(a, rest, sep);
    SplitFirst(a, s, sep);
    Regroup([a], Split(s, sep), Split(t, sep));
  }

  lemma Regroup<T>(a: seq<T>, b: seq<T>, c: seq<T>)
    ensures a + (b + c) == a + b + c
  {}

  lemma {:induction false} CountOf(s: string, c: char)
    requires c !in s
    ensures Count(s, c) == 0
  {
    if s != "" { CountOf(s[1..], c); }
  }

  lemma {:induction false} CountConcat(s: string, t: string, c: char)
    ensures Count(s + t, c) == Count(s, c) + Count(t, c)
  {
    if s == "" { assert s + t == t; }
    else { CountConcat(s[1..], t, c); assert (s + t)[1..] == s[1..] + t; }
  }

  /** Trimming leaves a string alone when neither end is white space. */
  lemma TrimNoop(s: string)
    requires s != "" ==> !IsSpace(s[0]) && !IsSpace(s[|s| - 1])
    ensures Trim(s) == s
  {}

  /** Trailing white space is cut from the part after a non-space character only. */
  lemma {:induction false} TrimEndAfter(s: string, t: string)
    requires s != "" && !IsSpace(s[|s| - 1])
    ensures TrimEnd(s + t) == s + TrimEnd(t)
    decreases |t|
  {
    if t == "" { assert s + t == s; }
    else if IsSpace(t[|t| - 1]) {
      assert (s + t)[..|s + t| - 1] == s + t[..|t| - 1];
      TrimEndAfter(s, t[..|t| - 1]);
    }
  }

  lemma {:induction false} TrimStartStarts(s: string)
    ensures TrimStart(s) != "" ==> !IsSpace(TrimStart(s)[0])
  {
    if s != "" && IsSpace(s[0]) { TrimStartStarts(s[1..]); }
  }

  lemma {:induction false} TrimEndEnds(s: string)
    ensures TrimEnd(s) <= s
    ensures TrimEnd(s) != "" ==> !IsSpace(TrimEnd(s)[|TrimEnd(s)| - 1])
  {
    if s != "" && IsSpace(s[|s| - 1]) { TrimEndEnds(s[..|s| - 1]); }
  }

  lemma TrimTwice(s: string)
    ensures Trim(Trim(s)) == Trim(s)
  {
    TrimStartStarts(s);
    TrimEndEnds(TrimStart(s));
    TrimNoop(Trim(s));
  }

  /** Leading white space is cut from the part before a non-space character only. */
  lemma {:induction false} TrimStartBefore(s: string, t: string)
    requires t != "" && !IsSpace(t[0])
    ensures TrimStart(s + t) == TrimStart(s) + t
  {
    if s == "" { assert s + t == t; }
    else if IsSpace(s[0]) { assert (s + t)[1..] == s[1..] + t; TrimStartBefore(s[1..], t); }
  }
}
