/**
 * The hour-minute pattern shared by both hour normalisers:
 *
 *     re.search(r"\b([01]?\d|2[0-3]):([0-5]\d)\b", s)
 *
 * followed by `f"{int(group(1)):02d}:{group(2)}"`.  At a given start
 * position at most one way through the alternation can succeed (the
 * character after the first digit is a digit in `[01]\d` and `2[0-3]`,
 * a colon in the bare `\d`, and `[01]` and `2` differ), so the search is
 * a deterministic left-to-right scan.  Word characters are ASCII letters,
 * digits and `_`; a match starts with a digit, so the leading `\b` holds
 * exactly when the match is at the start or follows a non-word character,
 * and it ends with a digit, so the trailing `\b` holds exactly at the end
 * of the text or before a non-word character.
 */
module HourPattern {
  import opened Wrappers
  import opened Chars

  // ---------------------------------------------------------------------
  // Canonical HH:MM strings and times of day
  // ---------------------------------------------------------------------

  /** A canonical `HH:MM`: two-digit hour 00..23 and two-digit minute 00..59. */
  predicate IsCanonical(r: string) {
    |r| == 5 && IsDigit(r[0]) && IsDigit(r[1]) && r[2] == ':' && IsDigit(r[3]) && IsDigit(r[4])
    && DigitVal(r[0]) * 10 + DigitVal(r[1]) <= 23 && DigitVal(r[3]) <= 5
  }

  datatype Clock = Clock(hour: int, minute: int)

  /** The hour and minute of a parsed timestamp. */
  type TimeOfDay = c: Clock | 0 <= c.hour < 24 && 0 <= c.minute < 60 witness Clock(0, 0)

  /** `strftime("%H:%M")`. */
  function FormatClock(c: TimeOfDay): (r: string)
    ensures IsCanonical(r)
  {
    Pad2(c.hour) + ":" + Pad2(c.minute)
  }

  /** Reads back the hour and minute of a canonical string. */
  function ClockOf(r: string): (c: TimeOfDay)
    requires IsCanonical(r)
    ensures c.hour == DigitVal(r[0]) * 10 + DigitVal(r[1])
    ensures c.minute == DigitVal(r[3]) * 10 + DigitVal(r[4])
  {
    Clock(DigitVal(r[0]) * 10 + DigitVal(r[1]), DigitVal(r[3]) * 10 + DigitVal(r[4]))
  }

  lemma FormatClockOf(r: string)
    requires IsCanonical(r)
    ensures FormatClock(ClockOf(r)) == r
  {
    Pad2OfDigits(r[0..2]);
    Pad2OfDigits(r[3..5]);
    assert r == r[0..2] + ":" + r[3..5];
  }

  lemma ClockOfFormat(c: TimeOfDay)
    ensures ClockOf(FormatClock(c)) == c
  {
  }

  // ---------------------------------------------------------------------
  // One match attempt
  // ---------------------------------------------------------------------

  /** The trailing `\b` after a match ending before index k of t. */
  predicate EndsAt(t: string, k: nat) {
    k == |t| || (k < |t| && !IsWordChar(t[k]))
  }

  /** `([0-5]\d)` at index k of t. */
  predicate MinuteAt(t: string, k: nat) {
    k + 1 < |t| && '0' <= t[k] <= '5' && IsDigit(t[k + 1])
  }

  /** The path `[01]\d` through the first group (the optional `[01]` taken). */
  predicate LowTwoDigits(t: string) {
    |t| >= 5 && (t[0] == '0' || t[0] == '1') && IsDigit(t[1]) && t[2] == ':' && MinuteAt(t, 3) && EndsAt(t, 5)
  }

  /** The path `\d` through the first group (the optional `[01]` skipped). */
  predicate OneDigit(t: string) {
    |t| >= 4 && IsDigit(t[0]) && t[1] == ':' && MinuteAt(t, 2) && EndsAt(t, 4)
  }

  /** The alternative `2[0-3]`. */
  predicate HighTwoDigits(t: string) {
    |t| >= 5 && t[0] == '2' && '0' <= t[1] <= '3' && t[2] == ':' && MinuteAt(t, 3) && EndsAt(t, 5)
  }

  /** `f"{hh:02d}:{mm}"`. */
  function Format(hh: nat, mm: string): string
    requires hh < 100
  {
    Pad2(hh) + ":" + mm
  }

  /** The regex applied at the start of t (the leading `\b` is checked by MatchAt). */
  function MatchBody(t: string): (r: Option<string>)
    ensures r.Some? ==> IsCanonical(r.value)
    ensures r.Some? <==> LowTwoDigits(t) || OneDigit(t) || HighTwoDigits(t)
    ensures r.Some? ==> t != [] && IsDigit(t[0])
  {
    if LowTwoDigits(t) then Some(Format(DigitVal(t[0]) * 10 + DigitVal(t[1]), t[3..5]))
    else if OneDigit(t) then Some(Format(DigitVal(t[0]), t[2..4]))
    else if HighTwoDigits(t) then Some(Format(DigitVal(t[0]) * 10 + DigitVal(t[1]), t[3..5]))
    else None
  }

  /** At most one path through the alternation succeeds at a position. */
  lemma AlternativesExclusive(t: string)
    ensures !(LowTwoDigits(t) && OneDigit(t))
    ensures !(LowTwoDigits(t) && HighTwoDigits(t))
    ensures !(OneDigit(t) && HighTwoDigits(t))
  {
  }

  /** The regex tried at index p of s, leading `\b` included. */
  function MatchAt(s: string, p: nat): Option<string>
    requires p <= |s|
  {
    if p == 0 || !IsWordChar(s[p - 1]) then MatchBody(s[p..]) else None
  }

  // ---------------------------------------------------------------------
  // The search
  // ---------------------------------------------------------------------

  function SearchFrom(s: string, p: nat): Option<string>
    requires p <= |s|
    decreases |s| - p
  {
    if p == |s| then None
    else match MatchAt(s, p)
      case Some(r) => Some(r)
      case None => SearchFrom(s, p + 1)
  }

  /** `re.search` followed by the zero-padding of the hour. */
  function Search(s: string): (r: Option<string>)
    ensures r.Some? ==> IsCanonical(r.value)
  {
    SearchCanonical(s, 0);
    SearchFrom(s, 0)
  }

  lemma {:induction false} SearchCanonical(s: string, p: nat)
    requires p <= |s|
    ensures SearchFrom(s, p).Some? ==> IsCanonical(SearchFrom(s, p).value)
    decreases |s| - p
  {
    if p < |s| && MatchAt(s, p).None? {
      SearchCanonical(s, p + 1);
    }
  }

  /** The search finds nothing exactly when the pattern matches nowhere from p on. */
  lemma {:induction false} SearchFromNone(s: string, p: nat)
    requires p <= |s|
    ensures SearchFrom(s, p).None? <==> forall q :: p <= q <= |s| ==> MatchAt(s, q).None?
    decreases |s| - p
  {
    if p < |s| && MatchAt(s, p).None? {
      SearchFromNone(s, p + 1);
    }
  }

  /** The search returns the match at the leftmost position where the pattern matches. */
  lemma {:induction false} SearchFromLeftmost(s: string, p: nat)
    requires p <= |s| && SearchFrom(s, p).Some?
    ensures exists q :: p <= q < |s| && MatchAt(s, q) == SearchFrom(s, p)
               && forall q' :: p <= q' < q ==> MatchAt(s, q').None?
    decreases |s| - p
  {
    assert p < |s|;
    var m := MatchAt(s, p);
    if m.Some? {
      assert m == SearchFrom(s, p);
    } else {
      assert SearchFrom(s, p) == SearchFrom(s, p + 1);
      SearchFromLeftmost(s, p + 1);
      var q :| p + 1 <= q < |s| && MatchAt(s, q) == SearchFrom(s, p + 1)
               && forall q' :: p + 1 <= q' < q ==> MatchAt(s, q').None?;
      forall q' | p <= q' < q
        ensures MatchAt(s, q').None?
      {
        if q' == p { assert MatchAt(s, q') == m; }
      }
    }
  }

  lemma SearchLeftmost(s: string, r: string)
    ensures Search(s) == Some(r) <==>
      exists q :: 0 <= q < |s| && MatchAt(s, q) == Some(r) && forall q' :: 0 <= q' < q ==> MatchAt(s, q').None?
  {
    if exists q :: 0 <= q < |s| && MatchAt(s, q) == Some(r) && forall q' :: 0 <= q' < q ==> MatchAt(s, q').None? {
      var q :| 0 <= q < |s| && MatchAt(s, q) == Some(r) && forall q' :: 0 <= q' < q ==> MatchAt(s, q').None?;
      if Search(s).Some? {
        SearchFromLeftmost(s, 0);
        var q2 :| 0 <= q2 < |s| && MatchAt(s, q2) == SearchFrom(s, 0) && forall q' :: 0 <= q' < q2 ==> MatchAt(s, q').None?;
        assert q2 == q;
      } else {
        SearchFromNone(s, 0);
      }
    } else if Search(s).Some? {
      SearchFromLeftmost(s, 0);
    }
  }

  /** A canonical HH:MM is matched in full at its start. */
  lemma SearchOfCanonical(r: string)
    requires IsCanonical(r)
    ensures Search(r) == Some(r)
  {
    assert r[0..] == r;
    Pad2OfDigits(r[0..2]);
    assert r == r[0..2] + ":" + r[3..5];
    if r[0] == '0' || r[0] == '1' {
      assert LowTwoDigits(r);
    } else {
      assert HighTwoDigits(r);
    }
  }

  // ---------------------------------------------------------------------
  // Whitespace does not affect the search
  // ---------------------------------------------------------------------

  /** A character that can be neither part of a match nor a word character next to one. */
  predicate Separator(c: char) {
    !IsWordChar(c) && c != ':'
  }

  /** Whitespace separates. */
  lemma SpaceSeparates(c: char)
    requires IsSpace(c)
    ensures Separator(c)
  {
  }

  /** Text after a separator cannot change a match that ends before it. */
  lemma BodyCut(t: string, w: char, rest: string)
    requires Separator(w)
    ensures MatchBody(t + [w] + rest) == MatchBody(t)
  {
    var T := t + [w] + rest;
    LowTwoDigitsCut(t, w, rest);
    OneDigitCut(t, w, rest);
    HighTwoDigitsCut(t, w, rest);
    if LowTwoDigits(t) || HighTwoDigits(t) {
      assert T[0] == t[0] && T[1] == t[1];
      assert T[3..5] == t[3..5];
    } else if OneDigit(t) {
      assert T[0] == t[0];
      assert T[2..4] == t[2..4];
    }
  }

  lemma LowTwoDigitsCut(t: string, w: char, rest: string)
    requires Separator(w)
    ensures LowTwoDigits(t + [w] + rest) == LowTwoDigits(t)
  {
    var T := t + [w] + rest;
    assert forall i :: 0 <= i < |t| ==> T[i] == t[i];
    assert T[|t|] == w;
  }

  lemma OneDigitCut(t: string, w: char, rest: string)
    requires Separator(w)
    ensures OneDigit(t + [w] + rest) == OneDigit(t)
  {
    var T := t + [w] + rest;
    assert forall i :: 0 <= i < |t| ==> T[i] == t[i];
    assert T[|t|] == w;
  }

  lemma HighTwoDigitsCut(t: string, w: char, rest: string)
    requires Separator(w)
    ensures HighTwoDigits(t + [w] + rest) == HighTwoDigits(t)
  {
    var T := t + [w] + rest;
    assert forall i :: 0 <= i < |t| ==> T[i] == t[i];
    assert T[|t|] == w;
  }

  function Or(a: Option<string>, b: Option<string>): Option<string> {
    if a.Some? then a else b
  }

  /** Splitting lemma: a separator splits the text into two independent searches. */
  lemma SearchSplit(u: string, w: char, v: string)
    requires Separator(w)
    ensures Search(u + [w] + v) == Or(Search(u), Search(v))
  {
    var s := u + [w] + v;
    SearchSplitAfter(u, w, v, |u| + 1);
    assert MatchAt(s, |u|).None? by {
      assert s[|u|..][0] == w;
    }
    SearchSplitBefore(u, w, v, 0);
  }

  lemma {:induction false} SearchSplitAfter(u: string, w: char, v: string, p: nat)
    requires Separator(w)
    requires |u| + 1 <= p <= |u| + 1 + |v|
    ensures SearchFrom(u + [w] + v, p) == SearchFrom(v, p - |u| - 1)
    decreases |u| + 1 + |v| - p
  {
    var s := u + [w] + v;
    var p' := p - |u| - 1;
    if p < |s| {
      assert s[p..] == v[p'..];
      if p - 1 == |u| {
        assert s[p - 1] == w;
      } else {
        assert s[p - 1] == v[p' - 1];
      }
      assert MatchAt(s, p) == MatchAt(v, p');
      SearchSplitAfter(u, w, v, p + 1);
    }
  }

  lemma {:induction false} SearchSplitBefore(u: string, w: char, v: string, p: nat)
    requires Separator(w)
    requires p <= |u|
    requires MatchAt(u + [w] + v, |u|).None?
    requires SearchFrom(u + [w] + v, |u| + 1) == Search(v)
    ensures SearchFrom(u + [w] + v, p) == Or(SearchFrom(u, p), Search(v))
    decreases |u| - p
  {
    var s := u + [w] + v;
    if p == |u| {
    } else {
      assert s[p..] == u[p..] + [w] + v;
      BodyCut(u[p..], w, v);
      if p > 0 {
        assert s[p - 1] == u[p - 1];
      }
      assert MatchAt(s, p) == MatchAt(u, p);
      SearchSplitBefore(u, w, v, p + 1);
    }
  }

  lemma SearchLeadingSpace(w: char, v: string)
    requires IsSpace(w)
    ensures Search([w] + v) == Search(v)
  {
    SpaceSeparates(w);
    SearchSplit([], w, v);
    assert [] + [w] + v == [w] + v;
  }

  lemma SearchTrailingSpace(u: string, w: char)
    requires IsSpace(w)
    ensures Search(u + [w]) == Search(u)
  {
    SpaceSeparates(w);
    SearchSplit(u, w, []);
    assert u + [w] + [] == u + [w];
  }

  lemma {:induction false} SearchDropLeading(s: string)
    ensures Search(DropLeadingSpaces(s)) == Search(s)
    decreases |s|
  {
    if s != [] && IsSpace(s[0]) {
      SearchLeadingSpace(s[0], s[1..]);
      assert [s[0]] + s[1..] == s;
      SearchDropLeading(s[1..]);
    }
  }

  lemma {:induction false} SearchDropTrailing(s: string)
    ensures Search(DropTrailingSpaces(s)) == Search(s)
    decreases |s|
  {
    if s != [] && IsSpace(s[|s| - 1]) {
      SearchTrailingSpace(s[..|s| - 1], s[|s| - 1]);
      assert s[..|s| - 1] + [s[|s| - 1]] == s;
      assert DropTrailingSpaces(s) == DropTrailingSpaces(s[..|s| - 1]);
      SearchDropTrailing(s[..|s| - 1]);
    } else {
      assert TrailingSpaces(s) == 0;
      assert DropTrailingSpaces(s) == s[..|s|] == s;
    }
  }

  /** `strip()` leaves the search result unchanged. */
  lemma SearchStrip(s: string)
    ensures Search(Strip(s)) == Search(s)
  {
    SearchDropLeading(s);
    SearchDropTrailing(DropLeadingSpaces(s));
  }

  /** `re.sub(r"\s+", " ", s)` leaves the search result unchanged. */
  lemma {:induction false} SearchCollapse(s: string)
    ensures Search(CollapseSpaces(s)) == Search(s)
    decreases |s|, 1
  {
    SearchCollapseAfter([], s);
    assert [] + CollapseSpaces(s) == CollapseSpaces(s);
    assert [] + s == s;
  }

  lemma {:induction false} SearchCollapseAfter(u: string, s: string)
    ensures Search(u + CollapseSpaces(s)) == Search(u + s)
    decreases |s|, 0
  {
    if s == [] {
      assert u + CollapseSpaces(s) == u;
      assert u + s == u;
    } else if IsSpace(s[0]) {
      var d := DropLeadingSpaces(s[1..]);
      SearchCollapse(d);
      SearchDropLeading(s[1..]);
      SearchCollapseAtSpace(u, s);
    } else {
      CollapseAtWord(u, s);
      SearchCollapseAfter(u + [s[0]], s[1..]);
    }
  }

  /** The step of SearchCollapseAfter at a run of whitespace. */
  lemma SearchCollapseAtSpace(u: string, s: string)
    requires s != [] && IsSpace(s[0])
    requires Search(CollapseSpaces(DropLeadingSpaces(s[1..]))) == Search(s[1..])
    ensures Search(u + CollapseSpaces(s)) == Search(u + s)
  {
    SearchCollapsedRun(u, s);
    SearchSpaceRun(u, s);
  }

  lemma SearchCollapsedRun(u: string, s: string)
    requires s != [] && IsSpace(s[0])
    ensures Search(u + CollapseSpaces(s)) == Or(Search(u), Search(CollapseSpaces(DropLeadingSpaces(s[1..]))))
  {
    CollapseAtSpace(u, s);
    SearchSplit(u, ' ', CollapseSpaces(DropLeadingSpaces(s[1..])));
  }

  lemma SearchSpaceRun(u: string, s: string)
    requires s != [] && IsSpace(s[0])
    ensures Search(u + s) == Or(Search(u), Search(s[1..]))
  {
    ConcatFirst(u, s);
    SpaceSeparates(s[0]);
    SearchSplit(u, s[0], s[1..]);
  }

  /** Two strings that agree except where both hold a separator. */
  predicate SameUpToSeparators(s: string, s': string) {
    |s| == |s'| && forall i :: 0 <= i < |s| ==> s[i] == s'[i] || (Separator(s[i]) && Separator(s'[i]))
  }

  lemma BodySameUpToSeparators(t: string, t': string)
    requires SameUpToSeparators(t, t')
    ensures MatchBody(t) == MatchBody(t')
  {
    if |t| >= 1 { assert t[0] == t'[0] || Separator(t[0]); }
    if |t| >= 2 { assert t[1] == t'[1] || Separator(t[1]); }
    if |t| >= 3 { assert t[2] == t'[2] || Separator(t[2]); }
    if |t| >= 4 { assert t[3] == t'[3] || Separator(t[3]); }
    if |t| >= 5 { assert t[4] == t'[4] || Separator(t[4]); }
    if |t| >= 6 { assert t[5] == t'[5] || Separator(t[5]); }
    if LowTwoDigits(t) || HighTwoDigits(t) {
      assert t[3..5] == t'[3..5];
    }
    if LowTwoDigits(t') || HighTwoDigits(t') {
      assert t[3..5] == t'[3..5];
    }
    if OneDigit(t) || OneDigit(t') {
      assert t[2..4] == t'[2..4];
    }
  }

  lemma {:induction false} SearchFromSameUpToSeparators(s: string, s': string, p: nat)
    requires SameUpToSeparators(s, s') && p <= |s|
    ensures SearchFrom(s, p) == SearchFrom(s', p)
    decreases |s| - p
  {
    if p < |s| {
      assert SameUpToSeparators(s[p..], s'[p..]);
      BodySameUpToSeparators(s[p..], s'[p..]);
      if p > 0 {
        assert s[p - 1] == s'[p - 1] || Separator(s[p - 1]);
      }
      SearchFromSameUpToSeparators(s, s', p + 1);
    }
  }

  /** `s.replace(a, b)` with whitespace `a` and `b` leaves the search result unchanged. */
  lemma SearchReplaceSpace(s: string, a: char, b: char)
    requires IsSpace(a) && IsSpace(b)
    ensures Search(ReplaceChar(s, a, b)) == Search(s)
  {
    SpaceSeparates(a);
    SpaceSeparates(b);
    SearchFromSameUpToSeparators(ReplaceChar(s, a, b), s, 0);
  }
}
