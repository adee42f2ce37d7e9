/** The calendar model of src/calendar.ts: availability cells, the alert rule,
    the diff between two snapshots of one court, the table extraction and the
    rows-of-strings layout a calendar is stored in and restored from. */
module Calendars {
  import opened Results
  import opened Text
  import opened HtmlParser

  /** The cell value of a slot that can no longer be booked (U+FF0D). */
  const Expired: string := "－"
  /** The cell value of a slot with no capacity left (U+00D7). */
  const Full: string := "×"
  /** The time label both callers of `compare` pass (with U+FF5E between the clocks). */
  const TargetAsWritten: string := "19:00～21:00"

  // ---------------------------------------------------------------------------
  // The time label rewrite /([0-9]+:[0-9]+).([0-9]+:[0-9]+)/gi -> "$1-$2"

  predicate IsLineTerminator(c: char) {
    c == '\n' || c == '\r' || c == '\U{2028}' || c == '\U{2029}'
  }

  /** What `.` matches in a regular expression without the `s` and `u` flags:
      one UTF-16 code unit that is not a line terminator. A character outside
      the Basic Multilingual Plane is two code units, and the digit that must
      follow `.` never matches the second one. */
  predicate DotMatches(c: char) {
    !IsLineTerminator(c) && (c as int) < 0x1_0000
  }

  /** The length of the run of ASCII digits starting at `i`. */
  function DigitRun(s: string, i: nat): (n: nat)
    requires i <= |s|
    ensures i + n <= |s|
    ensures forall k :: i <= k < i + n ==> IsAsciiDigit(s[k])
    ensures i + n == |s| || !IsAsciiDigit(s[i + n])
    decreases |s| - i
  {
    if i < |s| && IsAsciiDigit(s[i]) then 1 + DigitRun(s, i + 1) else 0
  }

  /** A digit run is determined by where it starts. */
  lemma DigitRunExact(s: string, i: nat, n: nat)
    requires i + n <= |s|
    requires forall k :: i <= k < i + n ==> IsAsciiDigit(s[k])
    requires i + n == |s| || !IsAsciiDigit(s[i + n])
    ensures DigitRun(s, i) == n
  {
  }

  /** A clock whose hour digits fill [i, i + h) and minute digits fill
      [i + h + 1, i + h + 1 + m), followed by the end or a non-digit. */
  predicate ClockSpan(s: string, i: nat, h: nat, m: nat) {
    && h > 0 && m > 0 && i + h + 1 + m <= |s|
    && (forall k :: i <= k < i + h ==> IsAsciiDigit(s[k]))
    && s[i + h] == ':'
    && (forall k :: i + h + 1 <= k < i + h + 1 + m ==> IsAsciiDigit(s[k]))
    && (i + h + 1 + m == |s| || !IsAsciiDigit(s[i + h + 1 + m]))
  }

  lemma ClockSpanEnd(s: string, i: nat, h: nat, m: nat)
    requires ClockSpan(s, i, h, m)
    ensures ClockEnd(s, i) == Some(i + h + 1 + m)
  {
    DigitRunExact(s, i, h);
    DigitRunExact(s, i + h + 1, m);
  }

  /** Where a match of `[0-9]+:[0-9]+` starting at `i` ends, when this is the
      last item of the pattern: each digit run is then taken whole. */
  function ClockEnd(s: string, i: nat): (r: Option<nat>)
    requires i <= |s|
    ensures r.Some? ==> i < r.value <= |s|
  {
    var h := DigitRun(s, i);
    if h == 0 || i + h == |s| || s[i + h] != ':' then None
    else
      var m := DigitRun(s, i + h + 1);
      if m == 0 then None else Some(i + h + 1 + m)
  }

  /** A match of the whole pattern: the index of the character `.` matched and
      the end of the match. */
  datatype TimeMatch = TimeMatch(separator: nat, end: nat)

  /** Backtracking over the minute digits of the first clock, which start at
      `q`: the greedy `[0-9]+` tries `k` digits, then `k - 1`, down to one. */
  function TrySeparator(s: string, q: nat, k: nat): (r: Option<TimeMatch>)
    requires q + k <= |s|
    ensures r.Some? ==> q < r.value.separator < r.value.end <= |s|
    decreases k
  {
    if k == 0 then None
    else
      var sep := q + k;
      if sep < |s| && DotMatches(s[sep]) && ClockEnd(s, sep + 1).Some? then
        Some(TimeMatch(sep, ClockEnd(s, sep + 1).value))
      else
        TrySeparator(s, q, k - 1)
  }

  /** The match of the pattern that starts at `p`, if any. The hour digits of
      the first clock must be followed by `:`, so the run is taken whole. */
  function MatchAt(s: string, p: nat): (r: Option<TimeMatch>)
    requires p <= |s|
    ensures r.Some? ==> p < r.value.separator < r.value.end <= |s|
  {
    var h := DigitRun(s, p);
    if h == 0 || p + h == |s| || s[p + h] != ':' then None
    else
      var q := p + h + 1;
      TrySeparator(s, q, DigitRun(s, q))
  }

  /** `r` is `s` from `p` on, with some characters replaced by `-`. */
  predicate KeepsOrDashes(r: string, s: string, p: nat)
    requires p <= |s|
  {
    |r| == |s| - p && forall k :: 0 <= k < |r| ==> r[k] == s[p + k] || r[k] == '-'
  }

  lemma KeepFirst(s: string, p: nat, rest: string)
    requires p < |s| && KeepsOrDashes(rest, s, p + 1)
    ensures KeepsOrDashes([s[p]] + rest, s, p)
  {
    assert forall k :: 0 < k < |rest| + 1 ==> ([s[p]] + rest)[k] == rest[k - 1];
  }

  lemma DashAt(s: string, p: nat, m: TimeMatch, rest: string)
    requires p < m.separator < m.end <= |s| && KeepsOrDashes(rest, s, m.end)
    ensures KeepsOrDashes(s[p..m.separator] + "-" + s[m.separator + 1..m.end] + rest, s, p)
  {
    var r := s[p..m.separator] + "-" + s[m.separator + 1..m.end] + rest;
    forall k | 0 <= k < |r|
      ensures r[k] == s[p + k] || r[k] == '-'
    {
      if p + k < m.separator {
        assert r[k] == s[p..m.separator][k];
      } else if p + k == m.separator {
        assert r[k] == '-';
      } else if p + k < m.end {
        assert r[k] == s[m.separator + 1..m.end][p + k - m.separator - 1];
      } else {
        assert r[k] == rest[p + k - m.end];
      }
    }
  }

  /** The global replace from index `p` on: at each match the character `.`
      matched becomes `-` and the search resumes at the end of the match;
      elsewhere the search moves one character on. */
  function RewriteFrom(s: string, p: nat): (r: string)
    requires p <= |s|
    ensures |r| == |s| - p
    decreases |s| - p
  {
    if p == |s| then ""
    else
      match MatchAt(s, p)
      case None => [s[p]] + RewriteFrom(s, p + 1)
      case Some(m) => s[p..m.separator] + "-" + s[m.separator + 1..m.end] + RewriteFrom(s, m.end)
  }

  /** The rewrite only ever replaces characters by `-`. */
  lemma {:induction false} RewriteKeepsOrDashes(s: string, p: nat)
    requires p <= |s|
    ensures KeepsOrDashes(RewriteFrom(s, p), s, p)
    decreases |s| - p
  {
    if p < |s| {
      var q := Resume(s, p);
      RewriteKeepsOrDashes(s, q);
      KeepsStep(s, p);
    }
  }

  /** Where the rewrite goes on after index `p`: past the match there, or one
      character on. */
  function Resume(s: string, p: nat): (q: nat)
    requires p < |s|
    ensures p < q <= |s|
  {
    if MatchAt(s, p).None? then p + 1 else MatchAt(s, p).value.end
  }

  lemma KeepsStep(s: string, p: nat)
    requires p < |s| && KeepsOrDashes(RewriteFrom(s, Resume(s, p)), s, Resume(s, p))
    ensures KeepsOrDashes(RewriteFrom(s, p), s, p)
  {
    var m := MatchAt(s, p);
    if m.None? {
      KeepsWithoutMatch(s, p);
    } else {
      KeepsAtMatch(s, p, m.value);
    }
  }

  lemma KeepsWithoutMatch(s: string, p: nat)
    requires p < |s| && MatchAt(s, p).None? && KeepsOrDashes(RewriteFrom(s, p + 1), s, p + 1)
    ensures KeepsOrDashes(RewriteFrom(s, p), s, p)
  {
    KeepFirst(s, p, RewriteFrom(s, p + 1));
    RewriteWithoutMatchAt(s, p);
  }

  lemma KeepsAtMatch(s: string, p: nat, m: TimeMatch)
    requires p < |s| && MatchAt(s, p) == Some(m) && KeepsOrDashes(RewriteFrom(s, m.end), s, m.end)
    ensures KeepsOrDashes(RewriteFrom(s, p), s, p)
  {
    DashAt(s, p, m, RewriteFrom(s, m.end));
    RewriteAtMatch(s, p, m);
  }

  /** Without a match at `p` the rewrite keeps the character and moves on. */
  lemma RewriteWithoutMatchAt(s: string, p: nat)
    requires p < |s| && MatchAt(s, p).None?
    ensures RewriteFrom(s, p) == [s[p]] + RewriteFrom(s, p + 1)
  {
  }

  /** The time label as the `Availability` constructor stores it: of the same
      length, with some characters replaced by `-` and no other change. */
  function NormaliseTime(raw: string): (t: string)
    ensures |t| == |raw|
    ensures forall k :: 0 <= k < |t| ==> t[k] == raw[k] || t[k] == '-'
  {
    RewriteKeepsOrDashes(raw, 0);
    RewriteFrom(raw, 0)
  }

  predicate AllDigits(s: string) {
    forall k :: 0 <= k < |s| ==> IsAsciiDigit(s[k])
  }

  /** Two clocks around one separating character that `.` matches: the first
      match starts at 0, its separator is that character and it runs to the end. */
  lemma MatchRange(s: string, h1: nat, m1: nat, h2: nat, m2: nat)
    requires ClockSpan(s, 0, h1, m1) && h1 + 1 + m1 < |s|
    requires DotMatches(s[h1 + 1 + m1])
    requires ClockSpan(s, h1 + 1 + m1 + 1, h2, m2) && h1 + 1 + m1 + 1 + h2 + 1 + m2 == |s|
    ensures MatchAt(s, 0) == Some(TimeMatch(h1 + 1 + m1, |s|))
  {
    var q := h1 + 1;
    var sep := q + m1;
    DigitRunExact(s, 0, h1);
    DigitRunExact(s, q, m1);
    ClockSpanEnd(s, sep + 1, h2, m2);
    MatchFromRuns(s, h1, m1, |s|);
  }

  /** With the digit runs known, the match starts after the hour digits and
      `:`, and takes the longest try over the minute digits. */
  lemma MatchFromRuns(s: string, h: nat, m: nat, e: nat)
    requires h > 0 && h < |s| && DigitRun(s, 0) == h && s[h] == ':'
    requires m > 0 && h + 1 + m < |s| && DigitRun(s, h + 1) == m
    requires DotMatches(s[h + 1 + m]) && ClockEnd(s, h + 1 + m + 1) == Some(e)
    ensures MatchAt(s, 0) == Some(TimeMatch(h + 1 + m, e))
  {
    TrySeparatorFirst(s, h + 1, m);
  }

  /** The longest try succeeds when the character after all the minute digits
      is a separator followed by a clock. */
  lemma TrySeparatorFirst(s: string, q: nat, k: nat)
    requires k > 0 && q + k < |s| && DotMatches(s[q + k]) && ClockEnd(s, q + k + 1).Some?
    ensures TrySeparator(s, q, k) == Some(TimeMatch(q + k, ClockEnd(s, q + k + 1).value))
  {
  }

  /** At a match the rewrite replaces the separator and resumes at the end. */
  lemma RewriteAtMatch(s: string, p: nat, m: TimeMatch)
    requires p < |s| && MatchAt(s, p) == Some(m)
    ensures RewriteFrom(s, p) == s[p..m.separator] + "-" + s[m.separator + 1..m.end] + RewriteFrom(s, m.end)
  {
  }

  lemma ClockSpanExtend(x: string, rest: string, h: nat, m: nat)
    requires ClockSpan(x, 0, h, m) && |x| == h + 1 + m
    requires |rest| > 0 && !IsAsciiDigit(rest[0])
    ensures ClockSpan(x + rest, 0, h, m)
  {
    var s := x + rest;
    assert forall k :: 0 <= k < |x| ==> s[k] == x[k];
    assert s[|x|] == rest[0];
  }

  lemma ClockSpanShift(pre: string, y: string, h: nat, m: nat)
    requires ClockSpan(y, 0, h, m) && |y| == h + 1 + m
    ensures ClockSpan(pre + y, |pre|, h, m)
  {
    var s := pre + y;
    assert forall k :: |pre| <= k < |s| ==> s[k] == y[k - |pre|];
  }

  /** A label of the form digits:digits, one separating character, digits:digits
      comes back with the separator replaced by `-`. */
  lemma NormaliseRange(x: string, c: char, y: string, h1: nat, m1: nat, h2: nat, m2: nat)
    requires ClockSpan(x, 0, h1, m1) && |x| == h1 + 1 + m1
    requires ClockSpan(y, 0, h2, m2) && |y| == h2 + 1 + m2
    requires !IsAsciiDigit(c) && DotMatches(c)
    ensures NormaliseTime(x + [c] + y) == x + "-" + y
  {
    var s := x + [c] + y;
    RangeMatch(x, c, y, h1, m1, h2, m2);
    RangeSlices(x, c, y);
    RewriteAtMatch(s, 0, TimeMatch(|x|, |s|));
    assert RewriteFrom(s, |s|) == "";
    assert RewriteFrom(s, 0) == x + "-" + y + "";
  }

  lemma RangeMatch(x: string, c: char, y: string, h1: nat, m1: nat, h2: nat, m2: nat)
    requires ClockSpan(x, 0, h1, m1) && |x| == h1 + 1 + m1
    requires ClockSpan(y, 0, h2, m2) && |y| == h2 + 1 + m2
    requires !IsAsciiDigit(c) && DotMatches(c)
    ensures MatchAt(x + [c] + y, 0) == Some(TimeMatch(|x|, |x| + 1 + |y|))
  {
    var pre := x + [c];
    var s := pre + y;
    ClockSpanExtend(x, [c] + y, h1, m1);
    assert x + ([c] + y) == s;
    ClockSpanShift(pre, y, h2, m2);
    assert s[|x|] == c;
    MatchRange(s, h1, m1, h2, m2);
  }

  lemma RangeSlices(x: string, c: char, y: string)
    ensures var s := x + [c] + y;
      |s| == |x| + 1 + |y| && s[0..|x|] == x && s[|x| + 1..|s|] == y
  {
    var s := x + [c] + y;
    assert s[0..|x|] == x;
    assert s[|x| + 1..|s|] == y;
  }

  /** Where the pattern matches nowhere from `p` on, the rest is unchanged. */
  lemma {:induction false} RewriteWithoutMatch(s: string, p: nat)
    requires p <= |s|
    requires forall i :: p <= i < |s| ==> MatchAt(s, i).None?
    ensures RewriteFrom(s, p) == s[p..]
    decreases |s| - p
  {
    if p < |s| {
      RewriteWithoutMatch(s, p + 1);
      RewriteWithoutMatchAt(s, p);
      assert s[p..] == [s[p]] + s[p + 1..];
    }
  }

  /** A label without the pattern is unchanged; in particular one without `:`. */
  lemma NormaliseWithoutMatch(raw: string)
    requires forall i :: 0 <= i < |raw| ==> MatchAt(raw, i).None?
    ensures NormaliseTime(raw) == raw
  {
    RewriteWithoutMatch(raw, 0);
  }

  lemma NormaliseWithoutColon(raw: string)
    requires ':' !in raw
    ensures NormaliseTime(raw) == raw
  {
    forall i | 0 <= i < |raw|
      ensures MatchAt(raw, i).None?
    {
      var h := DigitRun(raw, i);
      if i + h < |raw| {
        assert raw[i + h] in raw;
      }
    }
    NormaliseWithoutMatch(raw);
  }

  /** The target as written normalises to "19:00-21:00". */
  lemma NormaliseTarget()
    ensures NormaliseTime(TargetAsWritten)[5] == '-'
  {
    var x := "19:00";
    var y := "21:00";
    assert TargetAsWritten == x + ['～'] + y;
    assert ClockSpan(x, 0, 2, 2);
    assert ClockSpan(y, 0, 2, 2);
    NormaliseRange(x, '～', y, 2, 2, 2, 2);
    assert (x + "-" + y)[5] == '-';
  }

  /** Where the target has no `-`, a label normalising to it equals it. */
  lemma NormalisedWithoutDash(raw: string, t: string)
    requires NormaliseTime(raw) == t
    requires forall k :: 0 <= k < |t| ==> t[k] != '-'
    ensures raw == t
  {
  }

  lemma TargetHasNoDash()
    ensures forall k :: 0 <= k < |TargetAsWritten| ==> TargetAsWritten[k] != '-'
  {
  }

  /** No label normalises to the target both callers of `compare` pass: its
      separator is U+FF5E, which the rewrite always turns into `-`. */
  lemma NormaliseNeverYieldsTarget(raw: string)
    ensures NormaliseTime(raw) != TargetAsWritten
  {
    if NormaliseTime(raw) == TargetAsWritten {
      TargetHasNoDash();
      NormalisedWithoutDash(raw, TargetAsWritten);
      NormaliseTarget();
    }
  }

  // ---------------------------------------------------------------------------
  // Availability and the alert rule

  /** One slot of one day: its normalised time label and its raw cell value,
      which is one of the two markers or a remaining capacity. */
  datatype Availability = Availability(time: string, value: string)

  /** `new Availability(time, value)`: the value verbatim, the label normalised. */
  function NewAvailability(raw: string, value: string): (a: Availability)
    ensures a.value == value
    ensures |a.time| == |raw|
    ensures forall k :: 0 <= k < |raw| ==> a.time[k] == raw[k] || a.time[k] == '-'
  {
    Availability(NormaliseTime(raw), value)
  }

  /** `!isNaN(parseInt(v, 10))`: after leading whitespace and at most one sign,
      the text starts with an ASCII digit. */
  predicate ParsesAsInteger(v: string) {
    var t := TrimStart(v);
    var u := if |t| > 0 && (t[0] == '+' || t[0] == '-') then t[1..] else t;
    |u| > 0 && IsAsciiDigit(u[0])
  }

  predicate IsAvailable(a: Availability) {
    ParsesAsInteger(a.value)
  }

  predicate IsFull(a: Availability) {
    a.value == Full
  }

  /** `needAlert(from, to)`. */
  predicate NeedAlert(from: Availability, to: Availability) {
    (IsFull(from) && IsAvailable(to)) || (IsFull(to) && IsAvailable(from))
  }

  /** Neither marker parses as a number. */
  lemma MarkersAreNotNumbers()
    ensures !ParsesAsInteger(Full) && !ParsesAsInteger(Expired)
  {
  }

  /** A full slot is never available. */
  lemma FullIsNotAvailable(a: Availability)
    ensures !(IsFull(a) && IsAvailable(a))
  {
    MarkersAreNotNumbers();
  }

  /** The alert fires exactly when one side is full and the other available;
      it is symmetric, never fires across an expired marker, between two
      numbers, or between a slot and itself. */
  lemma NeedAlertMeaning(a: Availability, b: Availability)
    ensures NeedAlert(a, b) <==>
      (IsFull(a) && !IsFull(b) && IsAvailable(b)) || (IsFull(b) && !IsFull(a) && IsAvailable(a))
    ensures NeedAlert(a, b) == NeedAlert(b, a)
    ensures a.value == Expired || b.value == Expired ==> !NeedAlert(a, b)
    ensures IsAvailable(a) && IsAvailable(b) ==> !NeedAlert(a, b)
    ensures !NeedAlert(a, a)
  {
    FullIsNotAvailable(a);
    FullIsNotAvailable(b);
    MarkersAreNotNumbers();
  }

  // ---------------------------------------------------------------------------
  // Diff records

  /** One detected change of one slot. */
  datatype Diff = Diff(date: string, time: string, before: string, after: string)

  /** The fixed words of the sentence: "'s status", "from", "changed to". */
  const StatusWords: string := " のステータスが "
  const FromWords: string := " から "
  const ChangedWords: string := " に変わりました。"

  /** Where the before value starts in `DiffText(d)`. */
  function BeforeAt(d: Diff): nat {
    |d.date| + 1 + |d.time| + |StatusWords|
  }

  /** Where the after value starts in `DiffText(d)`. */
  function AfterAt(d: Diff): nat {
    BeforeAt(d) + |d.before| + |FromWords|
  }

  /** `Diff.toString()`: the date, a space, the time, the status words, the
      before value, the word "from", the after value and the closing words,
      each at its offset and nothing else. */
  function DiffText(d: Diff): (r: string)
    ensures |r| == AfterAt(d) + |d.after| + |ChangedWords|
    ensures IsInfixAt(d.date, r, 0) && IsInfixAt(" ", r, |d.date|)
    ensures IsInfixAt(d.time, r, |d.date| + 1)
    ensures IsInfixAt(StatusWords, r, |d.date| + 1 + |d.time|)
    ensures IsInfixAt(d.before, r, BeforeAt(d)) && IsInfixAt(FromWords, r, BeforeAt(d) + |d.before|)
    ensures IsInfixAt(d.after, r, AfterAt(d)) && IsInfixAt(ChangedWords, r, AfterAt(d) + |d.after|)
    ensures IsInfix(d.before, r) && IsInfix(d.after, r)
  {
    DiffTextFront(d);
    DiffTextBack(d);
    Concat(DiffPieces(d))
  }

  /** The template of `Diff.toString()`, piece by piece. */
  function DiffPieces(d: Diff): seq<string> {
    [d.date, " ", d.time, StatusWords, d.before, FromWords, d.after, ChangedWords]
  }

  /** The date, the space, the time and the status words at their offsets. */
  lemma DiffTextFront(d: Diff)
    ensures var r := Concat(DiffPieces(d));
      && IsInfixAt(d.date, r, 0) && IsInfixAt(" ", r, |d.date|)
      && IsInfixAt(d.time, r, |d.date| + 1)
      && IsInfixAt(StatusWords, r, |d.date| + 1 + |d.time|)
  {
    var ps := DiffPieces(d);
    DiffOffsets(d);
    PieceAtOffset(ps, 0, d.date, 0);
    PieceAtOffset(ps, 1, " ", |d.date|);
    PieceAtOffset(ps, 2, d.time, |d.date| + 1);
    PieceAtOffset(ps, 3, StatusWords, |d.date| + 1 + |d.time|);
  }

  /** The two values and the words around them at their offsets, and nothing
      after the closing words. */
  lemma DiffTextBack(d: Diff)
    ensures var r := Concat(DiffPieces(d));
      && |r| == AfterAt(d) + |d.after| + |ChangedWords|
      && IsInfixAt(d.before, r, BeforeAt(d)) && IsInfixAt(FromWords, r, BeforeAt(d) + |d.before|)
      && IsInfixAt(d.after, r, AfterAt(d)) && IsInfixAt(ChangedWords, r, AfterAt(d) + |d.after|)
  {
    var ps := DiffPieces(d);
    DiffOffsets(d);
    ConcatLength(ps);
    PieceAtOffset(ps, 4, d.before, BeforeAt(d));
    PieceAtOffset(ps, 5, FromWords, BeforeAt(d) + |d.before|);
    PieceAtOffset(ps, 6, d.after, AfterAt(d));
    PieceAtOffset(ps, 7, ChangedWords, AfterAt(d) + |d.after|);
  }

  lemma DiffOffsets(d: Diff)
    ensures var ps := DiffPieces(d);
      && ConcatOffset(ps, 1) == |d.date|
      && ConcatOffset(ps, 2) == |d.date| + 1
      && ConcatOffset(ps, 3) == |d.date| + 1 + |d.time|
      && ConcatOffset(ps, 4) == BeforeAt(d)
      && ConcatOffset(ps, 5) == BeforeAt(d) + |d.before|
      && ConcatOffset(ps, 6) == AfterAt(d)
      && ConcatOffset(ps, 7) == AfterAt(d) + |d.after|
  {
    var ps := DiffPieces(d);
    assert ConcatOffset(ps, 1) == |d.date|;
    assert ConcatOffset(ps, 2) == ConcatOffset(ps, 1) + 1;
    assert ConcatOffset(ps, 3) == ConcatOffset(ps, 2) + |d.time|;
    assert ConcatOffset(ps, 4) == ConcatOffset(ps, 3) + |StatusWords|;
    assert ConcatOffset(ps, 5) == ConcatOffset(ps, 4) + |d.before|;
    assert ConcatOffset(ps, 6) == ConcatOffset(ps, 5) + |FromWords|;
    assert ConcatOffset(ps, 7) == ConcatOffset(ps, 6) + |d.after|;
  }

  /** `columnId(id)`: the character `'A' + id`, a letter up to id 25. */
  function ColumnId(id: nat): (c: char)
    requires 'A' as int + id < 0xD800
    ensures c as int == 'A' as int + id
    ensures id < 26 ==> 'A' <= c <= 'Z'
  {
    ('A' as int + id) as char
  }

  // ---------------------------------------------------------------------------
  // Calendars

  /** One day of one court: its date label and its slots, index-aligned with
      the calendar's schedule names. */
  datatype DayAvailability = DayAvailability(date: string, schedule: seq<Availability>)

  /** One court in one run. */
  datatype Calendar = Calendar(name: string, days: seq<DayAvailability>, scheduleNames: seq<string>)

  /** Every slot carries the normalised form of its column's schedule name. */
  ghost predicate WellFormed(c: Calendar) {
    forall i :: 0 <= i < |c.days| ==> WellFormedDay(c.days[i], c.scheduleNames)
  }

  ghost predicate WellFormedDay(d: DayAvailability, names: seq<string>) {
    forall j :: 0 <= j < |d.schedule| ==> j < |names| && d.schedule[j].time == NormaliseTime(names[j])
  }

  /** JavaScript's `undefined`, as a template string renders it: the date of a
      day row for which the dates list has no entry. */
  const UndefinedText: string := "undefined"

  function DateAt(dates: seq<string>, i: nat): string {
    if i < |dates| then dates[i] else UndefinedText
  }

  /** The trimmed texts of a row's `td` children. */
  function CellTexts(row: Element): (r: seq<string>)
    ensures |r| == |ChildrenNamed(row, "td")|
  {
    var tds := ChildrenNamed(row, "td");
    seq(|tds|, k requires 0 <= k < |tds| => Trim(TextValue(tds[k])))
  }

  /** The slots of one day row: cell `j` paired with schedule name `j`. */
  function Slots(labels: seq<string>, values: seq<string>): (r: seq<Availability>)
    requires |values| <= |labels|
    ensures |r| == |values|
    ensures forall j :: 0 <= j < |r| ==> r[j] == NewAvailability(labels[j], values[j])
  {
    seq(|values|, j requires 0 <= j < |values| => NewAvailability(labels[j], values[j]))
  }

  /** A day row (from the third row on) with more cells than the second row. */
  predicate HasOverlongRow(rows: seq<Element>)
    requires |rows| >= 2
  {
    exists i :: 2 <= i < |rows| && |CellTexts(rows[i])| > |CellTexts(rows[1])|
  }

  /** `Calendar.fromTable(table, dates)`: the court name from the first row, the
      schedule names from the cells of the second, one day per later row.
      Fewer than two rows, or a day row with more cells than there are
      schedule names, is the TypeError the source raises. */
  function FromTable(table: Element, dates: seq<string>): (r: Result<Calendar>)
    ensures var rows := ChildrenNamed(table, "tr");
      match r
      case Err(e) =>
        (e == MissingTableRows && |rows| < 2)
        || (e == MissingScheduleLabel && |rows| >= 2
            && HasOverlongRow(rows))
      case Ok(c) =>
        && |rows| >= 2
        && c.name == Trim(TextValue(rows[0]))
        && c.scheduleNames == CellTexts(rows[1])
        && |c.days| == |rows| - 2
        && WellFormed(c)
        && forall i :: 0 <= i < |c.days| ==>
             c.days[i].date == DateAt(dates, i)
             && |c.days[i].schedule| == |CellTexts(rows[i + 2])|
             && forall j :: 0 <= j < |c.days[i].schedule| ==> c.days[i].schedule[j].value == CellTexts(rows[i + 2])[j]
  {
    var rows := ChildrenNamed(table, "tr");
    if |rows| < 2 then Err(MissingTableRows)
    else
      var labels := CellTexts(rows[1]);
      if HasOverlongRow(rows) then Err(MissingScheduleLabel)
      else Ok(Calendar(Trim(TextValue(rows[0])), DaysFrom(rows, dates), labels))
  }

  /** The days of `fromTable`: row `i + 2` with date `i`, cell `j` under schedule name `j`. */
  function DaysFrom(rows: seq<Element>, dates: seq<string>): (days: seq<DayAvailability>)
    requires |rows| >= 2 && !HasOverlongRow(rows)
    ensures |days| == |rows| - 2
    ensures WellFormed(Calendar("", days, CellTexts(rows[1])))
    ensures forall i :: 0 <= i < |days| ==>
      days[i].date == DateAt(dates, i)
      && |days[i].schedule| == |CellTexts(rows[i + 2])|
      && forall j :: 0 <= j < |days[i].schedule| ==> days[i].schedule[j].value == CellTexts(rows[i + 2])[j]
  {
    var labels := CellTexts(rows[1]);
    var days := seq(|rows| - 2, i requires 0 <= i < |rows| - 2 =>
      DayAvailability(DateAt(dates, i), Slots(labels, CellTexts(rows[i + 2]))));
    forall i | 0 <= i < |days|
      ensures WellFormedDay(days[i], labels)
    {
      var values := CellTexts(rows[i + 2]);
      assert |values| <= |labels|;
      assert days[i].schedule == Slots(labels, values);
    }
    days
  }

  // ---------------------------------------------------------------------------
  // compare

  /** A slot position: day index, then slot index. */
  datatype Cell = Cell(day: nat, slot: nat)

  predicate InCalendar(c: Calendar, cell: Cell) {
    cell.day < |c.days| && cell.slot < |c.days[cell.day].schedule|
  }

  function At(c: Calendar, cell: Cell): Availability
    requires InCalendar(c, cell)
  {
    c.days[cell.day].schedule[cell.slot]
  }

  /** Day-major order of slot positions. */
  predicate Before(x: Cell, y: Cell) {
    x.day < y.day || (x.day == y.day && x.slot < y.slot)
  }

  /** A slot of `a` whose time is one of the targets. */
  predicate IsTarget(a: Calendar, targets: seq<string>, cell: Cell) {
    InCalendar(a, cell) && At(a, cell).time in targets
  }

  /** A target slot of `a` present in `b` with an alert between the two values. */
  predicate Alerts(a: Calendar, b: Calendar, targets: seq<string>, cell: Cell) {
    IsTarget(a, targets, cell) && InCalendar(b, cell) && NeedAlert(At(a, cell), At(b, cell))
  }

  /** Every target slot of `a` exists in `b`; otherwise `compare` reads a day or
      slot of `b` that is undefined. */
  ghost predicate Aligned(a: Calendar, b: Calendar, targets: seq<string>) {
    forall cell :: IsTarget(a, targets, cell) ==> InCalendar(b, cell)
  }

  /** The alerting slots among the first `j` slots of day `i`, in order. */
  function RowAlerts(a: Calendar, b: Calendar, targets: seq<string>, i: nat, j: nat): seq<Cell>
    requires i < |a.days| && j <= |a.days[i].schedule|
  {
    if j == 0 then []
    else RowAlerts(a, b, targets, i, j - 1) + (if Alerts(a, b, targets, Cell(i, j - 1)) then [Cell(i, j - 1)] else [])
  }

  /** The alerting slots of the first `i` days, in day-major order. */
  function DayAlerts(a: Calendar, b: Calendar, targets: seq<string>, i: nat): seq<Cell>
    requires i <= |a.days|
  {
    if i == 0 then []
    else DayAlerts(a, b, targets, i - 1) + RowAlerts(a, b, targets, i - 1, |a.days[i - 1].schedule|)
  }

  function AlertCells(a: Calendar, b: Calendar, targets: seq<string>): seq<Cell> {
    DayAlerts(a, b, targets, |a.days|)
  }

  /** The change record of one slot: date and time from `a`, the old value from
      `a` and the new value from `b`. */
  function DiffAt(a: Calendar, b: Calendar, cell: Cell): Diff
    requires InCalendar(a, cell) && InCalendar(b, cell)
  {
    Diff(a.days[cell.day].date, At(a, cell).time, At(a, cell).value, At(b, cell).value)
  }

  /** The change records of the slots present in both calendars, in order. */
  function DiffsAt(a: Calendar, b: Calendar, cells: seq<Cell>): seq<Diff> {
    if cells == [] then []
    else
      var c := cells[|cells| - 1];
      DiffsAt(a, b, cells[..|cells| - 1]) + (if InCalendar(a, c) && InCalendar(b, c) then [DiffAt(a, b, c)] else [])
  }

  /** What `a.compare(b, targets)` returns. */
  ghost function CompareSpec(a: Calendar, b: Calendar, targets: seq<string>): Result<seq<Diff>> {
    if Aligned(a, b, targets) then Ok(DiffsAt(a, b, AlertCells(a, b, targets))) else Err(MisalignedCalendars)
  }

  /** One step of a filter: the new list holds the old members, and the new
      cell exactly when it passes. */
  lemma MembersStep(prev: seq<Cell>, next: seq<Cell>, cell: Cell, passes: bool, x: Cell)
    requires next == if passes then prev + [cell] else prev
    ensures x in next <==> x in prev || (passes && x == cell)
  {
  }

  lemma {:induction false} RowAlertsMembers(a: Calendar, b: Calendar, targets: seq<string>, i: nat, j: nat, x: Cell)
    requires i < |a.days| && j <= |a.days[i].schedule|
    ensures x in RowAlerts(a, b, targets, i, j) <==> x.day == i && x.slot < j && Alerts(a, b, targets, x)
  {
    if j > 0 {
      var cell := Cell(i, j - 1);
      RowAlertsMembers(a, b, targets, i, j - 1, x);
      RowAlertsStep(a, b, targets, i, j - 1);
      MembersStep(RowAlerts(a, b, targets, i, j - 1), RowAlerts(a, b, targets, i, j), cell, Alerts(a, b, targets, cell), x);
      assert x == cell <==> x.day == i && x.slot == j - 1;
    }
  }

  lemma {:induction false} DayAlertsMembers(a: Calendar, b: Calendar, targets: seq<string>, i: nat, x: Cell)
    requires i <= |a.days|
    ensures x in DayAlerts(a, b, targets, i) <==> x.day < i && Alerts(a, b, targets, x)
  {
    if i > 0 {
      DayAlertsMembers(a, b, targets, i - 1, x);
      RowAlertsMembers(a, b, targets, i - 1, |a.days[i - 1].schedule|, x);
      assert DayAlerts(a, b, targets, i)
        == DayAlerts(a, b, targets, i - 1) + RowAlerts(a, b, targets, i - 1, |a.days[i - 1].schedule|);
      if x.day == i - 1 && Alerts(a, b, targets, x) {
        assert x.slot < |a.days[i - 1].schedule|;
      }
    }
  }

  predicate Increasing(cells: seq<Cell>) {
    forall k, l :: 0 <= k < l < |cells| ==> Before(cells[k], cells[l])
  }

  lemma {:induction false} RowAlertsIncreasing(a: Calendar, b: Calendar, targets: seq<string>, i: nat, j: nat)
    requires i < |a.days| && j <= |a.days[i].schedule|
    ensures Increasing(RowAlerts(a, b, targets, i, j))
    ensures forall k :: 0 <= k < |RowAlerts(a, b, targets, i, j)| ==>
      RowAlerts(a, b, targets, i, j)[k].day == i && RowAlerts(a, b, targets, i, j)[k].slot < j
  {
    if j > 0 {
      RowAlertsIncreasing(a, b, targets, i, j - 1);
    }
  }

  lemma {:induction false} DayAlertsIncreasing(a: Calendar, b: Calendar, targets: seq<string>, i: nat)
    requires i <= |a.days|
    ensures Increasing(DayAlerts(a, b, targets, i))
    ensures forall k :: 0 <= k < |DayAlerts(a, b, targets, i)| ==> DayAlerts(a, b, targets, i)[k].day < i
  {
    if i > 0 {
      DayAlertsIncreasing(a, b, targets, i - 1);
      RowAlertsIncreasing(a, b, targets, i - 1, |a.days[i - 1].schedule|);
    }
  }

  /** The alerting slots are listed exactly once each, in day-major order. */
  lemma AlertCellsSpec(a: Calendar, b: Calendar, targets: seq<string>)
    ensures forall x :: x in AlertCells(a, b, targets) <==> Alerts(a, b, targets, x)
    ensures Increasing(AlertCells(a, b, targets))
  {
    forall x ensures x in AlertCells(a, b, targets) <==> Alerts(a, b, targets, x) {
      DayAlertsMembers(a, b, targets, |a.days|, x);
    }
    DayAlertsIncreasing(a, b, targets, |a.days|);
  }

  lemma {:induction false} DiffsAtAll(a: Calendar, b: Calendar, cells: seq<Cell>)
    requires forall k :: 0 <= k < |cells| ==> InCalendar(a, cells[k]) && InCalendar(b, cells[k])
    ensures |DiffsAt(a, b, cells)| == |cells|
    ensures forall k :: 0 <= k < |cells| ==> DiffsAt(a, b, cells)[k] == DiffAt(a, b, cells[k])
  {
    if cells != [] {
      DiffsAtAll(a, b, cells[..|cells| - 1]);
    }
  }

  /** What a successful `compare` returns: one record per alerting target
      slot, in day-major order, before taken from `a` and after from `b`. */
  lemma CompareDiffs(a: Calendar, b: Calendar, targets: seq<string>)
    requires CompareSpec(a, b, targets).Ok?
    ensures var ds := CompareSpec(a, b, targets).value;
      var cells := AlertCells(a, b, targets);
      && |ds| == |cells|
      && (forall k :: 0 <= k < |cells| ==> Alerts(a, b, targets, cells[k]) && ds[k] == DiffAt(a, b, cells[k]))
      && (forall x :: Alerts(a, b, targets, x) ==> x in cells)
      && Increasing(cells)
  {
    var cells := AlertCells(a, b, targets);
    AlertCellsSpec(a, b, targets);
    assert forall k :: 0 <= k < |cells| ==> cells[k] in cells;
    DiffsAtAll(a, b, cells);
  }

  lemma {:induction false} RowAlertsNone(a: Calendar, b: Calendar, targets: seq<string>, i: nat, j: nat)
    requires i < |a.days| && j <= |a.days[i].schedule|
    requires forall x :: !Alerts(a, b, targets, x)
    ensures RowAlerts(a, b, targets, i, j) == []
  {
    if j > 0 {
      RowAlertsNone(a, b, targets, i, j - 1);
    }
  }

  lemma {:induction false} DayAlertsNone(a: Calendar, b: Calendar, targets: seq<string>, i: nat)
    requires i <= |a.days|
    requires forall x :: !Alerts(a, b, targets, x)
    ensures DayAlerts(a, b, targets, i) == []
  {
    if i > 0 {
      DayAlertsNone(a, b, targets, i - 1);
      RowAlertsNone(a, b, targets, i - 1, |a.days[i - 1].schedule|);
    }
  }

  lemma NoAlertsNoDiffs(a: Calendar, b: Calendar, targets: seq<string>)
    requires Aligned(a, b, targets)
    requires forall x :: !Alerts(a, b, targets, x)
    ensures CompareSpec(a, b, targets) == Ok([])
  {
    DayAlertsNone(a, b, targets, |a.days|);
  }

  /** A calendar compared with itself yields nothing, whatever the targets. */
  lemma CompareSelf(c: Calendar, targets: seq<string>)
    ensures CompareSpec(c, c, targets) == Ok([])
  {
    forall x ensures !Alerts(c, c, targets, x) {
      if InCalendar(c, x) {
        NeedAlertMeaning(At(c, x), At(c, x));
      }
    }
    NoAlertsNoDiffs(c, c, targets);
  }

  /** An empty target list yields nothing. */
  lemma CompareNoTargets(a: Calendar, b: Calendar)
    ensures CompareSpec(a, b, []) == Ok([])
  {
    NoAlertsNoDiffs(a, b, []);
  }

  /** As written, the filter of both callers never matches: a well-formed
      calendar has no slot whose time is the target they pass, so `compare`
      yields nothing and never fails, whatever the other calendar. */
  lemma CompareAsWrittenIsEmpty(a: Calendar, b: Calendar)
    requires WellFormed(a)
    ensures CompareSpec(a, b, [TargetAsWritten]) == Ok([])
  {
    forall x | InCalendar(a, x)
      ensures !IsTarget(a, [TargetAsWritten], x)
    {
      assert WellFormedDay(a.days[x.day], a.scheduleNames);
      assert At(a, x) == a.days[x.day].schedule[x.slot];
      NormaliseNeverYieldsTarget(a.scheduleNames[x.slot]);
    }
    NoAlertsNoDiffs(a, b, [TargetAsWritten]);
  }

  /** `this.compare(calendar, targetSchedules)`: the nested `forEach` loops that
      push one record per alerting target slot. */
  method Compare(a: Calendar, b: Calendar, targets: seq<string>) returns (r: Result<seq<Diff>>)
    ensures r == CompareSpec(a, b, targets)
  {
    var diffs: seq<Diff> := [];
    for i := 0 to |a.days|
      invariant diffs == DiffsAt(a, b, DayAlerts(a, b, targets, i))
      invariant AlignedUpTo(a, b, targets, i)
    {
      var day := CompareDay(a, b, targets, i);
      if day.Err? {
        MisalignedDay(a, b, targets, i);
        return day;
      }
      CompareStep(a, b, targets, i, diffs, day.value);
      diffs := diffs + day.value;
    }
    AlignedByDays(a, b, targets);
    return Ok(diffs);
  }

  /** One turn of the outer loop of `Compare`: the records of day `i` extend
      those of the days before it. */
  lemma CompareStep(a: Calendar, b: Calendar, targets: seq<string>, i: nat, diffs: seq<Diff>, day: seq<Diff>)
    requires i < |a.days|
    requires diffs == DiffsAt(a, b, DayAlerts(a, b, targets, i)) && AlignedUpTo(a, b, targets, i)
    requires day == DiffsAt(a, b, RowAlerts(a, b, targets, i, |a.days[i].schedule|)) && DayAligned(a, b, targets, i)
    ensures diffs + day == DiffsAt(a, b, DayAlerts(a, b, targets, i + 1)) && AlignedUpTo(a, b, targets, i + 1)
  {
    DiffsAtConcat(a, b, DayAlerts(a, b, targets, i), RowAlerts(a, b, targets, i, |a.days[i].schedule|));
    assert DayAlerts(a, b, targets, i + 1)
      == DayAlerts(a, b, targets, i) + RowAlerts(a, b, targets, i, |a.days[i].schedule|);
    AlignedUpToStep(a, b, targets, i);
  }

  /** The target slots of day `i` of `a` all exist in `b`. */
  ghost predicate DayAligned(a: Calendar, b: Calendar, targets: seq<string>, i: nat)
    requires i < |a.days|
  {
    SlotsAligned(a, b, targets, i, |a.days[i].schedule|)
  }

  /** The target slots among the first `j` slots of day `i` of `a` all exist in `b`. */
  ghost predicate SlotsAligned(a: Calendar, b: Calendar, targets: seq<string>, i: nat, j: nat) {
    forall k :: 0 <= k < j && IsTarget(a, targets, Cell(i, k)) ==> InCalendar(b, Cell(i, k))
  }

  lemma SlotsAlignedStep(a: Calendar, b: Calendar, targets: seq<string>, i: nat, j: nat)
    requires SlotsAligned(a, b, targets, i, j)
    requires IsTarget(a, targets, Cell(i, j)) ==> InCalendar(b, Cell(i, j))
    ensures SlotsAligned(a, b, targets, i, j + 1)
  {
  }

  lemma SlotMisaligned(a: Calendar, b: Calendar, targets: seq<string>, i: nat, j: nat)
    requires i < |a.days| && j < |a.days[i].schedule|
    requires IsTarget(a, targets, Cell(i, j)) && !InCalendar(b, Cell(i, j))
    ensures !DayAligned(a, b, targets, i)
  {
  }

  lemma MisalignedDay(a: Calendar, b: Calendar, targets: seq<string>, i: nat)
    requires i < |a.days| && !DayAligned(a, b, targets, i)
    ensures !Aligned(a, b, targets)
    ensures CompareSpec(a, b, targets) == Err(MisalignedCalendars)
  {
    var j :| 0 <= j < |a.days[i].schedule| && IsTarget(a, targets, Cell(i, j)) && !InCalendar(b, Cell(i, j));
  }

  /** The target slots of the first `i` days of `a` all exist in `b`. */
  ghost predicate AlignedUpTo(a: Calendar, b: Calendar, targets: seq<string>, i: nat) {
    forall k :: 0 <= k < i && k < |a.days| ==> DayAligned(a, b, targets, k)
  }

  lemma AlignedUpToStep(a: Calendar, b: Calendar, targets: seq<string>, i: nat)
    requires i < |a.days| && AlignedUpTo(a, b, targets, i) && DayAligned(a, b, targets, i)
    ensures AlignedUpTo(a, b, targets, i + 1)
  {
  }

  lemma AlignedByDays(a: Calendar, b: Calendar, targets: seq<string>)
    requires AlignedUpTo(a, b, targets, |a.days|)
    ensures Aligned(a, b, targets)
    ensures CompareSpec(a, b, targets) == Ok(DiffsAt(a, b, AlertCells(a, b, targets)))
  {
    forall x | IsTarget(a, targets, x)
      ensures InCalendar(b, x)
    {
      assert DayAligned(a, b, targets, x.day);
      assert x == Cell(x.day, x.slot);
    }
  }

  /** The `forEach` over the slots of day `i`: the records of its alerting
      target slots, or the failure on a target slot that `b` lacks. */
  method CompareDay(a: Calendar, b: Calendar, targets: seq<string>, i: nat) returns (r: Result<seq<Diff>>)
    requires i < |a.days|
    ensures r.Ok? <==> DayAligned(a, b, targets, i)
    ensures r.Ok? ==> r.value == DiffsAt(a, b, RowAlerts(a, b, targets, i, |a.days[i].schedule|))
    ensures r.Err? ==> r.error == MisalignedCalendars
  {
    var d := a.days[i];
    var diffs: seq<Diff> := [];
    for j := 0 to |d.schedule|
      invariant diffs == DiffsAt(a, b, RowAlerts(a, b, targets, i, j))
      invariant SlotsAligned(a, b, targets, i, j)
    {
      var s := d.schedule[j];
      RowAlertsStep(a, b, targets, i, j);
      assert At(a, Cell(i, j)) == s;
      if s.time in targets {
        if i >= |b.days| || j >= |b.days[i].schedule| {
          SlotMisaligned(a, b, targets, i, j);
          return Err(MisalignedCalendars);
        }
        var to := b.days[i].schedule[j];
        assert At(b, Cell(i, j)) == to;
        if NeedAlert(s, to) {
          DiffsAtSnoc(a, b, RowAlerts(a, b, targets, i, j), Cell(i, j));
          diffs := diffs + [Diff(d.date, s.time, s.value, to.value)];
        }
      }
      SlotsAlignedStep(a, b, targets, i, j);
    }
    return Ok(diffs);
  }

  lemma RowAlertsStep(a: Calendar, b: Calendar, targets: seq<string>, i: nat, j: nat)
    requires i < |a.days| && j < |a.days[i].schedule|
    ensures RowAlerts(a, b, targets, i, j + 1)
      == if Alerts(a, b, targets, Cell(i, j)) then RowAlerts(a, b, targets, i, j) + [Cell(i, j)]
         else RowAlerts(a, b, targets, i, j)
  {
    assert RowAlerts(a, b, targets, i, j) + [] == RowAlerts(a, b, targets, i, j);
  }

  lemma {:induction false} DiffsAtConcat(a: Calendar, b: Calendar, xs: seq<Cell>, ys: seq<Cell>)
    ensures DiffsAt(a, b, xs + ys) == DiffsAt(a, b, xs) + DiffsAt(a, b, ys)
    decreases |ys|
  {
    if ys == [] {
      assert xs + ys == xs;
    } else {
      var init := ys[..|ys| - 1];
      assert (xs + ys)[..|xs + ys| - 1] == xs + init;
      DiffsAtConcat(a, b, xs, init);
    }
  }

  lemma DiffsAtSnoc(a: Calendar, b: Calendar, cells: seq<Cell>, c: Cell)
    requires InCalendar(a, c) && InCalendar(b, c)
    ensures DiffsAt(a, b, cells + [c]) == DiffsAt(a, b, cells) + [DiffAt(a, b, c)]
  {
    assert (cells + [c])[..|cells|] == cells;
  }

  // ---------------------------------------------------------------------------
  // store and restore

  /** The active spreadsheet: sheets by name, each a grid of cell texts, row
      by row, with no trailing rows beyond what was written. */
  class Workbook {
    var sheets: map<string, seq<seq<string>>>

    constructor(sheets: map<string, seq<seq<string>>>)
      ensures this.sheets == sheets
    {
      this.sheets := sheets;
    }
  }

  function Values(schedule: seq<Availability>): (r: seq<string>)
    ensures |r| == |schedule|
    ensures forall k :: 0 <= k < |r| ==> r[k] == schedule[k].value
  {
    seq(|schedule|, k requires 0 <= k < |schedule| => schedule[k].value)
  }

  function HeaderRow(c: Calendar): seq<string> {
    ["date"] + c.scheduleNames
  }

  function DayRow(d: DayAvailability): seq<string> {
    [d.date] + Values(d.schedule)
  }

  /** The rows `store` writes: a header row, then one row per day. */
  function Layout(c: Calendar): (rows: seq<seq<string>>)
    ensures |rows| == |c.days| + 1
  {
    [HeaderRow(c)] + seq(|c.days|, i requires 0 <= i < |c.days| => DayRow(c.days[i]))
  }

  /** Every day has exactly one slot per schedule name. */
  predicate Rectangular(c: Calendar) {
    forall i :: 0 <= i < |c.days| ==> |c.days[i].schedule| == |c.scheduleNames|
  }

  /** The layout has the header first, then the days in order, each row led by
      its date and followed by the slot values. */
  lemma LayoutShape(c: Calendar)
    ensures Layout(c)[0] == ["date"] + c.scheduleNames
    ensures forall i :: 0 <= i < |c.days| ==>
      Layout(c)[i + 1][0] == c.days[i].date
      && |Layout(c)[i + 1]| == 1 + |c.days[i].schedule|
      && forall k :: 0 <= k < |c.days[i].schedule| ==> Layout(c)[i + 1][k + 1] == c.days[i].schedule[k].value
  {
    forall i | 0 <= i < |c.days| ensures Layout(c)[i + 1] == DayRow(c.days[i]) { }
  }

  /** What `setValues` demands of the rows: all as wide as the first. */
  predicate SameWidth(rows: seq<seq<string>>)
    requires |rows| >= 1
  {
    forall r :: 0 <= r < |rows| ==> |rows[r]| == |rows[0]|
  }

  /** All rows of the layout have the header's width exactly when every day
      has one slot per schedule name. */
  lemma LayoutRectangular(c: Calendar)
    ensures SameWidth(Layout(c)) <==> Rectangular(c)
  {
    var rows := Layout(c);
    forall i | 0 <= i < |c.days| ensures rows[i + 1] == DayRow(c.days[i]) { }
    if Rectangular(c) {
      forall r | 0 <= r < |rows| ensures |rows[r]| == |rows[0]| {
        if r > 0 {
          assert rows[r] == DayRow(c.days[r - 1]);
        }
      }
    }
    if SameWidth(rows) {
      forall i | 0 <= i < |c.days| ensures |c.days[i].schedule| == |c.scheduleNames| {
        assert |rows[i + 1]| == |rows[0]|;
      }
    }
  }

  /** The row building loop of `store`. */
  method BuildRows(c: Calendar) returns (rows: seq<seq<string>>)
    ensures rows == Layout(c)
  {
    rows := [["date"] + c.scheduleNames];
    for i := 0 to |c.days|
      invariant |rows| == i + 1 && rows[0] == HeaderRow(c)
      invariant forall r :: 0 <= r < i ==> rows[r + 1] == DayRow(c.days[r])
    {
      var day := c.days[i];
      var row := [day.date];
      for j := 0 to |day.schedule|
        invariant row == [day.date] + Values(day.schedule[..j])
      {
        assert Values(day.schedule[..j + 1]) == Values(day.schedule[..j]) + [day.schedule[j].value];
        row := row + [day.schedule[j].value];
      }
      assert day.schedule[..|day.schedule|] == day.schedule;
      rows := rows + [row];
    }
    assert rows == Layout(c) by {
      forall r | 0 <= r < |rows| ensures rows[r] == Layout(c)[r] {
        if r > 0 {
          assert rows[r] == DayRow(c.days[r - 1]);
        }
      }
    }
  }

  function DigitChar(d: nat): (c: char)
    requires d < 10
    ensures IsAsciiDigit(c)
  {
    ('0' as int + d) as char
  }

  /** A number as a template string renders it. */
  function DecimalText(n: nat): (r: string)
    ensures |r| > 0 && AllDigits(r)
    ensures |r| > 1 ==> r[0] != '0'
  {
    if n < 10 then [DigitChar(n)]
    else
      var init := DecimalText(n / 10);
      assert n / 10 < 10 ==> init[0] != '0';
      init + [DigitChar(n % 10)]
  }

  function DecimalValue(s: string): nat
    requires AllDigits(s)
  {
    if s == [] then 0 else DecimalValue(s[..|s| - 1]) * 10 + (s[|s| - 1] as int - '0' as int)
  }

  /** The rendering reads back as the number. */
  lemma {:induction false} DecimalRoundTrip(n: nat)
    ensures DecimalValue(DecimalText(n)) == n
  {
    if n >= 10 {
      DecimalRoundTrip(n / 10);
      var s := DecimalText(n);
      assert s[..|s| - 1] == DecimalText(n / 10);
    }
  }

  /** The A1 range `store` writes: columns A to the last schedule name's
      column, rows 1 to the last day's. */
  function StoreRange(c: Calendar): string
    requires |c.scheduleNames| < 26
  {
    "A1:" + [ColumnId(|c.scheduleNames|)] + DecimalText(|c.days| + 1)
  }

  /** The range spans exactly the layout: its column letter is the one of
      the header's last cell, and its row number reads back as the number of
      rows. */
  lemma StoreRangeMeaning(c: Calendar)
    requires |c.scheduleNames| < 26
    ensures var r := StoreRange(c);
      && |r| > 4 && r[..3] == "A1:" && 'A' <= r[3] <= 'Z'
      && r[3] as int - 'A' as int + 1 == |HeaderRow(c)|
      && AllDigits(r[4..]) && DecimalValue(r[4..]) == |Layout(c)|
  {
    var r := StoreRange(c);
    assert r[4..] == DecimalText(|c.days| + 1);
    DecimalRoundTrip(|c.days| + 1);
  }

  /** What `store` returns: the range written, or why writing failed. A column
      past Z makes the range invalid and rows of unequal width make
      `setValues` fail. */
  function StoreResult(c: Calendar): (r: Result<string>)
    ensures r.Ok? <==> |c.scheduleNames| < 26 && Rectangular(c)
  {
    if |c.scheduleNames| >= 26 then Err(InvalidRange)
    else if !Rectangular(c) then Err(RowWidthMismatch)
    else Ok(StoreRange(c))
  }

  /** The sheets after `store`: the calendar's sheet holds the layout, or is
      left empty when writing failed after it was created or cleared. */
  function StoredSheets(sheets: map<string, seq<seq<string>>>, c: Calendar): map<string, seq<seq<string>>> {
    sheets[c.name := if StoreResult(c).Ok? then Layout(c) else []]
  }

  /** `calendar.store()`: the sheet named after the calendar is created or
      cleared, then the layout is written into it. */
  method Store(c: Calendar, book: Workbook) returns (r: Result<string>)
    modifies book
    ensures r == StoreResult(c)
    ensures book.sheets == StoredSheets(old(book.sheets), c)
  {
    var rows := BuildRows(c);
    book.sheets := book.sheets[c.name := []];
    if |rows[0]| - 1 >= 26 {
      return Err(InvalidRange);
    }
    // the header row is one date column and one column per schedule name, and
    // there is one row per day after it
    assert |rows[0]| - 1 == |c.scheduleNames| && |rows| == |c.days| + 1;
    var range := StoreRange(c);
    LayoutRectangular(c);
    if !SameWidth(rows) {
      return Err(RowWidthMismatch);
    }
    book.sheets := book.sheets[c.name := rows];
    return Ok(range);
  }

  /** The text of a cell; an empty string outside what was written. */
  function CellAt(grid: seq<seq<string>>, r: nat, k: nat): string {
    if r < |grid| && k < |grid[r]| then grid[r][k] else ""
  }

  predicate RowFilled(row: seq<string>) {
    exists k :: 0 <= k < |row| && row[k] != ""
  }

  /** `sheet.getLastRow()`: the number of rows up to the last non-empty one. */
  function LastRow(grid: seq<seq<string>>): (n: nat)
    ensures n <= |grid|
    ensures n > 0 ==> RowFilled(grid[n - 1])
    ensures forall r :: n <= r < |grid| ==> !RowFilled(grid[r])
  {
    if grid == [] then 0
    else if RowFilled(grid[|grid| - 1]) then |grid|
    else LastRow(grid[..|grid| - 1])
  }

  /** The number of slot columns `restore` reads, whatever was stored. */
  const RestoredSlots: nat := 7

  function RestoredNames(grid: seq<seq<string>>): (names: seq<string>)
    ensures |names| == RestoredSlots
  {
    seq(RestoredSlots, k requires 0 <= k < RestoredSlots => CellAt(grid, 0, k + 1))
  }

  function RestoredDay(grid: seq<seq<string>>, names: seq<string>, r: nat): (d: DayAvailability)
    requires |names| == RestoredSlots
    ensures d.date == CellAt(grid, r, 0)
    ensures |d.schedule| == RestoredSlots
    ensures forall k :: 0 <= k < |names| ==> d.schedule[k] == NewAvailability(names[k], CellAt(grid, r, k + 1))
  {
    DayAvailability(CellAt(grid, r, 0), Slots(names, RowValues(grid, r)))
  }

  /** The cells of columns 2 to 8 of row `r`. */
  function RowValues(grid: seq<seq<string>>, r: nat): (vs: seq<string>)
    ensures |vs| == RestoredSlots
    ensures forall k :: 0 <= k < RestoredSlots ==> vs[k] == CellAt(grid, r, k + 1)
  {
    seq(RestoredSlots, k requires 0 <= k < RestoredSlots => CellAt(grid, r, k + 1))
  }

  /** What `restore` builds from an existing sheet: seven schedule names from
      the header, one day per row up to the last non-empty row. A sheet whose
      last non-empty row is the header, or has none, asks for a range of no
      rows, which fails. */
  function RestoreGrid(name: string, grid: seq<seq<string>>): Result<Calendar> {
    var last := LastRow(grid);
    if last < 2 then Err(EmptySnapshot)
    else
      var names := RestoredNames(grid);
      Ok(Calendar(name, seq(last - 1, i requires 0 <= i < last - 1 => RestoredDay(grid, names, i + 1)), names))
  }

  /** `Calendar.restore(name)`: no calendar when there is no such sheet. */
  function RestoreSpec(sheets: map<string, seq<seq<string>>>, name: string): Result<Option<Calendar>> {
    if name !in sheets then Ok(None)
    else
      match RestoreGrid(name, sheets[name])
      case Ok(c) => Ok(Some(c))
      case Err(e) => Err(e)
  }

  /** A restored calendar has the requested name, at least one day, seven
      schedule names and seven slots per day, each slot under its name. */
  lemma RestoredShape(name: string, grid: seq<seq<string>>)
    requires RestoreGrid(name, grid).Ok?
    ensures var c := RestoreGrid(name, grid).value;
      && c.name == name && |c.days| >= 1 && |c.scheduleNames| == RestoredSlots
      && Rectangular(c) && WellFormed(c)
  {
    var c := RestoreGrid(name, grid).value;
    var names := RestoredNames(grid);
    assert c.scheduleNames == names;
    forall i | 0 <= i < |c.days|
      ensures WellFormedDay(c.days[i], names) && |c.days[i].schedule| == |names|
    {
      assert c.days[i] == RestoredDay(grid, names, i + 1);
      RestoredDayWellFormed(grid, names, i + 1);
    }
  }

  lemma RestoredDayWellFormed(grid: seq<seq<string>>, names: seq<string>, r: nat)
    requires |names| == RestoredSlots
    ensures WellFormedDay(RestoredDay(grid, names, r), names)
  {
    var d := RestoredDay(grid, names, r);
    assert forall j :: 0 <= j < |d.schedule| ==> d.schedule[j].time == NormaliseTime(names[j]);
  }

  /** Restoring a sheet cleared by a failed `store` fails. */
  lemma RestoreCleared(sheets: map<string, seq<seq<string>>>, name: string)
    ensures RestoreSpec(sheets[name := []], name) == Err(EmptySnapshot)
  {
  }

  /** What `store` writes, `restore` reads back, for a calendar of the shape
      the court pages have: seven schedule names, a slot under each, every slot
      time normalised from its name, and a non-empty last date. */
  lemma StoreRestoreRoundTrip(c: Calendar)
    requires |c.scheduleNames| == RestoredSlots && Rectangular(c) && WellFormed(c)
    requires |c.days| >= 1 && RowFilled(DayRow(c.days[|c.days| - 1]))
    ensures RestoreGrid(c.name, Layout(c)) == Ok(c)
  {
    var grid := Layout(c);
    var n := |c.days|;
    LayoutLastRow(c);
    LayoutNames(c);
    var days := seq(n, i requires 0 <= i < n => RestoredDay(grid, c.scheduleNames, i + 1));
    forall i | 0 <= i < n ensures days[i] == c.days[i] {
      LayoutDay(c, i);
    }
    assert days == c.days;
  }

  lemma LayoutLastRow(c: Calendar)
    requires |c.days| >= 1 && RowFilled(DayRow(c.days[|c.days| - 1]))
    ensures LastRow(Layout(c)) == |c.days| + 1
  {
    var grid := Layout(c);
    assert grid[|c.days|] == DayRow(c.days[|c.days| - 1]);
  }

  lemma LayoutNames(c: Calendar)
    requires |c.scheduleNames| == RestoredSlots
    ensures RestoredNames(Layout(c)) == c.scheduleNames
  {
    var grid := Layout(c);
    assert grid[0] == ["date"] + c.scheduleNames;
    forall k | 0 <= k < RestoredSlots ensures RestoredNames(grid)[k] == c.scheduleNames[k] {
      assert CellAt(grid, 0, k + 1) == grid[0][k + 1];
    }
  }

  lemma LayoutDay(c: Calendar, i: nat)
    requires |c.scheduleNames| == RestoredSlots && Rectangular(c) && WellFormed(c)
    requires i < |c.days|
    ensures RestoredDay(Layout(c), c.scheduleNames, i + 1) == c.days[i]
  {
    var grid := Layout(c);
    var d := c.days[i];
    var row := grid[i + 1];
    assert row == DayRow(d);
    assert WellFormedDay(d, c.scheduleNames);
    var restored := RestoredDay(grid, c.scheduleNames, i + 1);
    assert CellAt(grid, i + 1, 0) == d.date;
    forall k | 0 <= k < RestoredSlots ensures restored.schedule[k] == d.schedule[k] {
      assert CellAt(grid, i + 1, k + 1) == row[k + 1] == d.schedule[k].value;
    }
    assert restored.schedule == d.schedule;
  }

  /** A calendar of that shape survives a successful `store` into any workbook. */
  lemma StoredIsRestored(sheets: map<string, seq<seq<string>>>, c: Calendar)
    requires |c.scheduleNames| == RestoredSlots && Rectangular(c) && WellFormed(c)
    requires |c.days| >= 1 && RowFilled(DayRow(c.days[|c.days| - 1]))
    ensures RestoreSpec(sheets[c.name := Layout(c)], c.name) == Ok(Some(c))
  {
    StoreRestoreRoundTrip(c);
  }

  /** The index loop of `restore` over the cells of one data row. */
  method ReadDay(grid: seq<seq<string>>, names: seq<string>, row: nat) returns (d: DayAvailability)
    requires |names| == RestoredSlots
    ensures d == RestoredDay(grid, names, row)
  {
    ghost var want := RestoredDay(grid, names, row).schedule;
    var schedule: seq<Availability> := [];
    for i := 1 to RestoredSlots + 1
      invariant schedule == want[..i - 1]
    {
      assert want[i - 1] == NewAvailability(names[i - 1], CellAt(grid, row, i));
      assert want[..i] == want[..i - 1] + [want[i - 1]];
      schedule := schedule + [NewAvailability(names[i - 1], CellAt(grid, row, i))];
    }
    assert schedule == want;
    d := DayAvailability(CellAt(grid, row, 0), schedule);
  }

  /** The header loop of `restore`: columns 2 to 8 of the first row. */
  method ReadNames(grid: seq<seq<string>>) returns (names: seq<string>)
    ensures names == RestoredNames(grid)
  {
    names := [];
    for k := 0 to RestoredSlots
      invariant names == RestoredNames(grid)[..k]
    {
      names := names + [CellAt(grid, 0, k + 1)];
    }
  }

  /** The `forEach` of `restore` over rows 2 to `last`. */
  method ReadDays(grid: seq<seq<string>>, names: seq<string>, last: nat) returns (days: seq<DayAvailability>)
    requires |names| == RestoredSlots && last >= 1
    ensures days == seq(last - 1, i requires 0 <= i < last - 1 => RestoredDay(grid, names, i + 1))
  {
    ghost var want := seq(last - 1, i requires 0 <= i < last - 1 => RestoredDay(grid, names, i + 1));
    days := [];
    for row := 1 to last
      invariant days == want[..row - 1]
    {
      var day := ReadDay(grid, names, row);
      assert want[..row] == want[..row - 1] + [day];
      days := days + [day];
    }
    assert want[..last - 1] == want;
  }

  /** The reading loops of `restore`. */
  method Restore(name: string, book: Workbook) returns (r: Result<Option<Calendar>>)
    ensures r == RestoreSpec(book.sheets, name)
  {
    if name !in book.sheets {
      return Ok(None);
    }
    var grid := book.sheets[name];
    var names := ReadNames(grid);
    var last := LastRow(grid);
    if last < 2 {
      return Err(EmptySnapshot);
    }
    var days := ReadDays(grid, names, last);
    return Ok(Some(Calendar(name, days, names)));
  }

}
