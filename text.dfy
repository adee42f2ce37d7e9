/** The few JavaScript string operations the scraper relies on, over `seq<char>`:
    `trim`, `join`, `split` on one character, and "is a substring of". */
module Text {

  /** The WhiteSpace and LineTerminator code points of ECMAScript: what
      `String.prototype.trim` removes and what `parseInt` skips. */
  predicate IsJsWhitespace(c: char) {
    ('\t' <= c <= '\r') || c == ' ' || c == '\U{00A0}' || c == '\U{1680}'
    || ('\U{2000}' <= c <= '\U{200A}') || c == '\U{2028}' || c == '\U{2029}' || c == '\U{202F}'
    || c == '\U{205F}' || c == '\U{3000}' || c == '\U{FEFF}'
  }

  predicate IsAsciiDigit(c: char) {
    '0' <= c <= '9'
  }

  /** `x` occurs in `s` as a contiguous piece. */
  ghost predicate IsInfix(x: string, s: string) {
    exists i :: 0 <= i && IsInfixAt(x, s, i)
  }

  /** `x` occurs in `s` starting at index `i`. */
  ghost predicate IsInfixAt(x: string, s: string, i: nat) {
    i + |x| <= |s| && s[i..i + |x|] == x
  }

  /** `s.trimStart()`: the suffix left after dropping leading whitespace. */
  function TrimStart(s: string): (r: string)
    ensures |r| <= |s| && r == s[|s| - |r|..]
    ensures forall k :: 0 <= k < |s| - |r| ==> IsJsWhitespace(s[k])
    ensures r == [] || !IsJsWhitespace(r[0])
  {
    if |s| > 0 && IsJsWhitespace(s[0]) then
      var r := TrimStart(s[1..]);
      assert s[1..][|s| - 1 - |r|..] == s[|s| - |r|..];
      assert forall k :: 1 <= k < |s| ==> s[k] == s[1..][k - 1];
      r
    else s
  }

  /** `s.trimEnd()`: the prefix left after dropping trailing whitespace. */
  function TrimEnd(s: string): (r: string)
    ensures |r| <= |s| && r == s[..|r|]
    ensures forall k :: |r| <= k < |s| ==> IsJsWhitespace(s[k])
    ensures r == [] || !IsJsWhitespace(r[|r| - 1])
  {
    if |s| > 0 && IsJsWhitespace(s[|s| - 1]) then TrimEnd(s[..|s| - 1]) else s
  }

  /** `s.trim()`: a piece of `s` with no whitespace at either end; a string that
      already has none at its ends comes back unchanged. */
  function Trim(s: string): (r: string)
    ensures |r| <= |s|
    ensures r == [] || (!IsJsWhitespace(r[0]) && !IsJsWhitespace(r[|r| - 1]))
    ensures IsInfix(r, s)
    ensures s == [] || (!IsJsWhitespace(s[0]) && !IsJsWhitespace(s[|s| - 1])) ==> r == s
    ensures exists i :: TrimmedAt(s, r, i)
  {
    var t := TrimStart(s);
    var r := TrimEnd(t);
    TrimInfix(s, t, r);
    TrimPieces(s, t, r);
    TrimEnds(t, r);
    r
  }

  lemma TrimInfix(s: string, t: string, r: string)
    requires |t| <= |s| && t == s[|s| - |t|..]
    requires |r| <= |t| && r == t[..|r|]
    ensures IsInfixAt(r, s, |s| - |t|) && IsInfix(r, s)
  {
    assert s[|s| - |t|..][..|r|] == s[|s| - |t|..|s| - |t| + |r|];
    assert IsInfixAt(r, s, |s| - |t|);
  }

  /** Every character of `x` is whitespace. */
  predicate AllWhitespace(x: string) {
    forall k :: 0 <= k < |x| ==> IsJsWhitespace(x[k])
  }

  /** `s` is whitespace, then `r` from index `i`, then whitespace: `r` is `s`
      with some whitespace cut from each end. */
  predicate TrimmedAt(s: string, r: string, i: nat) {
    i + |r| <= |s| && AllWhitespace(s[..i]) && s[i..i + |r|] == r && AllWhitespace(s[i + |r|..])
  }

  lemma TrimPieces(s: string, t: string, r: string)
    requires |t| <= |s| && t == s[|s| - |t|..]
    requires forall k :: 0 <= k < |s| - |t| ==> IsJsWhitespace(s[k])
    requires |r| <= |t| && r == t[..|r|]
    requires forall k :: |r| <= k < |t| ==> IsJsWhitespace(t[k])
    ensures TrimmedAt(s, r, |s| - |t|)
  {
    var i := |s| - |t|;
    assert s[i..i + |r|] == t[..|r|];
    assert s[i + |r|..] == t[|r|..];
  }

  lemma TrimEnds(t: string, r: string)
    requires |r| <= |t| && r == t[..|r|]
    ensures r != [] ==> r[0] == t[0]
  {
  }

  /** `parts.join(sep)`. */
  function Join(parts: seq<string>, sep: string): string {
    if |parts| == 0 then ""
    else if |parts| == 1 then parts[0]
    else parts[0] + sep + Join(parts[1..], sep)
  }

  /** Every part occurs in the joined string. */
  lemma {:induction false} JoinInfix(parts: seq<string>, sep: string, i: nat)
    requires i < |parts|
    ensures IsInfix(parts[i], Join(parts, sep))
  {
    var s := Join(parts, sep);
    if |parts| == 1 || i == 0 {
      assert IsInfixAt(parts[0], s, 0);
    } else {
      JoinInfix(parts[1..], sep, i - 1);
      var rest := Join(parts[1..], sep);
      var k :| 0 <= k && IsInfixAt(parts[i], rest, k);
      var off := |parts[0]| + |sep|;
      assert s == parts[0] + sep + rest;
      assert s[off + k..off + k + |parts[i]|] == rest[k..k + |parts[i]|];
      assert IsInfixAt(parts[i], s, off + k);
    }
  }

  /** Where part `k` of `parts` starts in `Join(parts, sep)`: after each
      earlier part and its separator. */
  function JoinOffset(parts: seq<string>, sep: string, k: nat): nat
    requires k <= |parts|
  {
    if k == 0 then 0 else JoinOffset(parts, sep, k - 1) + |parts[k - 1]| + |sep|
  }

  /** Part `k` sits at its offset in `s`, counted from `at`. */
  ghost predicate PartAt(parts: seq<string>, sep: string, s: string, at: nat, k: nat)
    requires k < |parts|
  {
    IsInfixAt(parts[k], s, at + JoinOffset(parts, sep, k))
  }

  /** A separator follows part `k` in `s`. */
  ghost predicate SepAfter(parts: seq<string>, sep: string, s: string, at: nat, k: nat)
    requires k < |parts|
  {
    IsInfixAt(sep, s, at + JoinOffset(parts, sep, k) + |parts[k]|)
  }

  /** From index `at` on, `s` is exactly the parts in order with `sep` between
      consecutive ones: each part and each separator at its offset, and
      nothing after the last part. */
  ghost predicate LaidOut(parts: seq<string>, sep: string, s: string, at: nat) {
    && |parts| >= 1
    && at + JoinOffset(parts, sep, |parts| - 1) + |parts[|parts| - 1]| == |s|
    && (forall k :: 0 <= k < |parts| ==> PartAt(parts, sep, s, at, k))
    && (forall k :: 0 <= k < |parts| - 1 ==> SepAfter(parts, sep, s, at, k))
  }

  lemma {:induction false} JoinOffsetTail(parts: seq<string>, sep: string, k: nat)
    requires 1 <= k <= |parts|
    ensures JoinOffset(parts, sep, k) == |parts[0]| + |sep| + JoinOffset(parts[1..], sep, k - 1)
  {
    if k > 1 {
      JoinOffsetTail(parts, sep, k - 1);
      assert parts[1..][k - 2] == parts[k - 1];
    }
  }

  /** Putting text in front moves a piece right by its length. */
  lemma InfixAtShift(x: string, pre: string, s: string, i: nat)
    requires IsInfixAt(x, s, i)
    ensures IsInfixAt(x, pre + s, |pre| + i)
  {
    assert (pre + s)[|pre| + i..|pre| + i + |x|] == s[i..i + |x|];
  }

  /** A string sits at the front of anything it starts. */
  lemma InfixAtFront(x: string, rest: string)
    ensures IsInfixAt(x, x + rest, 0)
  {
    assert (x + rest)[0..|x|] == x;
  }

  /** A template literal: its pieces, fixed words and values, one after another. */
  function Concat(pieces: seq<string>): string {
    if pieces == [] then "" else pieces[0] + Concat(pieces[1..])
  }

  /** Where piece `k` starts in `Concat(pieces)`. */
  function ConcatOffset(pieces: seq<string>, k: nat): nat
    requires k <= |pieces|
  {
    if k == 0 then 0 else ConcatOffset(pieces, k - 1) + |pieces[k - 1]|
  }

  lemma {:induction false} ConcatOffsetTail(pieces: seq<string>, k: nat)
    requires 1 <= k <= |pieces|
    ensures ConcatOffset(pieces, k) == |pieces[0]| + ConcatOffset(pieces[1..], k - 1)
  {
    if k > 1 {
      ConcatOffsetTail(pieces, k - 1);
      assert pieces[1..][k - 2] == pieces[k - 1];
    }
  }

  /** Every piece of a template sits at its offset. */
  lemma {:induction false} ConcatPieceAt(pieces: seq<string>, k: nat)
    requires k < |pieces|
    ensures IsInfixAt(pieces[k], Concat(pieces), ConcatOffset(pieces, k))
    decreases k
  {
    if k == 0 {
      InfixAtFront(pieces[0], Concat(pieces[1..]));
    } else {
      ConcatPieceAt(pieces[1..], k - 1);
      assert pieces[1..][k - 1] == pieces[k];
      InfixAtShift(pieces[k], pieces[0], Concat(pieces[1..]), ConcatOffset(pieces[1..], k - 1));
      ConcatOffsetTail(pieces, k);
    }
  }

  /** The template is as long as its pieces together. */
  lemma {:induction false} ConcatLength(pieces: seq<string>)
    requires |pieces| >= 1
    ensures |Concat(pieces)| == ConcatOffset(pieces, |pieces| - 1) + |pieces[|pieces| - 1]|
    decreases |pieces|
  {
    if |pieces| > 1 {
      ConcatLength(pieces[1..]);
      ConcatOffsetTail(pieces, |pieces| - 1);
    }
  }

  /** A piece of a template at an offset computed by the caller. */
  lemma PieceAtOffset(pieces: seq<string>, k: nat, x: string, off: nat)
    requires k < |pieces| && pieces[k] == x && ConcatOffset(pieces, k) == off
    ensures IsInfixAt(x, Concat(pieces), off)
  {
    ConcatPieceAt(pieces, k);
  }

  /** Putting text before a laid-out string moves every offset by its length. */
  lemma LaidOutShift(parts: seq<string>, sep: string, pre: string, s: string, at: nat)
    requires LaidOut(parts, sep, s, at)
    ensures LaidOut(parts, sep, pre + s, |pre| + at)
  {
    var t, b := pre + s, |pre| + at;
    forall k | 0 <= k < |parts|
      ensures PartAt(parts, sep, t, b, k)
    {
      assert PartAt(parts, sep, s, at, k);
      InfixAtShift(parts[k], pre, s, at + JoinOffset(parts, sep, k));
    }
    forall k | 0 <= k < |parts| - 1
      ensures SepAfter(parts, sep, t, b, k)
    {
      assert SepAfter(parts, sep, s, at, k);
      InfixAtShift(sep, pre, s, at + JoinOffset(parts, sep, k) + |parts[k]|);
    }
  }

  lemma {:induction false} JoinLength(parts: seq<string>, sep: string)
    requires |parts| >= 1
    ensures JoinOffset(parts, sep, |parts| - 1) + |parts[|parts| - 1]| == |Join(parts, sep)|
    decreases |parts|
  {
    if |parts| > 1 {
      JoinLength(parts[1..], sep);
      JoinOffsetTail(parts, sep, |parts| - 1);
    }
  }

  lemma JoinUnfold(parts: seq<string>, sep: string)
    requires |parts| >= 2
    ensures Join(parts, sep) == (parts[0] + sep) + Join(parts[1..], sep)
  {
  }

  lemma {:induction false} JoinPartAt(parts: seq<string>, sep: string, k: nat)
    requires k < |parts|
    ensures PartAt(parts, sep, Join(parts, sep), 0, k)
    decreases k
  {
    var s := Join(parts, sep);
    if k == 0 {
      if |parts| >= 2 {
        JoinUnfold(parts, sep);
        InfixAtSplit(parts[0], sep, Join(parts[1..], sep));
      } else {
        assert s[0..|parts[0]|] == parts[0];
      }
    } else {
      var tail := parts[1..];
      var pre := parts[0] + sep;
      JoinPartAt(tail, sep, k - 1);
      assert tail[k - 1] == parts[k];
      JoinUnfold(parts, sep);
      JoinOffsetTail(parts, sep, k);
      InfixAtMoved(parts[k], Join(tail, sep), 0 + JoinOffset(tail, sep, k - 1), pre, s, 0 + JoinOffset(parts, sep, k));
    }
  }

  lemma {:induction false} JoinSepAfter(parts: seq<string>, sep: string, k: nat)
    requires k < |parts| - 1
    ensures SepAfter(parts, sep, Join(parts, sep), 0, k)
    decreases k
  {
    var s := Join(parts, sep);
    JoinUnfold(parts, sep);
    if k == 0 {
      InfixAtSplit(parts[0], sep, Join(parts[1..], sep));
    } else {
      var tail := parts[1..];
      var pre := parts[0] + sep;
      JoinSepAfter(tail, sep, k - 1);
      assert tail[k - 1] == parts[k];
      JoinOffsetTail(parts, sep, k);
      InfixAtMoved(sep, Join(tail, sep), 0 + JoinOffset(tail, sep, k - 1) + |tail[k - 1]|,
                   pre, s, 0 + JoinOffset(parts, sep, k) + |parts[k]|);
    }
  }

  /** In `(a + x) + b`, `a` starts at 0 and `x` at `|a|`. */
  lemma InfixAtSplit(a: string, x: string, b: string)
    ensures IsInfixAt(a, (a + x) + b, 0) && IsInfixAt(x, (a + x) + b, |a|)
  {
    var t := (a + x) + b;
    assert t[0..|a|] == a;
    assert t[|a|..|a| + |x|] == x;
  }

  /** `InfixAtShift` with the shifted string and offset named by the caller. */
  lemma InfixAtMoved(x: string, s: string, i: nat, pre: string, t: string, j: nat)
    requires IsInfixAt(x, s, i) && t == pre + s && j == |pre| + i
    ensures IsInfixAt(x, t, j)
  {
    InfixAtShift(x, pre, s, i);
  }

  /** `parts.join(sep)` lays the parts out in order, `sep` between each two. */
  lemma JoinLaidOut(parts: seq<string>, sep: string)
    requires |parts| >= 1
    ensures LaidOut(parts, sep, Join(parts, sep), 0)
  {
    JoinLength(parts, sep);
    forall k | 0 <= k < |parts|
      ensures PartAt(parts, sep, Join(parts, sep), 0, k)
    {
      JoinPartAt(parts, sep, k);
    }
    forall k | 0 <= k < |parts| - 1
      ensures SepAfter(parts, sep, Join(parts, sep), 0, k)
    {
      JoinSepAfter(parts, sep, k);
    }
  }

  /** A heading followed by joined parts: the heading first, then the parts
      laid out after it. */
  lemma HeadThenJoin(head: string, parts: seq<string>, sep: string)
    ensures IsInfixAt(head, head + Join(parts, sep), 0)
    ensures |parts| > 0 ==> LaidOut(parts, sep, head + Join(parts, sep), |head|)
  {
    InfixAtFront(head, Join(parts, sep));
    if |parts| > 0 {
      JoinLaidOut(parts, sep);
      LaidOutShift(parts, sep, head, Join(parts, sep), 0);
    }
  }

  /** An infix of an infix is an infix. */
  lemma InfixTransitive(x: string, y: string, z: string)
    requires IsInfix(x, y) && IsInfix(y, z)
    ensures IsInfix(x, z)
  {
    var i :| 0 <= i && IsInfixAt(x, y, i);
    var j :| 0 <= j && IsInfixAt(y, z, j);
    forall k | 0 <= k < |x|
      ensures z[j + i..j + i + |x|][k] == x[k]
    {
      assert x[k] == y[i + k] == z[j + i + k];
    }
    assert IsInfixAt(x, z, j + i);
  }

  lemma AppendAssoc<T>(a: seq<T>, b: seq<T>, c: seq<T>)
    ensures (a + b) + c == a + (b + c)
  {
  }

  lemma TakeSnoc<T>(s: seq<T>, k: nat)
    requires 0 < k <= |s|
    ensures s[..k] == s[..k - 1] + [s[k - 1]]
  {
  }

  /** `s.split(c)[0]`: the text before the first `c`, or all of `s`. */
  function TakeUntil(s: string, c: char): (r: string)
    ensures |r| <= |s| && r == s[..|r|] && c !in r
    ensures |r| < |s| ==> s[|r|] == c
  {
    if |s| == 0 || s[0] == c then [] else [s[0]] + TakeUntil(s[1..], c)
  }

  /** `s.split(c)` for a one-character separator. */
  function SplitOn(s: string, c: char): (parts: seq<string>)
    ensures |parts| >= 1
    ensures forall k :: 0 <= k < |parts| ==> c !in parts[k]
    decreases |s|
  {
    var head := TakeUntil(s, c);
    if |head| == |s| then [s] else [head] + SplitOn(s[|head| + 1..], c)
  }

  lemma {:induction false} TakeUntilWhole(a: string, c: char)
    requires c !in a
    ensures TakeUntil(a, c) == a
  {
    if |a| > 0 {
      assert a[0] in a;
      TakeUntilWhole(a[1..], c);
      assert a == [a[0]] + a[1..];
    }
  }

  lemma {:induction false} TakeUntilSeparated(a: string, c: char, b: string)
    requires c !in a
    ensures TakeUntil(a + [c] + b, c) == a
  {
    if |a| > 0 {
      assert a[0] in a;
      TakeUntilSeparated(a[1..], c, b);
      assert (a + [c] + b)[1..] == a[1..] + [c] + b;
      assert a == [a[0]] + a[1..];
    }
  }

  /** Splitting a join on its one-character separator gives the parts back,
      provided no part contains the separator. */
  lemma {:induction false} SplitJoin(parts: seq<string>, c: char)
    requires |parts| >= 1
    requires forall k :: 0 <= k < |parts| ==> c !in parts[k]
    ensures SplitOn(Join(parts, [c]), c) == parts
  {
    var s := Join(parts, [c]);
    if |parts| == 1 {
      TakeUntilWhole(parts[0], c);
    } else {
      var rest := Join(parts[1..], [c]);
      assert s == parts[0] + [c] + rest;
      TakeUntilSeparated(parts[0], c, rest);
      assert s[|parts[0]| + 1..] == rest;
      assert SplitOn(s, c) == [parts[0]] + SplitOn(rest, c);
      SplitJoin(parts[1..], c);
      assert parts == [parts[0]] + parts[1..];
    }
  }
}
