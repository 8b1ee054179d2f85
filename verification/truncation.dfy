/**
 How `ask` shortens a documentation passage: the passage is stripped, and when it
 is longer than 300 characters it is cut into `.`-separated segments, which are
 put back, each followed by `.`, for as long as the text so far plus the next
 segment is shorter than 300 characters; the result is stripped again.
 */
module Truncation {
  import opened Text

  const Limit: nat := 300

  /** The index of the first `.` of `s` at or after `i`, or `|s|` when there is none. */
  function DotFrom(s: string, i: nat): (n: nat)
    requires i <= |s|
    ensures i <= n <= |s|
    ensures n < |s| ==> s[n] == '.'
    ensures forall k :: i <= k < n ==> s[k] != '.'
    decreases |s| - i
  {
    if i == |s| || s[i] == '.' then i else DotFrom(s, i + 1)
  }

  /** The index of the first `.` of `s`, or `|s|` when there is none. */
  function FirstDot(s: string): (i: nat)
    ensures i <= |s|
    ensures i < |s| ==> s[i] == '.'
    ensures forall k :: 0 <= k < i ==> s[k] != '.'
  {
    DotFrom(s, 0)
  }

  /** `s.split('.')`: every segment between two dots, the empty ones included. */
  function SplitDots(s: string): (r: seq<string>)
    ensures |r| >= 1
    ensures r[0] == s[..FirstDot(s)]
    decreases |s|
  {
    var i := FirstDot(s);
    if i == |s| then [s] else [s[..i]] + SplitDots(s[i + 1..])
  }

  /** The loop that rebuilds the text from its segments while it stays under the limit. */
  function Shorten(segments: seq<string>, shortened: string): string {
    if segments == [] then shortened
    else if |shortened + segments[0]| < Limit then Shorten(segments[1..], shortened + segments[0] + ".")
    else shortened
  }

  /**
   Reference definition: the length of the longest prefix of `s[..n]` that ends
   with a `.`, or 0 when `s[..n]` has no `.`.
   */
  function DotPrefixLength(s: string, n: nat): (k: nat)
    requires n <= |s|
    ensures k <= n
    ensures k == 0 || s[k - 1] == '.'
    ensures forall j :: k <= j < n ==> s[j] != '.'
  {
    if n == 0 then 0 else if s[n - 1] == '.' then n else DotPrefixLength(s, n - 1)
  }

  /** The answer a documentation passage becomes. */
  function Truncate(content: string): (r: string)
    ensures |Strip(content)| <= Limit ==> r == Strip(content)
    ensures |Strip(content)| > Limit ==> r == Strip(content)[..DotPrefixLength(Strip(content), Limit)]
  {
    var answer := Strip(content);
    if |answer| > Limit then
      ShortenIsDotPrefix(answer);
      StrippedDotPrefix(answer, DotPrefixLength(answer, Limit));
      Strip(Shorten(SplitDots(answer), ""))
    else answer
  }

  // ---------------------------------------------------------------------------

  /** No `.` below `n` means no prefix ending in `.`. */
  lemma {:induction false} DotPrefixNone(s: string, n: nat)
    requires n <= |s| && forall j :: 0 <= j < n ==> s[j] != '.'
    ensures DotPrefixLength(s, n) == 0
    decreases n
  {
    if n > 0 {
      DotPrefixNone(s, n - 1);
    }
  }

  /** Past a `.` at `i`, the longest dot prefix is that `.` plus the longest one of the rest. */
  lemma {:induction false} DotPrefixShift(s: string, i: nat, n: nat)
    requires i < n <= |s| && s[i] == '.'
    ensures DotPrefixLength(s, n) == i + 1 + DotPrefixLength(s[i + 1..], n - i - 1)
    decreases n
  {
    if n > i + 1 {
      assert s[i + 1..][n - i - 2] == s[n - 1];
      if s[n - 1] != '.' {
        DotPrefixShift(s, i, n - 1);
      }
    }
  }

  lemma SplitDotsAt(t: string)
    requires FirstDot(t) < |t|
    ensures SplitDots(t) == [t[..FirstDot(t)]] + SplitDots(t[FirstDot(t) + 1..])
  {
    var i := FirstDot(t);
    assert i != |t|;
  }

  lemma SplitDotsWhole(t: string)
    requires FirstDot(t) == |t|
    ensures SplitDots(t) == [t]
  {
  }

  lemma ShortenCons(segment: string, rest: seq<string>, acc: string)
    ensures Shorten([segment] + rest, acc)
         == if |acc + segment| < Limit then Shorten(rest, acc + segment + ".") else acc
  {
    assert ([segment] + rest)[1..] == rest;
  }

  lemma {:induction false} ShortenFrom(t: string, acc: string)
    requires |acc| <= Limit && |acc| + |t| >= Limit
    ensures Shorten(SplitDots(t), acc) == acc + t[..DotPrefixLength(t, Limit - |acc|)]
    decreases |t|
  {
    var i := FirstDot(t);
    if i == |t| {
      ShortenLastSegment(t, acc);
    } else if |acc| + i < Limit {
      var rest := t[i + 1..];
      SplitDotsAt(t);
      ShortenCons(t[..i], SplitDots(rest), acc);
      ShortenFrom(rest, acc + t[..i] + ".");
      DotPrefixStep(t, acc, i);
    } else {
      ShortenStops(t, acc);
    }
  }

  /** A last segment that does not fit leaves the text as it is. */
  lemma ShortenLastSegment(t: string, acc: string)
    requires |acc| <= Limit && |acc| + |t| >= Limit && FirstDot(t) == |t|
    ensures Shorten(SplitDots(t), acc) == acc + t[..DotPrefixLength(t, Limit - |acc|)]
  {
    SplitDotsWhole(t);
    ShortenCons(t, [], acc);
    assert [t] + [] == [t];
    DotPrefixNone(t, Limit - |acc|);
    assert acc + t[..0] == acc;
  }

  /** A segment that does not fit ends the loop. */
  lemma ShortenStops(t: string, acc: string)
    requires |acc| <= Limit && FirstDot(t) < |t| && |acc| + FirstDot(t) >= Limit
    ensures Shorten(SplitDots(t), acc) == acc + t[..DotPrefixLength(t, Limit - |acc|)]
  {
    var i := FirstDot(t);
    SplitDotsAt(t);
    ShortenCons(t[..i], SplitDots(t[i + 1..]), acc);
    DotPrefixNone(t, Limit - |acc|);
    assert acc + t[..0] == acc;
  }

  /** Taking the segment before the `.` at `i` keeps the result on the longest dot prefix. */
  lemma DotPrefixStep(t: string, acc: string, i: nat)
    requires i < |t| && t[i] == '.' && |acc| + i < Limit && |acc| + |t| >= Limit
    ensures var m := Limit - |acc|;
      (acc + t[..i] + ".") + t[i + 1..][..DotPrefixLength(t[i + 1..], m - i - 1)]
        == acc + t[..DotPrefixLength(t, m)]
  {
    var m := Limit - |acc|;
    DotPrefixShift(t, i, m);
    var d := DotPrefixLength(t[i + 1..], m - i - 1);
    PrefixAfterDot(t, i, d);
  }

  lemma PrefixAfterDot(t: string, i: nat, d: nat)
    requires i < |t| && t[i] == '.' && i + 1 + d <= |t|
    ensures t[..i + 1 + d] == t[..i] + "." + t[i + 1..][..d]
  {
  }

  /** On a text of at least `Limit` characters the loop builds the longest dot prefix within the limit. */
  lemma ShortenIsDotPrefix(a: string)
    requires |a| >= Limit
    ensures Shorten(SplitDots(a), "") == a[..DotPrefixLength(a, Limit)]
  {
    ShortenFrom(a, "");
    assert "" + a[..DotPrefixLength(a, Limit)] == a[..DotPrefixLength(a, Limit)];
  }

  /** A prefix of a stripped text that ends in `.` is stripped as well. */
  lemma StrippedDotPrefix(a: string, k: nat)
    requires IsStripped(a) && k <= |a| && (k == 0 || a[k - 1] == '.')
    ensures Strip(a[..k]) == a[..k]
  {
  }

  /**
   A passage longer than the limit becomes the longest prefix of its stripped text
   that ends with `.` and has at most 300 characters; that answer is empty exactly
   when the first `.`-segment has at least 300 characters. A shorter passage is
   only stripped.
   */
  lemma TruncateCharacterised(content: string)
    ensures var a, r := Strip(content), Truncate(content);
      && (|a| <= Limit ==> r == a)
      && (|a| > Limit ==>
            && r <= a && |r| <= Limit
            && (r == "" || r[|r| - 1] == '.')
            && (forall j :: |r| <= j < Limit ==> a[j] != '.')
            && (r == "" <==> |SplitDots(a)[0]| >= Limit))
  {
    var a := Strip(content);
    if |a| > Limit {
      LongPassage(a);
    }
  }

  lemma LongPassage(a: string)
    requires |a| > Limit
    ensures var r := a[..DotPrefixLength(a, Limit)];
      && r <= a && |r| <= Limit
      && (r == "" || r[|r| - 1] == '.')
      && (forall j :: |r| <= j < Limit ==> a[j] != '.')
      && (r == "" <==> |SplitDots(a)[0]| >= Limit)
  {
    var k := DotPrefixLength(a, Limit);
    var i := FirstDot(a);
    assert |SplitDots(a)[0]| == i;
    if i < Limit {
      assert a[i] == '.';
      assert k > 0;
    } else {
      DotPrefixNone(a, Limit);
    }
  }

  // ---------------------------------------------------------------------------

  /** `'.'.join` taken from the front. */
  lemma {:induction false} JoinWithCons(sep: string, x: string, xs: seq<string>)
    requires xs != []
    ensures JoinWith(sep, [x] + xs) == x + sep + JoinWith(sep, xs)
    decreases |xs|
  {
    var zs := [x] + xs;
    var y := xs[|xs| - 1];
    assert zs[|zs| - 1] == y;
    if |xs| == 1 {
      assert zs[..1] == [x];
      assert JoinWith(sep, zs) == JoinWith(sep, [x]) + sep + y;
    } else {
      var ys := xs[..|xs| - 1];
      assert zs[..|zs| - 1] == [x] + ys;
      assert JoinWith(sep, zs) == JoinWith(sep, [x] + ys) + sep + y;
      JoinWithCons(sep, x, ys);
      assert JoinWith(sep, xs) == JoinWith(sep, ys) + sep + y;
      ConcatAssoc(x + sep, JoinWith(sep, ys), sep + y);
    }
  }

  /** Joining the segments with `.` gives back the text, and no segment holds a `.`. */
  lemma SplitDotsRoundTrip(s: string)
    ensures JoinWith(".", SplitDots(s)) == s
    ensures forall k, j :: 0 <= k < |SplitDots(s)| && 0 <= j < |SplitDots(s)[k]| ==> SplitDots(s)[k][j] != '.'
  {
    SplitDotsJoin(s);
    SplitDotsDotFree(s);
  }

  lemma {:induction false} SplitDotsJoin(s: string)
    ensures JoinWith(".", SplitDots(s)) == s
    decreases |s|
  {
    var i := FirstDot(s);
    if i < |s| {
      var rest := s[i + 1..];
      var segs := SplitDots(rest);
      SplitDotsJoin(rest);
      SplitDotsAt(s);
      JoinWithCons(".", s[..i], segs);
      RejoinAtDot(s, i);
    } else {
      SplitDotsWhole(s);
    }
  }

  /** Cutting out the `.` at `i` and putting it back gives the text. */
  lemma RejoinAtDot(s: string, i: nat)
    requires i < |s| && s[i] == '.'
    ensures s[..i] + "." + s[i + 1..] == s
  {
    assert s == s[..i] + [s[i]] + s[i + 1..];
  }

  lemma {:induction false} SplitDotsDotFree(s: string)
    ensures forall k, j :: 0 <= k < |SplitDots(s)| && 0 <= j < |SplitDots(s)[k]| ==> SplitDots(s)[k][j] != '.'
    decreases |s|
  {
    var i := FirstDot(s);
    if i < |s| {
      var rest := s[i + 1..];
      SplitDotsDotFree(rest);
      SplitDotsAt(s);
      SegmentsHaveNoDot(s[..i], SplitDots(rest));
    } else {
      SplitDotsWhole(s);
    }
  }

  lemma SegmentsHaveNoDot(first: string, rest: seq<string>)
    requires forall j :: 0 <= j < |first| ==> first[j] != '.'
    requires forall k, j :: 0 <= k < |rest| && 0 <= j < |rest[k]| ==> rest[k][j] != '.'
    ensures forall k, j :: 0 <= k < |[first] + rest| && 0 <= j < |([first] + rest)[k]| ==> ([first] + rest)[k][j] != '.'
  {
    var segs := [first] + rest;
    forall k, j | 0 <= k < |segs| && 0 <= j < |segs[k]|
      ensures segs[k][j] != '.'
    {
      if k > 0 {
        assert segs[k] == rest[k - 1];
      }
    }
  }
}
