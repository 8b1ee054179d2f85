/**
 The Python `str` operations the assistant relies on: whitespace, `strip()`,
 `len(s.split())`, `lower()`, `re.findall(r'\w+', s)`, `needle in hay`,
 `sep.join(xs)` and `str(n)` for a natural number.
 */
module Text {

  /** Python's `str.isspace()`: the characters `split()` and `strip()` treat as whitespace. */
  predicate IsSpace(c: char) {
    var n := c as int;
    || (0x09 <= n <= 0x0D)
    || (0x1C <= n <= 0x20)
    || n == 0x85 || n == 0xA0 || n == 0x1680
    || (0x2000 <= n <= 0x200A)
    || n == 0x2028 || n == 0x2029 || n == 0x202F || n == 0x205F || n == 0x3000
  }

  /** The regular-expression class `\w`, restricted to ASCII. */
  predicate IsWordChar(c: char) {
    ('a' <= c <= 'z') || ('A' <= c <= 'Z') || ('0' <= c <= '9') || c == '_'
  }

  /** `str.lower()` on one character, restricted to ASCII. */
  function LowerChar(c: char): char {
    if 'A' <= c <= 'Z' then (c as int + 32) as char else c
  }

  function Lower(s: string): (r: string)
    ensures |r| == |s|
    ensures forall i :: 0 <= i < |s| ==> r[i] == LowerChar(s[i])
  {
    if s == "" then "" else [LowerChar(s[0])] + Lower(s[1..])
  }

  // ---------------------------------------------------------------------------
  // strip()

  /** The first index at or after `i` that is not whitespace, or `|s|`. */
  function SkipSpaces(s: string, i: nat): (n: nat)
    requires i <= |s|
    ensures i <= n <= |s|
    ensures forall k :: i <= k < n ==> IsSpace(s[k])
    ensures n == |s| || !IsSpace(s[n])
    decreases |s| - i
  {
    if i < |s| && IsSpace(s[i]) then SkipSpaces(s, i + 1) else i
  }

  /** The least `e` with `a <= e <= b` such that `s[e..b]` is all whitespace. */
  function TrimEnd(s: string, a: nat, b: nat): (e: nat)
    requires a <= b <= |s|
    ensures a <= e <= b
    ensures forall k :: e <= k < b ==> IsSpace(s[k])
    ensures e == a || !IsSpace(s[e - 1])
    decreases b - a
  {
    if a < b && IsSpace(s[b - 1]) then TrimEnd(s, a, b - 1) else b
  }

  /** True when `s` has no leading or trailing whitespace. */
  predicate IsStripped(s: string) {
    s == "" || (!IsSpace(s[0]) && !IsSpace(s[|s| - 1]))
  }

  /** Index of the first character `strip()` keeps. */
  function StripStart(s: string): nat
    ensures StripStart(s) <= |s|
  {
    SkipSpaces(s, 0)
  }

  /** `s.strip()`: removes whitespace only, and only at the two ends. */
  function Strip(s: string): (r: string)
    ensures IsStripped(r)
    ensures IsStripped(s) ==> r == s
    ensures StripStart(s) + |r| <= |s| && r == s[StripStart(s)..StripStart(s) + |r|]
    ensures forall k :: 0 <= k < StripStart(s) ==> IsSpace(s[k])
    ensures forall k :: StripStart(s) + |r| <= k < |s| ==> IsSpace(s[k])
  {
    var a := StripStart(s);
    var e := TrimEnd(s, a, |s|);
    assert IsStripped(s) ==> a == 0 && e == |s| && s[a..e] == s;
    s[a..e]
  }

  /**
   `strip()` is characterised by its shape: when `s` is a stripped text `t`
   with whitespace only before and after it, `s.strip()` is `t`.
   */
  lemma StripUnique(s: string, a: nat, t: string)
    requires a + |t| <= |s| && s[a..a + |t|] == t && IsStripped(t)
    requires forall k :: 0 <= k < a ==> IsSpace(s[k])
    requires forall k :: a + |t| <= k < |s| ==> IsSpace(s[k])
    ensures Strip(s) == t
  {
    var b := StripStart(s);
    var r := Strip(s);
    if t == "" {
      assert b == |s|;
    } else {
      assert s[a] == t[0];
      assert b == a;
      assert s[a + |t| - 1] == t[|t| - 1];
      assert |r| == |t| by {
        assert r != "" ==> s[b + |r| - 1] == r[|r| - 1];
      }
    }
  }

  /** A text of whitespace only strips to the empty string. */
  lemma StripBlank(s: string)
    requires forall i :: 0 <= i < |s| ==> IsSpace(s[i])
    ensures Strip(s) == ""
  {
    StripUnique(s, 0, "");
  }

  lemma StripIdempotent(s: string)
    ensures Strip(Strip(s)) == Strip(s)
  {
  }

  /** Leading whitespace never changes the stripped text. */
  lemma StripLeadingSpace(s: string)
    ensures Strip(" " + s) == Strip(s)
  {
    var a := StripStart(s);
    var t := Strip(s);
    var s' := " " + s;
    assert forall k :: 1 <= k <= |s| ==> s'[k] == s[k - 1];
    assert s'[a + 1..a + 1 + |t|] == t;
    StripUnique(s', a + 1, t);
  }

  // ---------------------------------------------------------------------------
  // len(s.split())

  /**
   The number of words of `s` that start in `s`, where `afterSpace` says whether
   the character just before `s` is whitespace (or absent).
   */
  function RunStarts(s: string, afterSpace: bool): nat {
    if s == "" then 0
    else (if afterSpace && !IsSpace(s[0]) then 1 else 0) + RunStarts(s[1..], IsSpace(s[0]))
  }

  /** `len(s.split())`: the number of maximal runs of non-whitespace characters. */
  function WordCount(s: string): nat {
    RunStarts(s, true)
  }

  /** Whether the last character of `a` is whitespace, or `before` when `a` is empty. */
  function EndsInSpace(a: string, before: bool): bool {
    if a == "" then before else IsSpace(a[|a| - 1])
  }

  lemma {:induction false} RunStartsAppend(a: string, b: string, p: bool)
    ensures RunStarts(a + b, p) == RunStarts(a, p) + RunStarts(b, EndsInSpace(a, p))
    decreases |a|
  {
    if a != "" {
      assert (a + b)[1..] == a[1..] + b;
      RunStartsAppend(a[1..], b, IsSpace(a[0]));
      if |a| > 1 {
        assert a[1..][|a[1..]| - 1] == a[|a| - 1];
      }
    } else {
      assert a + b == b;
    }
  }

  /** A word that is glued to the previous text can only lose one start. */
  lemma RunStartsGlued(b: string)
    ensures RunStarts(b, false) <= RunStarts(b, true) <= RunStarts(b, false) + 1
  {
  }

  /** `' '.join([a, b])` has exactly the words of `a` followed by those of `b`. */
  lemma WordCountSpaceJoin(a: string, b: string)
    ensures WordCount(a + " " + b) == WordCount(a) + WordCount(b)
  {
    RunStartsAppend(a + " ", b, true);
    RunStartsAppend(a, " ", true);
    assert (a + " ")[|a + " "| - 1] == ' ';
    assert RunStarts(" ", EndsInSpace(a, true)) == 0 by {
      assert " "[1..] == "";
    }
  }

  /** Gluing two texts together merges at most one pair of words. */
  lemma WordCountGlued(a: string, b: string)
    ensures WordCount(a) + WordCount(b) <= WordCount(a + b) + 1
    ensures WordCount(a + b) <= WordCount(a) + WordCount(b)
    ensures WordCount(a) <= WordCount(a + b)
    ensures WordCount(b) <= WordCount(a + b)
  {
    RunStartsAppend(a, b, true);
    RunStartsGlued(b);
    if !EndsInSpace(a, true) {
      assert a != "" && !IsSpace(a[|a| - 1]);
      assert WordCount(a) >= 1 by { LastNonSpaceStartsAWord(a); }
    }
  }

  lemma {:induction false} LastNonSpaceStartsAWord(a: string)
    requires a != "" && !IsSpace(a[|a| - 1])
    ensures RunStarts(a, true) >= 1
    decreases |a|
  {
    if IsSpace(a[0]) {
      assert a[1..][|a[1..]| - 1] == a[|a| - 1];
      LastNonSpaceStartsAWord(a[1..]);
    }
  }

  lemma WordCountLeadingSpace(s: string)
    ensures WordCount(" " + s) == WordCount(s)
  {
    assert (" " + s)[1..] == s;
  }

  /** A text has no words exactly when it is all whitespace. */
  lemma {:induction false} NoWordsIffBlank(s: string)
    ensures RunStarts(s, true) == 0 <==> forall i :: 0 <= i < |s| ==> IsSpace(s[i])
    decreases |s|
  {
    if s != "" {
      NoWordsIffBlank(s[1..]);
      if IsSpace(s[0]) {
        assert forall i :: 0 <= i < |s| - 1 ==> s[1..][i] == s[i + 1];
      }
    }
  }

  /** A stripped text has words exactly when it is non-empty. */
  lemma StrippedHasWords(s: string)
    requires IsStripped(s)
    ensures WordCount(s) > 0 <==> s != ""
  {
  }

  // ---------------------------------------------------------------------------
  // re.findall(r'\w+', s)

  /** The end of the run of word characters that starts at `i`. */
  function RunEnd(s: string, i: nat): (e: nat)
    requires i <= |s|
    ensures i <= e <= |s|
    ensures forall k :: i <= k < e ==> IsWordChar(s[k])
    ensures e == |s| || !IsWordChar(s[e])
    decreases |s| - i
  {
    if i < |s| && IsWordChar(s[i]) then RunEnd(s, i + 1) else i
  }

  /** The runs of word characters met when scanning `s` from position `i`. */
  function TokensFrom(s: string, i: nat): seq<string>
    requires i <= |s|
    decreases |s| - i
  {
    if i == |s| then []
    else if !IsWordChar(s[i]) then TokensFrom(s, i + 1)
    else
      var e := RunEnd(s, i);
      [s[i..e]] + TokensFrom(s, e)
  }

  /** `re.findall(r'\w+', s)`: the maximal runs of word characters, left to right. */
  function TokenList(s: string): seq<string> {
    TokensFrom(s, 0)
  }

  /** `set(re.findall(r'\w+', s))`. */
  function Tokens(s: string): set<string> {
    set t | t in TokenList(s)
  }

  /** `s[i..j]` is a maximal run of word characters of `s`. */
  predicate IsMaximalRun(s: string, i: int, j: int) {
    && 0 <= i < j <= |s|
    && (forall k :: i <= k < j ==> IsWordChar(s[k]))
    && (i == 0 || !IsWordChar(s[i - 1]))
    && (j == |s| || !IsWordChar(s[j]))
  }

  /** Position `i` does not fall inside a run of word characters. */
  predicate AtRunBoundary(s: string, i: nat)
    requires i <= |s|
  {
    i == 0 || i == |s| || !IsWordChar(s[i - 1]) || !IsWordChar(s[i])
  }

  /** Every token found from a run boundary is a maximal run of word characters. */
  lemma {:induction false} TokenIsMaximalRun(s: string, i: nat, t: string)
    requires i <= |s| && AtRunBoundary(s, i) && t in TokensFrom(s, i)
    ensures exists a, b :: IsMaximalRun(s, a, b) && t == s[a..b]
    decreases |s| - i
  {
    if i < |s| {
      if !IsWordChar(s[i]) {
        TokenIsMaximalRun(s, i + 1, t);
      } else {
        var e := RunEnd(s, i);
        if t == s[i..e] {
          assert IsMaximalRun(s, i, e);
        } else {
          TokenIsMaximalRun(s, e, t);
        }
      }
    }
  }

  /** Inside a run of word characters that ends at `b`, the scan for its end stops at `b`. */
  lemma {:induction false} RunEndOfRun(s: string, k: nat, b: nat)
    requires k <= b <= |s| && forall m :: k <= m < b ==> IsWordChar(s[m])
    requires b == |s| || !IsWordChar(s[b])
    ensures RunEnd(s, k) == b
    decreases b - k
  {
    if k < b {
      RunEndOfRun(s, k + 1, b);
    }
  }

  /** Every maximal run of word characters at or after `i` is found from `i`. */
  lemma {:induction false} MaximalRunIsToken(s: string, i: nat, a: int, b: int)
    requires i <= a && IsMaximalRun(s, a, b)
    ensures s[a..b] in TokensFrom(s, i)
    decreases |s| - i
  {
    if !IsWordChar(s[i]) {
      assert a != i;
      MaximalRunIsToken(s, i + 1, a, b);
    } else {
      var e := RunEnd(s, i);
      if a == i {
        RunEndOfRun(s, i, b);
      } else {
        assert a > e by {
          assert !IsWordChar(s[a - 1]);
        }
        MaximalRunIsToken(s, e, a, b);
      }
    }
  }

  /** The token set of `s` is exactly the set of its maximal word-character runs. */
  lemma TokensAreMaximalRuns(s: string, t: string)
    ensures t in Tokens(s) <==> exists i, j :: IsMaximalRun(s, i, j) && t == s[i..j]
  {
    if t in Tokens(s) {
      TokenIsMaximalRun(s, 0, t);
    }
    if exists i, j :: IsMaximalRun(s, i, j) && t == s[i..j] {
      var i, j :| IsMaximalRun(s, i, j) && t == s[i..j];
      MaximalRunIsToken(s, 0, i, j);
    }
  }

  // ---------------------------------------------------------------------------
  // needle in hay

  /** Python's `needle in hay` for two strings. */
  predicate Contains(hay: string, needle: string)
    decreases |hay|
  {
    needle <= hay || (hay != "" && Contains(hay[1..], needle))
  }

  lemma {:induction false} ContainsAtOccurrence(hay: string, needle: string, i: nat)
    requires i <= |hay| && needle <= hay[i..]
    ensures Contains(hay, needle)
    decreases i
  {
    if i > 0 {
      assert hay[1..][i - 1..] == hay[i..];
      ContainsAtOccurrence(hay[1..], needle, i - 1);
    }
  }

  lemma {:induction false} OccurrenceOfContains(hay: string, needle: string) returns (i: nat)
    requires Contains(hay, needle)
    ensures i <= |hay| && needle <= hay[i..]
    decreases |hay|
  {
    if needle <= hay {
      i := 0;
    } else {
      var j := OccurrenceOfContains(hay[1..], needle);
      assert hay[1..][j..] == hay[j + 1..];
      i := j + 1;
    }
  }

  /** `needle in hay` holds exactly when `needle` occurs at some position of `hay`. */
  lemma ContainsIffOccurs(hay: string, needle: string)
    ensures Contains(hay, needle) <==> exists i :: 0 <= i <= |hay| && needle <= hay[i..]
  {
    if Contains(hay, needle) {
      var i := OccurrenceOfContains(hay, needle);
    }
    if exists i :: 0 <= i <= |hay| && needle <= hay[i..] {
      var i :| 0 <= i <= |hay| && needle <= hay[i..];
      ContainsAtOccurrence(hay, needle, i);
    }
  }

  /** The empty string is in every string; a non-empty one is in no empty string. */
  lemma ContainsEmpty(s: string)
    ensures Contains(s, "")
    ensures s != "" ==> !Contains("", s)
  {
  }

  // ---------------------------------------------------------------------------
  // sep.join(xs)

  /** `sep.join(xs)`. */
  function JoinWith(sep: string, xs: seq<string>): string {
    if |xs| == 0 then ""
    else if |xs| == 1 then xs[0]
    else JoinWith(sep, xs[..|xs| - 1]) + sep + xs[|xs| - 1]
  }

  lemma JoinWithSnoc(sep: string, xs: seq<string>, x: string)
    requires xs != []
    ensures JoinWith(sep, xs + [x]) == JoinWith(sep, xs) + sep + x
  {
    assert (xs + [x])[..|xs|] == xs;
  }

  /** The last string of a non-empty list ends the joined text. */
  lemma JoinWithEndsWithLast(sep: string, xs: seq<string>)
    requires xs != []
    ensures |JoinWith(sep, xs)| >= |xs[|xs| - 1]|
  {
  }

  /** The texts `if txt` keeps, in their order, each as often as it occurs. */
  function NonEmptyTexts(texts: seq<string>): (r: seq<string>)
    ensures |r| <= |texts|
    ensures forall t :: t in r <==> t in texts && t != ""
  {
    if texts == [] then []
    else (if texts[0] != "" then [texts[0]] else []) + NonEmptyTexts(texts[1..])
  }

  /** Filtering a concatenation is concatenating the filtered parts: order and repetitions are kept. */
  lemma {:induction false} NonEmptyTextsAppend(a: seq<string>, b: seq<string>)
    ensures NonEmptyTexts(a + b) == NonEmptyTexts(a) + NonEmptyTexts(b)
    decreases |a|
  {
    if a == [] {
      assert a + b == b;
    } else {
      assert (a + b)[1..] == a[1..] + b;
      NonEmptyTextsAppend(a[1..], b);
      ConcatAssoc(if a[0] != "" then [a[0]] else [], NonEmptyTexts(a[1..]), NonEmptyTexts(b));
    }
  }

  /** The non-empty texts joined by any separator give "" exactly when every text is empty. */
  lemma JoinNonEmptyIsEmptyIff(sep: string, texts: seq<string>)
    ensures JoinWith(sep, NonEmptyTexts(texts)) == "" <==> forall i :: 0 <= i < |texts| ==> texts[i] == ""
  {
    var kept := NonEmptyTexts(texts);
    if kept == [] {
      forall i | 0 <= i < |texts|
        ensures texts[i] == ""
      {
        assert texts[i] in texts;
      }
    } else {
      assert kept[|kept| - 1] in kept;
      JoinWithEndsWithLast(sep, kept);
      var i :| 0 <= i < |texts| && texts[i] == kept[|kept| - 1];
    }
  }

  lemma ConcatAssoc<T>(a: seq<T>, b: seq<T>, c: seq<T>)
    ensures a + b + c == a + (b + c)
  {
  }

  // ---------------------------------------------------------------------------
  // str(n)

  function DigitChar(d: nat): char
    requires d < 10
  {
    "0123456789"[d]
  }

  /** `str(n)` for a natural number: its decimal digits, no leading zeros. */
  function Decimal(n: nat): (r: string)
    ensures 1 <= |r|
    ensures n >= 10 <==> |r| >= 2
    ensures forall i :: 0 <= i < |r| ==> '0' <= r[i] <= '9'
  {
    if n < 10 then [DigitChar(n)] else Decimal(n / 10) + [DigitChar(n % 10)]
  }

  /** Distinct numbers have distinct decimal forms. */
  lemma {:induction false} DecimalInjective(a: nat, b: nat)
    requires Decimal(a) == Decimal(b)
    ensures a == b
    decreases a
  {
    var s := Decimal(a);
    if a >= 10 {
      assert b >= 10;
      assert s[..|s| - 1] == Decimal(a / 10) && s[..|s| - 1] == Decimal(b / 10);
      DecimalInjective(a / 10, b / 10);
      assert DigitChar(a % 10) == DigitChar(b % 10);
    } else {
      assert b < 10;
      assert DigitChar(a) == DigitChar(b);
    }
  }
}
