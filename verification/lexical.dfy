/**
 The lexical parts of the scores `ask` gives to a curated question and to a corpus
 passage: the normalized question, the overlap of `\w+` token sets, the bonus for
 one string containing the other, and the weighted special keywords, each of which
 counts when it occurs as a SUBSTRING of both strings.
 */
module Lexical {
  import opened Text

  /** `question.lower().strip()`. */
  function Normalize(question: string): string {
    Strip(Lower(question))
  }

  /** The special keywords and their weights, in the order the source lists them. */
  const SpecialKeywords: seq<(string, nat)> := [
    ("boundless", 3),
    ("proof", 2),
    ("lifecycle", 2),
    ("prover", 2),
    ("node", 2),
    ("zk", 2),
    ("mining", 2),
    ("sdk", 2),
    ("ecosystem", 2),
    ("security", 2),
    ("tokenomics", 3),
    ("token", 2),
    ("zkc", 3)
  ]

  function TotalWeight(kws: seq<(string, nat)>): nat {
    if kws == [] then 0 else kws[0].1 + TotalWeight(kws[1..])
  }

  /** Whether keyword `w` counts for the pair: it occurs in both strings. */
  predicate Shared(w: string, a: string, b: string) {
    Contains(a, w) && Contains(b, w)
  }

  /** The summed weights of the keywords of `kws` that occur in both `a` and `b`. */
  function BonusOver(kws: seq<(string, nat)>, a: string, b: string): (r: nat)
    ensures r <= TotalWeight(kws)
  {
    if kws == [] then 0
    else (if Shared(kws[0].0, a, b) then kws[0].1 else 0) + BonusOver(kws[1..], a, b)
  }

  /** The special-keyword bonus of the two lower-cased strings. */
  function KeywordBonus(a: string, b: string): nat {
    BonusOver(SpecialKeywords, a, b)
  }

  /** `len(set(re.findall(r'\w+', a)) & set(re.findall(r'\w+', b)))`. */
  function Overlap(a: string, b: string): nat {
    |Tokens(a) * Tokens(b)|
  }

  /** The bonus of 5 when either string is a substring of the other. */
  function ContainmentBonus(a: string, b: string): nat {
    if Contains(b, a) || Contains(a, b) then 5 else 0
  }

  /** The score of a curated question `q` against the normalized question `nq`. */
  function CuratedScore(nq: string, q: string): nat {
    var ql := Lower(q);
    Overlap(nq, ql) + ContainmentBonus(nq, ql) + KeywordBonus(nq, ql)
  }

  // ---------------------------------------------------------------------------

  lemma TotalWeightStep(kws: seq<(string, nat)>, k: nat)
    requires k < |kws|
    ensures TotalWeight(kws[k..]) == kws[k].1 + TotalWeight(kws[k + 1..])
  {
    assert kws[k..][1..] == kws[k + 1..];
  }

  /** The special keywords weigh 29 in total, which bounds the keyword bonus. */
  lemma KeywordBonusBound(a: string, b: string)
    ensures KeywordBonus(a, b) <= 29
  {
    var kws := SpecialKeywords;
    assert kws[13..] == [];
    TotalWeightStep(kws, 12);
    TotalWeightStep(kws, 11);
    TotalWeightStep(kws, 10);
    TotalWeightStep(kws, 9);
    TotalWeightStep(kws, 8);
    TotalWeightStep(kws, 7);
    TotalWeightStep(kws, 6);
    TotalWeightStep(kws, 5);
    TotalWeightStep(kws, 4);
    TotalWeightStep(kws, 3);
    TotalWeightStep(kws, 2);
    TotalWeightStep(kws, 1);
    TotalWeightStep(kws, 0);
    assert kws[0..] == kws;
  }

  /** Every special keyword is a non-empty string of weight at least 2. */
  lemma KeywordsWellFormed()
    ensures forall k :: 0 <= k < |SpecialKeywords| ==> SpecialKeywords[k].0 != "" && SpecialKeywords[k].1 >= 2
  {
  }

  lemma {:induction false} BonusOverSymmetric(kws: seq<(string, nat)>, a: string, b: string)
    ensures BonusOver(kws, a, b) == BonusOver(kws, b, a)
    decreases |kws|
  {
    if kws != [] {
      BonusOverSymmetric(kws[1..], a, b);
    }
  }

  /** Every part of the curated score is symmetric in its two strings. */
  lemma ScoreSymmetric(a: string, b: string)
    ensures Overlap(a, b) == Overlap(b, a)
    ensures ContainmentBonus(a, b) == ContainmentBonus(b, a)
    ensures KeywordBonus(a, b) == KeywordBonus(b, a)
  {
    assert Tokens(a) * Tokens(b) == Tokens(b) * Tokens(a);
    BonusOverSymmetric(SpecialKeywords, a, b);
  }

  lemma {:induction false} BonusOverCounts(kws: seq<(string, nat)>, a: string, b: string, i: nat)
    requires i < |kws| && Shared(kws[i].0, a, b)
    ensures BonusOver(kws, a, b) >= kws[i].1
    decreases |kws|
  {
    if i > 0 {
      assert kws[1..][i - 1] == kws[i];
      BonusOverCounts(kws[1..], a, b, i - 1);
    }
  }

  lemma {:induction false} BonusOverZero(kws: seq<(string, nat)>, a: string, b: string)
    requires forall i :: 0 <= i < |kws| ==> kws[i].1 > 0
    ensures BonusOver(kws, a, b) == 0 <==> forall i :: 0 <= i < |kws| ==> !Shared(kws[i].0, a, b)
    decreases |kws|
  {
    if kws != [] {
      assert forall i :: 0 <= i < |kws| - 1 ==> kws[1..][i] == kws[i + 1];
      BonusOverZero(kws[1..], a, b);
      if Shared(kws[0].0, a, b) {
        assert BonusOver(kws, a, b) >= kws[0].1;
      }
    }
  }

  /**
   A keyword found in both strings adds its weight, and the bonus is zero exactly
   when no keyword is found in both.
   */
  lemma KeywordBonusMeaning(a: string, b: string, i: nat)
    requires i < |SpecialKeywords|
    ensures Shared(SpecialKeywords[i].0, a, b) ==> KeywordBonus(a, b) >= SpecialKeywords[i].1
    ensures KeywordBonus(a, b) == 0 <==> forall k :: 0 <= k < |SpecialKeywords| ==> !Shared(SpecialKeywords[k].0, a, b)
  {
    KeywordsWellFormed();
    if Shared(SpecialKeywords[i].0, a, b) {
      BonusOverCounts(SpecialKeywords, a, b, i);
    }
    BonusOverZero(SpecialKeywords, a, b);
  }

  lemma ContainsWithin(x: string, outer: string, inner: string)
    requires Contains(x, outer) && inner <= outer
    ensures Contains(x, inner)
  {
    var i := OccurrenceOfContains(x, outer);
    assert inner <= x[i..];
    ContainsAtOccurrence(x, inner, i);
  }

  /**
   Keywords match as substrings, so a string holding "tokenomics" also holds
   "token" and one holding "zkc" also holds "zk": both pairs are counted together.
   */
  lemma NestedKeywordsCountTwice(a: string, b: string)
    ensures Shared("tokenomics", a, b) ==> KeywordBonus(a, b) >= 5
    ensures Shared("zkc", a, b) ==> KeywordBonus(a, b) >= 5
  {
    var kws := SpecialKeywords;
    if Shared("tokenomics", a, b) {
      ContainsWithin(a, "tokenomics", "token");
      ContainsWithin(b, "tokenomics", "token");
      BonusOverTwo(kws, a, b, 10, 11);
    }
    if Shared("zkc", a, b) {
      ContainsWithin(a, "zkc", "zk");
      ContainsWithin(b, "zkc", "zk");
      BonusOverTwo(kws, a, b, 5, 12);
    }
  }

  lemma {:induction false} BonusOverTwo(kws: seq<(string, nat)>, a: string, b: string, i: nat, k: nat)
    requires i < k < |kws| && Shared(kws[i].0, a, b) && Shared(kws[k].0, a, b)
    ensures BonusOver(kws, a, b) >= kws[i].1 + kws[k].1
    decreases |kws|
  {
    if i == 0 {
      assert kws[1..][k - 1] == kws[k];
      BonusOverCounts(kws[1..], a, b, k - 1);
    } else {
      assert kws[1..][i - 1] == kws[i] && kws[1..][k - 1] == kws[k];
      BonusOverTwo(kws[1..], a, b, i - 1, k - 1);
    }
  }

  lemma {:induction false} BonusOverBlank(kws: seq<(string, nat)>, b: string)
    requires forall i :: 0 <= i < |kws| ==> kws[i].0 != ""
    ensures BonusOver(kws, "", b) == 0
    decreases |kws|
  {
    if kws != [] {
      ContainsEmpty(kws[0].0);
      assert forall i :: 0 <= i < |kws| - 1 ==> kws[1..][i] == kws[i + 1];
      BonusOverBlank(kws[1..], b);
    }
  }

  /**
   A question that normalizes to the empty string has no tokens and no keywords,
   and is a substring of every curated question: every entry scores exactly 5.
   */
  lemma BlankQuestionScoresFive(q: string)
    ensures CuratedScore("", q) == 5
  {
    assert TokenList("") == [];
    assert Tokens("") == {};
    ContainsEmpty(Lower(q));
    KeywordsWellFormed();
    BonusOverBlank(SpecialKeywords, Lower(q));
  }

  /** A whitespace-only question normalizes to the empty string. */
  lemma BlankNormalizesToEmpty(question: string)
    requires forall i :: 0 <= i < |question| ==> IsSpace(question[i])
    ensures Normalize(question) == ""
  {
    var l := Lower(question);
    assert forall i :: 0 <= i < |l| ==> l[i] == LowerChar(question[i]);
    StripBlank(l);
  }

  /**
   Asking a curated question in its own lower-cased, stripped spelling gives it
   its token count plus 5 plus its own keyword weights.
   */
  lemma VerbatimQuestionScore(q: string)
    ensures CuratedScore(Lower(q), q) == |Tokens(Lower(q))| + 5 + KeywordBonus(Lower(q), Lower(q))
  {
    var ql := Lower(q);
    assert Tokens(ql) * Tokens(ql) == Tokens(ql);
    assert Contains(ql, ql) by {
      assert ql <= ql[0..];
      ContainsAtOccurrence(ql, ql, 0);
    }
  }

  /** A score of zero means nothing at all is shared. */
  lemma ScoreZeroIff(nq: string, q: string)
    ensures CuratedScore(nq, q) == 0 <==>
              && Tokens(nq) * Tokens(Lower(q)) == {}
              && !Contains(Lower(q), nq) && !Contains(nq, Lower(q))
              && forall k :: 0 <= k < |SpecialKeywords| ==> !Shared(SpecialKeywords[k].0, nq, Lower(q))
  {
    var ql := Lower(q);
    NoCommonTokens(Tokens(nq) * Tokens(ql));
    assert ContainmentBonus(nq, ql) == 0 <==> !Contains(ql, nq) && !Contains(nq, ql);
    KeywordBonusMeaning(nq, ql, 0);
  }

  lemma NoCommonTokens(common: set<string>)
    ensures |common| == 0 <==> common == {}
  {
    if common != {} {
      var t :| t in common;
    }
  }
}
