/**
 The second tier of `ask`: the passages loaded at start-up are ranked against the
 question. A passage shorter than 20 or longer than 800 characters, or one that
 starts with "Title:", is skipped; every other passage scores its similarity to
 the question plus 0.3 per shared token plus 0.2 per unit of keyword bonus. The
 first passage of maximal score is kept (the best score starts at -1), and it is
 answered when that score is above 0.3.

 The similarity of the embedding model is an opaque function of the passage text:
 the question is fixed for one call of `ask`.
 */
module Ranker {
  import opened Options
  import opened Text
  import opened Lexical
  import opened Selection

  /** One entry of the in-memory corpus: `{'content': ..., 'url': ...}`. */
  datatype Passage = Passage(content: string, url: string)

  /** The passages the ranking loop does not skip. */
  predicate Eligible(p: Passage) {
    && !(|p.content| < 20 || |p.content| > 800)
    && !("Title:" <= p.content)
  }

  /** `similarity + keyword_overlap * 0.3 + special_bonus * 0.2`. */
  function Fused(similarity: real, overlap: nat, bonus: nat): real {
    similarity + (overlap as real) * 0.3 + (bonus as real) * 0.2
  }

  /** The score of one passage, or `None` when the loop skips it. */
  function PassageScore(nq: string, p: Passage, sim: string -> real): (r: Option<real>)
    ensures r.Some? <==> Eligible(p)
  {
    if Eligible(p) then
      var cl := Lower(p.content);
      Some(Fused(sim(p.content), Overlap(nq, cl), KeywordBonus(nq, cl)))
    else None
  }

  function PassageScores(nq: string, corpus: seq<Passage>, sim: string -> real): (s: seq<Option<real>>)
    ensures |s| == |corpus|
    ensures forall i :: 0 <= i < |corpus| ==> s[i] == PassageScore(nq, corpus[i], sim)
  {
    seq(|corpus|, i requires 0 <= i < |corpus| => PassageScore(nq, corpus[i], sim))
  }

  /** The state of the ranking loop once it has visited every passage. */
  function RankCorpus(nq: string, corpus: seq<Passage>, sim: string -> real): Scan {
    FirstMax(PassageScores(nq, corpus, sim), -1.0)
  }

  /** `best_match and best_score > 0.3`. */
  predicate RankAccepts(nq: string, corpus: seq<Passage>, sim: string -> real) {
    var r := RankCorpus(nq, corpus, sim);
    r.index.Some? && r.best > 0.3
  }

  /** The fused score of an eligible passage. */
  function ScoreOf(nq: string, p: Passage, sim: string -> real): real
    requires Eligible(p)
  {
    PassageScore(nq, p, sim).value
  }

  /** Passage `i` is eligible, beats every earlier eligible passage, and is beaten by none. */
  predicate IsFirstBestPassage(nq: string, corpus: seq<Passage>, sim: string -> real, i: nat) {
    && i < |corpus| && Eligible(corpus[i])
    && (forall j :: 0 <= j < i && Eligible(corpus[j]) ==> ScoreOf(nq, corpus[j], sim) < ScoreOf(nq, corpus[i], sim))
    && (forall j :: 0 <= j < |corpus| && Eligible(corpus[j]) ==> ScoreOf(nq, corpus[j], sim) <= ScoreOf(nq, corpus[i], sim))
  }

  /** A passage the loop keeps is eligible and is the first eligible passage of maximal score. */
  lemma RankedIsFirstBest(nq: string, corpus: seq<Passage>, sim: string -> real)
    requires RankCorpus(nq, corpus, sim).index.Some?
    ensures IsFirstBestPassage(nq, corpus, sim, RankCorpus(nq, corpus, sim).index.value)
    ensures RankCorpus(nq, corpus, sim).best == ScoreOf(nq, corpus[RankCorpus(nq, corpus, sim).index.value], sim)
  {
    var s := PassageScores(nq, corpus, sim);
    var r := RankCorpus(nq, corpus, sim);
    var i := r.index.value;
    assert s[i] == Some(r.best);
    assert Eligible(corpus[i]) && ScoreOf(nq, corpus[i], sim) == r.best;
    forall j | 0 <= j < |corpus| && Eligible(corpus[j])
      ensures s[j] == Some(ScoreOf(nq, corpus[j], sim))
    {
    }
  }

  /**
   The corpus tier answers exactly when some eligible passage scores above 0.3;
   the passage it answers with is then the first eligible one of maximal score.
   */
  lemma RankerTierCharacterised(nq: string, corpus: seq<Passage>, sim: string -> real)
    ensures RankAccepts(nq, corpus, sim) <==>
              exists j :: 0 <= j < |corpus| && Eligible(corpus[j]) && ScoreOf(nq, corpus[j], sim) > 0.3
    ensures RankAccepts(nq, corpus, sim) ==>
              IsFirstBestPassage(nq, corpus, sim, RankCorpus(nq, corpus, sim).index.value)
  {
    var s := PassageScores(nq, corpus, sim);
    var r := RankCorpus(nq, corpus, sim);
    if exists j :: 0 <= j < |corpus| && Eligible(corpus[j]) && ScoreOf(nq, corpus[j], sim) > 0.3 {
      var j :| 0 <= j < |corpus| && Eligible(corpus[j]) && ScoreOf(nq, corpus[j], sim) > 0.3;
      assert s[j] == Some(ScoreOf(nq, corpus[j], sim));
      assert r.index.Some?;
    }
    if r.index.Some? {
      RankedIsFirstBest(nq, corpus, sim);
    }
  }

  /** A corpus with no eligible passage never yields an answer, whatever the similarity. */
  lemma NoEligibleNoMatch(nq: string, corpus: seq<Passage>, sim: string -> real)
    requires forall j :: 0 <= j < |corpus| ==> !Eligible(corpus[j])
    ensures RankCorpus(nq, corpus, sim).index == None
  {
    var s := PassageScores(nq, corpus, sim);
    FirstMaxCharacterised(s, -1.0, 0);
  }

  /** The similarity of skipped passages does not matter. */
  lemma SkippedPassagesIgnored(nq: string, corpus: seq<Passage>, sim1: string -> real, sim2: string -> real)
    requires forall j :: 0 <= j < |corpus| && Eligible(corpus[j]) ==> sim1(corpus[j].content) == sim2(corpus[j].content)
    ensures RankCorpus(nq, corpus, sim1) == RankCorpus(nq, corpus, sim2)
  {
    assert PassageScores(nq, corpus, sim1) == PassageScores(nq, corpus, sim2);
  }
}
