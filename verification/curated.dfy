/**
 The curated question-and-answer table of the assistant and the first tier of
 `ask`: every curated question is scored against the normalized question, the
 first entry with the highest score is kept (the best score starts at 0 and is
 replaced only by a strictly greater one), and it is answered when that score is
 at least 2.
 */
module Curated {
  import opened Options
  import opened Text
  import opened Lexical
  import opened Selection

  datatype CuratedEntry = CuratedEntry(question: string, answer: string, sourceUrl: string)

  /** The curated questions, in the table's insertion order, which is the order the scan visits them. */
  const PredefinedQuestions: seq<string> := [
    "What is Boundless?",
    "What is the proof lifecycle?",
    "How to run a prover node?",
    "What is ZK mining?",
    "What is the Boundless SDK?",
    "What projects are in the ecosystem?",
    "What are the security features?",
    "What is the tokenomics?"
  ]

  /** The answer of each curated question, position by position. */
  const PredefinedAnswers: seq<string> := [
    "Boundless is a decentralized protocol for generating and verifying zero-knowledge (ZK) proofs. It enables anyone to request, produce, and use ZK proofs in a trustless marketplace, powered by RISC Zero zkVM.",
    "The proof lifecycle has 6 steps: 1) Program Development, 2) Request Submission, 3) Prover Bidding, 4) Proof Generation, 5) Proof Settlement, 6) Proof Utilization. Each step is decentralized and verifiable.",
    "To run a prover node: 1) Use a powerful machine (32GB+ RAM, modern GPU), 2) Install RISC Zero, 3) Set up Boundless CLI tools, 4) Listen for proof requests and submit results. See the official quick start guide for details.",
    "ZK mining is the process of generating zero-knowledge proofs using computational resources. Provers compete to solve proof requests and earn rewards for successful submissions.",
    "The Boundless SDK allows developers to interact with the protocol, submit proof requests, and use proofs in their applications. SDKs are available for JavaScript, Python, and Rust.",
    "The Boundless ecosystem includes 25+ projects: Hibachi Exchange (DEX), Lido (Staking), Uniswap, Aave, Compound, MakerDAO, Curve, Balancer, and more. All leverage ZK proofs for enhanced security.",
    "Boundless security: 1) ZK proofs for mathematical security, 2) Decentralized architecture, 3) Open-source code and audits, 4) Multisig management, 5) Bug bounty program, 6) Continuous updates.",
    "The ticker is $ZKC"
  ]

  /** The source url of each curated question, position by position. */
  const PredefinedUrls: seq<string> := [
    "https://docs.beboundless.xyz/developers/what",
    "https://docs.beboundless.xyz/developers/proof-lifecycle",
    "https://docs.beboundless.xyz/provers/quick-start",
    "https://docs.beboundless.xyz/provers/quick-start",
    "https://docs.beboundless.xyz/developers/quick-start",
    "https://beboundless.xyz/ecosystem",
    "https://docs.beboundless.xyz/developers/core-concepts",
    "https://beboundless.xyz/"
  ]

  /** The table built from its three columns. */
  function Table(questions: seq<string>, answers: seq<string>, urls: seq<string>): (t: seq<CuratedEntry>)
    requires |answers| == |questions| && |urls| == |questions|
    ensures |t| == |questions|
    ensures forall i :: 0 <= i < |t| ==> t[i] == CuratedEntry(questions[i], answers[i], urls[i])
  {
    seq(|questions|, i requires 0 <= i < |questions| => CuratedEntry(questions[i], answers[i], urls[i]))
  }

  /** `PREDEFINED_QA`. */
  const PredefinedQA: seq<CuratedEntry> := Table(PredefinedQuestions, PredefinedAnswers, PredefinedUrls)

  /** The questions of `table` are `questions`, position by position. */
  predicate HasQuestions(table: seq<CuratedEntry>, questions: seq<string>) {
    |table| == |questions| && forall i :: 0 <= i < |table| ==> table[i].question == questions[i]
  }

  lemma PredefinedHasQuestions()
    ensures HasQuestions(PredefinedQA, PredefinedQuestions)
  {
  }

  /** The score of every entry, in table order; no entry is skipped. */
  function CuratedScores(nq: string, table: seq<CuratedEntry>): (s: seq<Option<real>>)
    ensures |s| == |table|
    ensures forall i :: 0 <= i < |table| ==> s[i] == Some(CuratedScore(nq, table[i].question) as real)
  {
    seq(|table|, i requires 0 <= i < |table| => Some(CuratedScore(nq, table[i].question) as real))
  }

  /** The state of the scan over the table once it has visited every entry. */
  function CuratedPick(nq: string, table: seq<CuratedEntry>): Scan {
    FirstMax(CuratedScores(nq, table), 0.0)
  }

  /** The scan accepts its best entry when its score is at least 2. */
  predicate CuratedAccepts(nq: string, table: seq<CuratedEntry>) {
    CuratedPick(nq, table).best >= 2.0
  }

  /** Some entry of the table scores at least 2. */
  predicate AnyScoresTwo(nq: string, table: seq<CuratedEntry>) {
    exists i :: 0 <= i < |table| && CuratedScore(nq, table[i].question) >= 2
  }

  /** Entry `i` is the first entry of the table whose score is maximal. */
  predicate IsFirstBestEntry(nq: string, table: seq<CuratedEntry>, i: nat) {
    && i < |table|
    && (forall j :: 0 <= j < i ==> CuratedScore(nq, table[j].question) < CuratedScore(nq, table[i].question))
    && (forall j :: 0 <= j < |table| ==> CuratedScore(nq, table[j].question) <= CuratedScore(nq, table[i].question))
  }

  lemma FirstBestEntryUnique(nq: string, table: seq<CuratedEntry>, i: nat, k: nat)
    requires IsFirstBestEntry(nq, table, i) && IsFirstBestEntry(nq, table, k)
    ensures i == k
  {
    var si, sk := CuratedScore(nq, table[i].question), CuratedScore(nq, table[k].question);
    assert sk <= si;
    assert si <= sk;
  }

  /**
   The curated tier answers exactly when some entry scores at least 2; it then
   answers with the first entry of maximal score, and reports that score.
   */
  lemma CuratedTierCharacterised(nq: string, table: seq<CuratedEntry>)
    ensures CuratedAccepts(nq, table) <==> AnyScoresTwo(nq, table)
    ensures CuratedAccepts(nq, table) ==>
              && CuratedPick(nq, table).index.Some?
              && IsFirstBestEntry(nq, table, CuratedPick(nq, table).index.value)
              && CuratedPick(nq, table).best == CuratedScore(nq, table[CuratedPick(nq, table).index.value].question) as real
  {
    var s := CuratedScores(nq, table);
    var r := CuratedPick(nq, table);
    if AnyScoresTwo(nq, table) {
      var i :| 0 <= i < |table| && CuratedScore(nq, table[i].question) >= 2;
      assert s[i] == Some(CuratedScore(nq, table[i].question) as real);
      assert r.index.Some?;
    }
    if r.best >= 2.0 {
      assert r.index.Some?;
      var i := r.index.value;
      AcceptedIsFirstBest(nq, table, r, i);
    }
  }

  lemma AcceptedIsFirstBest(nq: string, table: seq<CuratedEntry>, r: Scan, i: nat)
    requires r == CuratedPick(nq, table) && r.index == Some(i)
    ensures IsFirstBestEntry(nq, table, i)
    ensures r.best == CuratedScore(nq, table[i].question) as real
  {
    var s := CuratedScores(nq, table);
    var best := CuratedScore(nq, table[i].question);
    assert s[i] == Some(best as real);
    forall j | 0 <= j < i
      ensures CuratedScore(nq, table[j].question) < best
    {
      ScoreBelow(s[j], CuratedScore(nq, table[j].question), r.best, best, false);
    }
    forall j | 0 <= j < |table|
      ensures CuratedScore(nq, table[j].question) <= best
    {
      ScoreBelow(s[j], CuratedScore(nq, table[j].question), r.best, best, true);
    }
  }

  /** A present score compared with the scan's best, read back as the integer it came from. */
  lemma ScoreBelow(o: Option<real>, v: nat, best: real, b: nat, orEqual: bool)
    requires o == Some(v as real) && best == b as real
    requires if orEqual then o.value <= best else o.value < best
    ensures if orEqual then v <= b else v < b
  {
  }

  /** With two tables that agree on the entries' questions, the scan picks the same position. */
  lemma PickDependsOnQuestionsOnly(nq: string, t1: seq<CuratedEntry>, t2: seq<CuratedEntry>)
    requires |t1| == |t2| && forall i :: 0 <= i < |t1| ==> t1[i].question == t2[i].question
    ensures CuratedPick(nq, t1) == CuratedPick(nq, t2)
  {
    assert CuratedScores(nq, t1) == CuratedScores(nq, t2);
  }

  /**
   A question that normalizes to the empty string scores 5 on every entry, so the
   scan keeps the first entry and accepts it.
   */
  lemma BlankQuestionPicksFirst(table: seq<CuratedEntry>)
    requires table != []
    ensures CuratedPick("", table) == Scan(5.0, Some(0))
    ensures CuratedAccepts("", table)
  {
    BlankScoresAllFive(table);
    TiesKeepFirst(CuratedScores("", table), 0.0, 5.0);
  }

  lemma BlankScoresAllFive(table: seq<CuratedEntry>)
    ensures forall j :: 0 <= j < |table| ==> CuratedScores("", table)[j] == Some(5.0)
  {
    var s := CuratedScores("", table);
    forall j | 0 <= j < |table|
      ensures s[j] == Some(5.0)
    {
      BlankQuestionScoresFive(table[j].question);
    }
  }

  /** A word spelled at `pos` of `q`, up to case, is in the lower-cased `q`. */
  lemma MentionAt(q: string, w: string, pos: nat)
    requires pos + |w| <= |q| && forall j :: 0 <= j < |w| ==> LowerChar(q[pos + j]) == w[j]
    ensures Contains(Lower(q), w)
  {
    var l := Lower(q);
    assert w <= l[pos..];
    ContainsAtOccurrence(l, w, pos);
  }

  /** A keyword in both the question and a curated question gives that entry at least 2. */
  lemma KeywordHit(nq: string, table: seq<CuratedEntry>, e: nat, k: nat)
    requires e < |table| && k < |SpecialKeywords|
    requires Contains(nq, SpecialKeywords[k].0) && Contains(Lower(table[e].question), SpecialKeywords[k].0)
    ensures AnyScoresTwo(nq, table)
  {
    KeywordsWellFormed();
    KeywordBonusMeaning(nq, Lower(table[e].question), k);
    assert CuratedScore(nq, table[e].question) >= 2;
  }

  lemma MentionsBoundless()
    ensures Contains(Lower(PredefinedQuestions[0]), SpecialKeywords[0].0)
  {
    MentionAt(PredefinedQuestions[0], SpecialKeywords[0].0, 8);
  }

  lemma MentionsProof()
    ensures Contains(Lower(PredefinedQuestions[1]), SpecialKeywords[1].0)
  {
    MentionAt(PredefinedQuestions[1], SpecialKeywords[1].0, 12);
  }

  lemma MentionsLifecycle()
    ensures Contains(Lower(PredefinedQuestions[1]), SpecialKeywords[2].0)
  {
    MentionAt(PredefinedQuestions[1], SpecialKeywords[2].0, 18);
  }

  lemma MentionsProver()
    ensures Contains(Lower(PredefinedQuestions[2]), SpecialKeywords[3].0)
  {
    MentionAt(PredefinedQuestions[2], SpecialKeywords[3].0, 13);
  }

  lemma MentionsNode()
    ensures Contains(Lower(PredefinedQuestions[2]), SpecialKeywords[4].0)
  {
    MentionAt(PredefinedQuestions[2], SpecialKeywords[4].0, 20);
  }

  lemma MentionsZk()
    ensures Contains(Lower(PredefinedQuestions[3]), SpecialKeywords[5].0)
  {
    MentionAt(PredefinedQuestions[3], SpecialKeywords[5].0, 8);
  }

  lemma MentionsMining()
    ensures Contains(Lower(PredefinedQuestions[3]), SpecialKeywords[6].0)
  {
    MentionAt(PredefinedQuestions[3], SpecialKeywords[6].0, 11);
  }

  lemma MentionsSdk()
    ensures Contains(Lower(PredefinedQuestions[4]), SpecialKeywords[7].0)
  {
    MentionAt(PredefinedQuestions[4], SpecialKeywords[7].0, 22);
  }

  lemma MentionsEcosystem()
    ensures Contains(Lower(PredefinedQuestions[5]), SpecialKeywords[8].0)
  {
    MentionAt(PredefinedQuestions[5], SpecialKeywords[8].0, 25);
  }

  lemma MentionsSecurity()
    ensures Contains(Lower(PredefinedQuestions[6]), SpecialKeywords[9].0)
  {
    MentionAt(PredefinedQuestions[6], SpecialKeywords[9].0, 13);
  }

  lemma MentionsTokenomics()
    ensures Contains(Lower(PredefinedQuestions[7]), SpecialKeywords[10].0)
  {
    MentionAt(PredefinedQuestions[7], SpecialKeywords[10].0, 12);
  }

  lemma MentionsToken()
    ensures Contains(Lower(PredefinedQuestions[7]), SpecialKeywords[11].0)
  {
    MentionAt(PredefinedQuestions[7], SpecialKeywords[11].0, 12);
  }

  lemma ViaBoundless(nq: string, table: seq<CuratedEntry>)
    requires HasQuestions(table, PredefinedQuestions) && Contains(nq, SpecialKeywords[0].0)
    ensures AnyScoresTwo(nq, table)
  {
    MentionsBoundless();
    KeywordHit(nq, table, 0, 0);
  }

  lemma ViaProof(nq: string, table: seq<CuratedEntry>)
    requires HasQuestions(table, PredefinedQuestions) && Contains(nq, SpecialKeywords[1].0)
    ensures AnyScoresTwo(nq, table)
  {
    MentionsProof();
    KeywordHit(nq, table, 1, 1);
  }

  lemma ViaLifecycle(nq: string, table: seq<CuratedEntry>)
    requires HasQuestions(table, PredefinedQuestions) && Contains(nq, SpecialKeywords[2].0)
    ensures AnyScoresTwo(nq, table)
  {
    MentionsLifecycle();
    KeywordHit(nq, table, 1, 2);
  }

  lemma ViaProver(nq: string, table: seq<CuratedEntry>)
    requires HasQuestions(table, PredefinedQuestions) && Contains(nq, SpecialKeywords[3].0)
    ensures AnyScoresTwo(nq, table)
  {
    MentionsProver();
    KeywordHit(nq, table, 2, 3);
  }

  lemma ViaNode(nq: string, table: seq<CuratedEntry>)
    requires HasQuestions(table, PredefinedQuestions) && Contains(nq, SpecialKeywords[4].0)
    ensures AnyScoresTwo(nq, table)
  {
    MentionsNode();
    KeywordHit(nq, table, 2, 4);
  }

  lemma ViaZk(nq: string, table: seq<CuratedEntry>)
    requires HasQuestions(table, PredefinedQuestions) && Contains(nq, SpecialKeywords[5].0)
    ensures AnyScoresTwo(nq, table)
  {
    MentionsZk();
    KeywordHit(nq, table, 3, 5);
  }

  lemma ViaMining(nq: string, table: seq<CuratedEntry>)
    requires HasQuestions(table, PredefinedQuestions) && Contains(nq, SpecialKeywords[6].0)
    ensures AnyScoresTwo(nq, table)
  {
    MentionsMining();
    KeywordHit(nq, table, 3, 6);
  }

  lemma ViaSdk(nq: string, table: seq<CuratedEntry>)
    requires HasQuestions(table, PredefinedQuestions) && Contains(nq, SpecialKeywords[7].0)
    ensures AnyScoresTwo(nq, table)
  {
    MentionsSdk();
    KeywordHit(nq, table, 4, 7);
  }

  lemma ViaEcosystem(nq: string, table: seq<CuratedEntry>)
    requires HasQuestions(table, PredefinedQuestions) && Contains(nq, SpecialKeywords[8].0)
    ensures AnyScoresTwo(nq, table)
  {
    MentionsEcosystem();
    KeywordHit(nq, table, 5, 8);
  }

  lemma ViaSecurity(nq: string, table: seq<CuratedEntry>)
    requires HasQuestions(table, PredefinedQuestions) && Contains(nq, SpecialKeywords[9].0)
    ensures AnyScoresTwo(nq, table)
  {
    MentionsSecurity();
    KeywordHit(nq, table, 6, 9);
  }

  lemma ViaTokenomics(nq: string, table: seq<CuratedEntry>)
    requires HasQuestions(table, PredefinedQuestions) && Contains(nq, SpecialKeywords[10].0)
    ensures AnyScoresTwo(nq, table)
  {
    MentionsTokenomics();
    KeywordHit(nq, table, 7, 10);
  }

  lemma ViaToken(nq: string, table: seq<CuratedEntry>)
    requires HasQuestions(table, PredefinedQuestions) && Contains(nq, SpecialKeywords[11].0)
    ensures AnyScoresTwo(nq, table)
  {
    MentionsToken();
    KeywordHit(nq, table, 7, 11);
  }

  /**
   With the assistant's curated questions, whatever the answers and urls, a
   question that mentions any special keyword has an entry scoring at least 2:
   every keyword but "zkc" occurs in some curated question, and a question
   holding "zkc" holds "zk", which occurs in "What is ZK mining?".
   */
  lemma KeywordQuestionReachesTwo(nq: string, k: nat, table: seq<CuratedEntry>)
    requires HasQuestions(table, PredefinedQuestions)
    requires k < |SpecialKeywords| && Contains(nq, SpecialKeywords[k].0)
    ensures AnyScoresTwo(nq, table)
  {
    if k == 0 {
      ViaBoundless(nq, table);
    } else if k == 1 {
      ViaProof(nq, table);
    } else if k == 2 {
      ViaLifecycle(nq, table);
    } else if k == 3 {
      ViaProver(nq, table);
    } else if k == 4 {
      ViaNode(nq, table);
    } else if k == 5 {
      ViaZk(nq, table);
    } else if k == 6 {
      ViaMining(nq, table);
    } else if k == 7 {
      ViaSdk(nq, table);
    } else if k == 8 {
      ViaEcosystem(nq, table);
    } else if k == 9 {
      ViaSecurity(nq, table);
    } else if k == 10 {
      ViaTokenomics(nq, table);
    } else if k == 11 {
      ViaToken(nq, table);
    } else {
      assert SpecialKeywords[5].0 <= SpecialKeywords[12].0;
      ContainsWithin(nq, SpecialKeywords[12].0, SpecialKeywords[5].0);
      ViaZk(nq, table);
    }
  }
}
