/**
 The `/ask` handler: an empty question is refused; otherwise the curated table is
 tried first, then the passages loaded at start-up, and last the web search. The
 first tier that accepts answers, and the later ones are not consulted.

 The embedding similarity and the web lookup are opaque functions, and the
 curated table and the corpus are parameters. With an empty curated table the
 source's scoring loop never defines its keyword table, so scoring the first
 eligible passage raises an exception, which the handler turns into its generic
 error reply; `InternalError` models that path.
 */
module Assistant {
  import opened Options
  import opened Text
  import opened Lexical
  import opened Selection
  import opened Curated
  import opened Ranker
  import opened Truncation
  import opened WebSearch

  datatype Source = Predefined | Documentation | Web

  datatype Reply =
    | AskForQuestion
    | Answered(answer: string, sourceUrl: string, similarityScore: real, source: Source)
    | InternalError

  /**
   The JSON body of the reply. Every reply carries `answer` and `source_url`, and
   `sourceUrl == None` is a `source_url` of `null`, as in the refusal and the error
   replies. `similarityScore` and `source` are `None` when the key is absent from
   the reply, which is also the case only for the refusal and the error.
   */
  datatype Body = Body(answer: string, sourceUrl: Option<string>, similarityScore: Option<real>, source: Option<string>)

  const WebUrl := "https://duckduckgo.com"

  function SourceName(s: Source): string {
    match s
    case Predefined => "predefined"
    case Documentation => "documentation"
    case Web => "web_search"
  }

  function ToBody(r: Reply): Body {
    match r
    case AskForQuestion => Body("Please ask a question.", None, None, None)
    case Answered(a, u, s, src) => Body(a, Some(u), Some(s), Some(SourceName(src)))
    case InternalError => Body("Sorry, an error occurred.", None, None, None)
  }

  /** Some passage of the corpus survives the length and title filters. */
  predicate HasEligible(corpus: seq<Passage>) {
    exists i :: 0 <= i < |corpus| && Eligible(corpus[i])
  }

  /**
   The tiers that answer without the web, for the normalized question: the
   curated table, the error of an empty table, and the corpus; `None` when none
   of them answers.
   */
  function LocalAnswer(nq: string, curated: seq<CuratedEntry>, corpus: seq<Passage>, sim: string -> real): Option<Reply> {
    var pick := CuratedPick(nq, curated);
    if pick.best >= 2.0 then
      var e := curated[pick.index.value];
      Some(Answered(e.answer, e.sourceUrl, pick.best, Predefined))
    else if corpus != [] && curated == [] && HasEligible(corpus) then
      Some(InternalError)
    else if corpus != [] && RankAccepts(nq, corpus, sim) then
      var ranked := RankCorpus(nq, corpus, sim);
      var p := corpus[ranked.index.value];
      Some(Answered(Truncate(p.content), p.url, ranked.best, Documentation))
    else
      None
  }

  /** The last tier: the web search's text, its fixed page and a score of 0. */
  function WebAnswer(question: string, web: string -> SearchResponse): Reply {
    Answered(SearchWeb(web(WebQuery(question))), WebUrl, 0.0, Web)
  }

  /** The `/ask` handler for one question. */
  function Ask(question: string, curated: seq<CuratedEntry>, corpus: seq<Passage>,
               sim: string -> real, web: string -> SearchResponse): Reply
  {
    if question == "" then AskForQuestion
    else
      var local := LocalAnswer(Normalize(question), curated, corpus, sim);
      if local.Some? then local.value else WebAnswer(question, web)
  }

  // ---------------------------------------------------------------------------

  /** Some curated entry scores at least 2 against the question. */
  predicate CuratedHit(question: string, curated: seq<CuratedEntry>) {
    AnyScoresTwo(Normalize(question), curated)
  }

  /** Some eligible passage scores above 0.3 against the question. */
  predicate CorpusHit(question: string, corpus: seq<Passage>, sim: string -> real) {
    exists j :: 0 <= j < |corpus| && Eligible(corpus[j]) && ScoreOf(Normalize(question), corpus[j], sim) > 0.3
  }

  /** The curated tier answers with the first entry of maximal score, reported with that score. */
  lemma AskPredefined(question: string, curated: seq<CuratedEntry>, corpus: seq<Passage>,
                      sim: string -> real, web: string -> SearchResponse) returns (i: nat)
    requires question != "" && CuratedHit(question, curated)
    ensures IsFirstBestEntry(Normalize(question), curated, i)
    ensures Ask(question, curated, corpus, sim, web)
         == Answered(curated[i].answer, curated[i].sourceUrl,
                     CuratedScore(Normalize(question), curated[i].question) as real, Predefined)
  {
    var nq := Normalize(question);
    CuratedTierCharacterised(nq, curated);
    i := CuratedPick(nq, curated).index.value;
  }

  /** With an empty curated table, an eligible passage makes the handler fail. */
  lemma AskFails(question: string, curated: seq<CuratedEntry>, corpus: seq<Passage>,
                 sim: string -> real, web: string -> SearchResponse)
    requires question != "" && curated == [] && HasEligible(corpus)
    ensures Ask(question, curated, corpus, sim, web) == InternalError
    ensures ToBody(Ask(question, curated, corpus, sim, web)) == Body("Sorry, an error occurred.", None, None, None)
  {
    CuratedTierCharacterised(Normalize(question), curated);
  }

  /**
   The documentation tier answers with the truncated text and the page of the
   first eligible passage of maximal fused score, reported with that score.
   */
  lemma AskDocumentation(question: string, curated: seq<CuratedEntry>, corpus: seq<Passage>,
                         sim: string -> real, web: string -> SearchResponse) returns (i: nat)
    requires question != "" && curated != [] && !CuratedHit(question, curated) && CorpusHit(question, corpus, sim)
    ensures IsFirstBestPassage(Normalize(question), corpus, sim, i)
    ensures Ask(question, curated, corpus, sim, web)
         == Answered(Truncate(corpus[i].content), corpus[i].url, ScoreOf(Normalize(question), corpus[i], sim), Documentation)
  {
    i := LocalDocumentation(Normalize(question), curated, corpus, sim);
  }

  lemma LocalDocumentation(nq: string, curated: seq<CuratedEntry>, corpus: seq<Passage>, sim: string -> real) returns (i: nat)
    requires curated != [] && !AnyScoresTwo(nq, curated)
    requires exists j :: 0 <= j < |corpus| && Eligible(corpus[j]) && ScoreOf(nq, corpus[j], sim) > 0.3
    ensures IsFirstBestPassage(nq, corpus, sim, i)
    ensures LocalAnswer(nq, curated, corpus, sim)
         == Some(Answered(Truncate(corpus[i].content), corpus[i].url, ScoreOf(nq, corpus[i], sim), Documentation))
  {
    CuratedTierCharacterised(nq, curated);
    assert !(CuratedPick(nq, curated).best >= 2.0);
    RankerTierCharacterised(nq, corpus, sim);
    RankedIsFirstBest(nq, corpus, sim);
    var ranked := RankCorpus(nq, corpus, sim);
    i := ranked.index.value;
    assert ranked.best == ScoreOf(nq, corpus[i], sim);
  }

  /** Otherwise the web search answers, with its fixed page and a score of 0. */
  lemma AskWeb(question: string, curated: seq<CuratedEntry>, corpus: seq<Passage>,
               sim: string -> real, web: string -> SearchResponse)
    requires question != "" && !CuratedHit(question, curated)
    requires !(curated == [] && HasEligible(corpus)) && !CorpusHit(question, corpus, sim)
    ensures Ask(question, curated, corpus, sim, web)
         == Answered(SearchWeb(web(WebQuery(question))), WebUrl, 0.0, Web)
  {
    var nq := Normalize(question);
    CuratedTierCharacterised(nq, curated);
    RankerTierCharacterised(nq, corpus, sim);
  }

  /**
   Which tier answers: the refusal exactly for the empty question; the curated
   tier exactly when some entry scores at least 2; the error exactly when the
   curated table is empty and an eligible passage exists; the documentation
   exactly when no curated entry reaches 2 and some eligible passage scores above
   0.3; and the web search in every other case.
   */
  lemma AskTiers(question: string, curated: seq<CuratedEntry>, corpus: seq<Passage>,
                 sim: string -> real, web: string -> SearchResponse)
    ensures var r := Ask(question, curated, corpus, sim, web);
      && (r == AskForQuestion <==> question == "")
      && (r.Answered? && r.source == Predefined <==> question != "" && CuratedHit(question, curated))
      && (r == InternalError <==> question != "" && curated == [] && HasEligible(corpus))
      && (r.Answered? && r.source == Documentation <==>
            question != "" && curated != [] && !CuratedHit(question, curated) && CorpusHit(question, corpus, sim))
      && (r.Answered? && r.source == Web <==>
            question != "" && !CuratedHit(question, curated) && !(curated == [] && HasEligible(corpus))
            && !CorpusHit(question, corpus, sim))
  {
    if question == "" {
    } else if CuratedHit(question, curated) {
      var i := AskPredefined(question, curated, corpus, sim, web);
    } else if curated == [] && HasEligible(corpus) {
      AskFails(question, curated, corpus, sim, web);
    } else if CorpusHit(question, corpus, sim) {
      var i := AskDocumentation(question, curated, corpus, sim, web);
    } else {
      AskWeb(question, curated, corpus, sim, web);
    }
  }

  /** The reply to the empty question, and the fixed parts of the web and error replies. */
  lemma ReplyBodies(r: Reply)
    ensures r == AskForQuestion ==> ToBody(r) == Body("Please ask a question.", None, None, None)
    ensures r == InternalError ==> ToBody(r).answer == "Sorry, an error occurred." && ToBody(r).sourceUrl == None
    ensures r.Answered? && r.source == Web ==> ToBody(r).source == Some("web_search")
  {
  }

  /** An answer from the curated table depends neither on the corpus, nor on the similarity, nor on the web. */
  lemma CuratedAnswerShortCircuits(question: string, curated: seq<CuratedEntry>,
                                   corpus1: seq<Passage>, sim1: string -> real, web1: string -> SearchResponse,
                                   corpus2: seq<Passage>, sim2: string -> real, web2: string -> SearchResponse)
    requires question != "" && CuratedHit(question, curated)
    ensures Ask(question, curated, corpus1, sim1, web1) == Ask(question, curated, corpus2, sim2, web2)
  {
    var i := AskPredefined(question, curated, corpus1, sim1, web1);
    var k := AskPredefined(question, curated, corpus2, sim2, web2);
    FirstBestEntryUnique(Normalize(question), curated, i, k);
  }

  /** The empty question consults no tier. */
  lemma EmptyQuestionShortCircuits(curated: seq<CuratedEntry>, corpus: seq<Passage>,
                                   sim: string -> real, web: string -> SearchResponse)
    ensures Ask("", curated, corpus, sim, web) == AskForQuestion
    ensures ToBody(Ask("", curated, corpus, sim, web)) == Body("Please ask a question.", None, None, None)
  {
  }

  /** The web lookup is consulted with the question followed by the fixed suffix, and nothing else. */
  lemma WebConsultedOnQueryOnly(question: string, curated: seq<CuratedEntry>, corpus: seq<Passage>,
                                sim: string -> real, web1: string -> SearchResponse, web2: string -> SearchResponse)
    requires web1(WebQuery(question)) == web2(WebQuery(question))
    ensures Ask(question, curated, corpus, sim, web1) == Ask(question, curated, corpus, sim, web2)
  {
  }

  /**
   A question of whitespace only is not refused: it normalizes to the empty
   string, every entry scores 5, and the first entry answers.
   */
  lemma WhitespaceQuestionGetsFirstEntry(question: string, curated: seq<CuratedEntry>, corpus: seq<Passage>,
                                         sim: string -> real, web: string -> SearchResponse)
    requires question != "" && forall i :: 0 <= i < |question| ==> IsSpace(question[i])
    requires curated != []
    ensures Ask(question, curated, corpus, sim, web)
         == Answered(curated[0].answer, curated[0].sourceUrl, 5.0, Predefined)
  {
    BlankNormalizesToEmpty(question);
    BlankQuestionPicksFirst(curated);
  }

  /** With the assistant's own table, a whitespace question is answered with "What is Boundless?". */
  lemma WhitespaceQuestionWithPredefinedTable(question: string, corpus: seq<Passage>,
                                              sim: string -> real, web: string -> SearchResponse)
    requires question != "" && forall i :: 0 <= i < |question| ==> IsSpace(question[i])
    ensures ToBody(Ask(question, PredefinedQA, corpus, sim, web))
         == Body(PredefinedAnswers[0], Some(PredefinedUrls[0]), Some(5.0), Some(SourceName(Predefined)))
  {
    WhitespaceQuestionGetsFirstEntry(question, PredefinedQA, corpus, sim, web);
  }

  /**
   With the assistant's curated questions, whatever their answers and urls, every
   question that mentions one of the special keywords is answered from the table,
   so neither the corpus nor the web is consulted for it.
   */
  lemma KeywordQuestionAnsweredFromTable(question: string, k: nat, curated: seq<CuratedEntry>, corpus: seq<Passage>,
                                         sim: string -> real, web: string -> SearchResponse)
    requires HasQuestions(curated, PredefinedQuestions)
    requires question != "" && k < |SpecialKeywords| && Contains(Normalize(question), SpecialKeywords[k].0)
    ensures Ask(question, curated, corpus, sim, web).Answered?
    ensures Ask(question, curated, corpus, sim, web).source == Predefined
  {
    KeywordQuestionReachesTwo(Normalize(question), k, curated);
    var i := AskPredefined(question, curated, corpus, sim, web);
  }

  /**
   A question about "Boundless proof markets" is answered from a table with the
   assistant's curated questions, whatever the corpus holds and whatever the
   similarity says.
   */
  lemma ProofMarketsQuestionAnsweredFromTable(curated: seq<CuratedEntry>, corpus: seq<Passage>,
                                              sim: string -> real, web: string -> SearchResponse)
    requires HasQuestions(curated, PredefinedQuestions)
    ensures Ask("Tell me about Boundless proof markets", curated, corpus, sim, web).Answered?
    ensures Ask("Tell me about Boundless proof markets", curated, corpus, sim, web).source == Predefined
  {
    var q := "Tell me about Boundless proof markets";
    MentionAt(q, SpecialKeywords[0].0, 14);
    LowerKeepsEnds(q);
    KeywordQuestionAnsweredFromTable(q, 0, curated, corpus, sim, web);
  }

  lemma LowerKeepsEnds(q: string)
    requires q == "Tell me about Boundless proof markets"
    ensures Normalize(q) == Lower(q)
  {
    assert !IsSpace(Lower(q)[0]) && !IsSpace(Lower(q)[|q| - 1]);
  }

  /**
   When the web lookup fails the reply still names the search page and a score
   of 0, and carries the fixed apology.
   */
  lemma WebFailureReply(question: string, curated: seq<CuratedEntry>, corpus: seq<Passage>,
                        sim: string -> real, web: string -> SearchResponse)
    requires question != "" && !CuratedHit(question, curated)
    requires !(curated == [] && HasEligible(corpus)) && !CorpusHit(question, corpus, sim)
    requires web(WebQuery(question)) == SearchFailed
    ensures ToBody(Ask(question, curated, corpus, sim, web)) == Body(SearchError, Some(WebUrl), Some(0.0), Some(SourceName(Web)))
  {
    CuratedTierCharacterised(Normalize(question), curated);
    RankerTierCharacterised(Normalize(question), corpus, sim);
  }
}
