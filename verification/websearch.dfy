/**
 The last tier of `ask`: a DuckDuckGo instant-answer lookup. The HTTP call and the
 JSON decoding are not modelled; their outcome is a `SearchResponse`, and
 `SearchWeb` picks the reply from it in the source's order of preference.
 */
module WebSearch {
  import opened Options

  /** One element of `RelatedTopics`: its `Text` entry, when it has one. */
  datatype Topic = Topic(text: Option<string>)

  /**
   What the lookup produced: either it failed (network, timeout, bad JSON), or it
   returned the three fields the assistant reads, where a missing `Abstract` or
   `Answer` is the empty string and a missing `RelatedTopics` the empty list.
   */
  datatype SearchResponse =
    | SearchFailed
    | Instant(abstractText: string, answerText: string, relatedTopics: seq<Topic>)

  const SearchError := "Sorry, I couldn't search the web at the moment."
  const NoInformation := "No information found."
  const NothingFound := "I couldn't find specific information about that on the web."

  /** The text appended to the question to form the query. */
  const QuerySuffix := " Boundless blockchain protocol"

  function WebQuery(question: string): (q: string)
    ensures |q| == |question| + |QuerySuffix|
    ensures q[..|question|] == question && q[|question|..] == QuerySuffix
  {
    question + QuerySuffix
  }

  /** Distinct questions give distinct queries: the question is the query without its fixed suffix. */
  lemma WebQueryInjective(q1: string, q2: string)
    ensures WebQuery(q1) == WebQuery(q2) <==> q1 == q2
  {
    if WebQuery(q1) == WebQuery(q2) {
      assert |q1| == |q2|;
      assert q1 == WebQuery(q1)[..|q1|] == WebQuery(q2)[..|q2|] == q2;
    }
  }

  /** `search_web` once the lookup has produced `response`. */
  function SearchWeb(response: SearchResponse): string {
    match response
    case SearchFailed => SearchError
    case Instant(abstractText, answerText, topics) =>
      if abstractText != "" then abstractText
      else if answerText != "" then answerText
      else if |topics| > 0 then (if topics[0].text.Some? then topics[0].text.value else NoInformation)
      else NothingFound
  }

  /** Whether the reply was taken from the response rather than being a fixed message. */
  predicate FromResponse(response: SearchResponse) {
    response.Instant? &&
    (response.abstractText != "" || response.answerText != "" ||
     (|response.relatedTopics| > 0 && response.relatedTopics[0].text.Some?))
  }

  /**
   The reply is the first non-empty of the abstract and the answer, else the text
   of the first related topic; a non-empty abstract decides the reply whatever
   else the response holds, and the fixed messages appear only when the response
   offers no text.
   */
  lemma SearchWebPreference(response: SearchResponse)
    ensures response.Instant? && response.abstractText != "" ==> SearchWeb(response) == response.abstractText
    ensures response.Instant? && response.abstractText == "" && response.answerText != "" ==>
              SearchWeb(response) == response.answerText
    ensures FromResponse(response) ==>
              SearchWeb(response) in {response.abstractText, response.answerText} ||
              (|response.relatedTopics| > 0 && Some(SearchWeb(response)) == response.relatedTopics[0].text)
    ensures !FromResponse(response) ==> SearchWeb(response) in {SearchError, NoInformation, NothingFound}
  {
  }

  /** The reply is empty only when the first related topic has an empty `Text`. */
  lemma SearchWebEmpty(response: SearchResponse)
    ensures SearchWeb(response) == "" <==>
              && response.Instant? && response.abstractText == "" && response.answerText == ""
              && |response.relatedTopics| > 0 && response.relatedTopics[0].text == Some("")
  {
  }
}
