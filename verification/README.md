# Boundless assistant: retrieval core in Dafny

This project models the question-answering backend of the Boundless assistant.
It covers how an `/ask` request is answered and how the searchable text is
produced.

An answer comes from one of three tiers, tried in order:

1. the curated question table, scored by word overlap, containment and special keywords;
2. the documentation passages loaded at start-up, ranked by an opaque embedding similarity fused with the same lexical signals;
3. an instant-answer web search.

The searchable text is produced by three loaders: the in-memory start-up
loader, the Chroma ingestion script and the PostgreSQL ingestion script. All
three share one greedy sentence chunker.

Everything is functional: strings are `seq<char>`, the corpus and the tables
are sequences, and the effects are parameters. These are the embedding
similarity, the page fetches and the web lookup.

Modules, one file each:

| file | module | models |
|---|---|---|
| options.dfy | `Options` | `Option` |
| text.dfy | `Text` | the Python string operations used: `lower`, `strip`, `split()` word counts, `\w+` tokens, `in`, `join`, `str(int)`, and the `if txt` tag filter of both ingestion scripts |
| sentences.dfy | `Sentences` | `re.split(r'(?<=[.!?]) +', text)` |
| chunker.dfy | `Chunker` | `chunk_text`, generic in the word limit and the minimum chunk length |
| lexical.dfy | `Lexical` | normalisation, the special keyword table and the curated score |
| selection.dfy | `Selection` | the "first strictly greater" maximum scan used by both tiers |
| curated.dfy | `Curated` | `PREDEFINED_QA`, built from its questions, answers and urls column by column, and the curated tier |
| ranker.dfy | `Ranker` | passage eligibility, the fused score and the corpus tier |
| truncation.dfy | `Truncation` | shortening a documentation answer to 300 characters |
| websearch.dfy | `WebSearch` | `search_web` once the lookup has answered |
| assistant.dfy | `Assistant` | the `/ask` handler: the tiers that answer locally, then the web tier |
| loader.dfy | `CorpusLoader` | `fetch_and_process_data` |
| chroma.dfy | `ChromaIngest` | `load_docs.py` |
| postgres.dfy | `PostgresIngest` | `load_docs_postgres.py` |

Behaviour of the code a reader may not expect, modelled as the code behaves:

- **Keyword questions.** Every special keyword except "zkc" occurs in one of
  the curated questions, and a question holding "zkc" also holds "zk", which
  occurs in "What is ZK mining?". So any question whose normalised form
  contains a keyword has an entry scoring at least 2, and it is answered from
  the curated table
  (`Assistant.KeywordQuestionAnsweredFromTable`). For example, "Tell me about
  Boundless proof markets" never reaches the documentation tier: "boundless"
  occurs in the first curated question, so that entry scores at least 3
  (`Assistant.ProofMarketsQuestionAnsweredFromTable`).
- **Whitespace-only questions.** Such a question is not refused. It normalises
  to the empty string, which is contained in every curated question, so every
  entry scores 5 and the first entry answers.
- **Failed web search.** The reply is "Sorry, I couldn't search the web at the
  moment." It still names the DuckDuckGo page and carries a score of 0.
- **Chunk size.** The "over the limit" test counts the words of the open chunk
  glued to the next sentence, with no separator. A sentence whose first word
  continues the chunk's last word therefore adds no word to the count, and a
  chunk of several sentences can hold one word more than the limit. The bound
  `max + 1` is proved, and it is attained.
- **Chunk filter.** The minimum-length filter keeps chunks of strictly more
  than 5 or 8 words. The start-up loader keeps every non-blank chunk.
- **Truncation.** A truncated documentation answer can be empty: this happens
  when the first `.`-segment alone has 300 characters or more.
- **Ingestion failures.** `load_docs.py` does not catch a failed fetch. The
  run ends there, with the collection already emptied and the earlier pages
  added. Neither script replaces the corpus atomically.
- **Empty curated table.** With an empty table, the keyword dictionary is
  never defined. Scoring the first eligible passage then raises, and the
  handler answers "Sorry, an error occurred."

## Model

| member | source | states |
|---|---|---|
| Text.Strip | backend/app/main.py:178 | `strip()` removes whitespace only, and only at the two ends; the result has no whitespace at either end, and a stripped text is left unchanged |
| Text.StripUnique | backend/app/main.py:178 | `strip()` is determined by its shape: a stripped text with only whitespace before and after it is what `strip()` returns |
| Text.NonEmptyTexts | backend/app/load_docs.py:12-16 | exactly the non-empty tag texts are kept, and there are no more kept texts than tag texts |
| Text.NonEmptyTextsAppend | backend/app/load_docs_postgres.py:15-19 | the kept texts stay in tag order, each kept as often as it occurs, as the `'\n'.join` that follows needs |
| Text.Lower | backend/app/main.py:178 | lower-casing keeps the length and position of every character, turning only capitals into small letters |
| Text.TokensAreMaximalRuns | backend/app/main.py:179 | a string is in the token set exactly when it is a maximal run of word characters of the text, as `re.findall(r'\w+')` finds |
| Text.ContainsIffOccurs | backend/app/main.py:192 | the `in` test on strings holds exactly when the needle occurs at some position |
| Text.NoWordsIffBlank | backend/app/load_docs_postgres.py:38 | `split()` finds no word exactly when the text is all whitespace |
| Text.DecimalInjective | backend/app/load_docs.py:82 | distinct chunk numbers are printed differently |
| Sentences.SplitRoundTrip | backend/app/load_docs_postgres.py:27 | the sentence split is well formed (no boundary inside a sentence, whole space runs removed), and putting the removed spaces back gives the text again |
| Sentences.SplitCharacterised | backend/app/load_docs_postgres.py:27 | a list of pieces is the split of a text exactly when it is well formed and rejoins to that text |
| Chunker.Greedy | backend/app/load_docs_postgres.py:29-37 | every chunk the loop emits, before filtering, is stripped |
| Chunker.KeepLong | backend/app/load_docs_postgres.py:38 | a chunk is kept exactly when it has more words than the minimum, and nothing else is added |
| Chunker.Chunk | backend/app/load_docs.py:19-32 | every chunk returned has more words than the minimum and is stripped |
| Chunker.ChunkTextEmpty | backend/app/load_docs_postgres.py:25-38 | `chunk_text("")` is empty, whatever the limits |
| Chunker.ChunksAreRuns | backend/app/load_docs_postgres.py:27-38 | the chunks are the runs of whole consecutive sentences, each joined by spaces and stripped, that pass the filter; the runs cover the sentences in order, each exactly once |
| Chunker.LongSentenceAlone | backend/app/load_docs.py:24-27 | a sentence with more words than the limit forms a run of its own, so it is never split |
| Chunker.RunCeiling | backend/app/load_docs_postgres.py:31-35 | a run of two or more sentences has at most one word more than the limit |
| Chunker.CeilingReached | backend/app/load_docs_postgres.py:31-35 | that bound is attained: a sentence of exactly `max` words followed by a one-word sentence gives a single chunk of `max + 1` words |
| Lexical.KeywordBonusBound | backend/app/main.py:196-214 | the keyword bonus is at most 29, the sum of all weights |
| Lexical.KeywordBonusMeaning | backend/app/main.py:212-214 | a keyword contained in both texts adds at least its weight, and the bonus is 0 exactly when no keyword is contained in both |
| Lexical.NestedKeywordsCountTwice | backend/app/main.py:207-209 | substring matching counts "token" inside "tokenomics" and "zk" inside "zkc", so each of those words is worth at least 5 |
| Lexical.ScoreSymmetric | backend/app/main.py:189-214 | overlap, containment bonus and keyword bonus do not depend on which text is the question |
| Lexical.BlankNormalizesToEmpty | backend/app/main.py:173-178 | a question of whitespace only normalises to the empty string |
| Lexical.BlankQuestionScoresFive | backend/app/main.py:189-214 | the empty normalised question scores exactly 5 against any curated question |
| Lexical.VerbatimQuestionScore | backend/app/main.py:185-214 | a curated question asked verbatim scores its own token count plus 5 plus its own keyword bonus |
| Lexical.ScoreZeroIff | backend/app/main.py:185-214 | a curated score is 0 exactly when no token is shared, neither text contains the other, and no keyword occurs in both |
| Selection.FirstMax | backend/app/main.py:216-218 | the scan keeps a candidate only above the start value; a kept candidate beats every earlier one strictly and no candidate beats it |
| Selection.TiesKeepFirst | backend/app/main.py:216-218 | when every candidate has the same score above the start value, the scan keeps the first one |
| Selection.FirstMaxCharacterised | backend/app/main.py:262-264 | the scan picks `i` exactly when `i` is the first candidate of maximal score above the start value, and picks nothing exactly when no candidate is above it |
| Curated.CuratedTierCharacterised | backend/app/main.py:216-227 | the curated tier accepts exactly when some entry scores at least 2; it then picks the first entry of maximal score and reports that score |
| Curated.FirstBestEntryUnique | backend/app/main.py:216-218 | there is only one first entry of maximal score |
| Curated.PickDependsOnQuestionsOnly | backend/app/main.py:185-218 | the choice depends on the curated questions only, not on their answers or urls |
| Curated.BlankQuestionPicksFirst | backend/app/main.py:192-218 | for the empty normalised question every entry scores 5, the first entry is picked and the tier accepts |
| Curated.KeywordQuestionReachesTwo | backend/app/main.py:20-61 | every special keyword but "zkc" occurs in one of the eight curated questions, and a text holding "zkc" holds "zk", which occurs in "What is ZK mining?"; so against any table holding those questions, a question containing any keyword has an entry scoring at least 2 |
| Ranker.PassageScore | backend/app/main.py:235-260 | a passage is scored exactly when it has 20 to 800 characters and does not start with "Title:" |
| Ranker.RankedIsFirstBest | backend/app/main.py:262-264 | a passage the loop keeps is eligible, beats every earlier eligible passage strictly and is beaten by none, with its fused score reported |
| Ranker.RankerTierCharacterised | backend/app/main.py:262-266 | the corpus tier accepts exactly when some eligible passage scores above 0.3, and then answers with the first eligible passage of maximal score |
| Ranker.NoEligibleNoMatch | backend/app/main.py:235-242 | a corpus without eligible passages never yields a match |
| Ranker.SkippedPassagesIgnored | backend/app/main.py:237-247 | the similarity of skipped passages does not affect the ranking |
| Truncation.SplitDots | backend/app/main.py:272 | the split has at least one segment, and the first is the text up to the first `.` |
| Truncation.SplitDotsRoundTrip | backend/app/main.py:272 | joining the segments with `.` gives the text back, and no segment contains `.` |
| Truncation.DotPrefixLength | backend/app/main.py:271-279 | reference: the longest prefix within the bound that ends in `.`, with no `.` between it and the bound |
| Truncation.ShortenIsDotPrefix | backend/app/main.py:272-278 | on a text of at least 300 characters the accumulation loop builds exactly the longest prefix of at most 300 characters ending in `.` |
| Truncation.Truncate | backend/app/main.py:268-279 | a stripped passage of at most 300 characters is returned whole; a longer one is cut to its longest prefix within 300 characters ending in `.` |
| Truncation.TruncateCharacterised | backend/app/main.py:268-279 | the answer is a prefix of the stripped passage, has at most 300 characters and ends in `.` when non-empty; no `.` lies between its end and the 300th character; it is empty exactly when the first segment has 300 characters or more |
| WebSearch.WebQueryInjective | backend/app/main.py:289 | the query is the question followed by a fixed suffix, so two queries are equal exactly when their questions are |
| WebSearch.SearchWebPreference | backend/app/main.py:71-82 | a non-empty abstract wins, then a non-empty answer, then the first related topic's text; when the response offers none of these, or the lookup failed, the reply is one of the fixed messages |
| WebSearch.SearchWebEmpty | backend/app/main.py:75-76 | the reply is empty exactly when abstract and answer are empty and the first related topic has an empty text |
| Assistant.AskTiers | backend/app/main.py:168-300 | which tier answers, both directions: the refusal exactly for the empty question; the table exactly when some entry scores at least 2; the error exactly for an empty table with an eligible passage; the documentation exactly when no entry reaches 2 and some eligible passage scores above 0.3; the web otherwise |
| Assistant.AskPredefined | backend/app/main.py:216-227 | a curated answer is the answer and url of the first entry of maximal score, with that score |
| Assistant.AskFails | backend/app/main.py:253-300 | with an empty curated table an eligible passage raises, and the reply body is "Sorry, an error occurred." with a null url and no score or source |
| Assistant.AskDocumentation | backend/app/main.py:229-286 | a documentation answer is the truncated text and url of the first eligible passage of maximal fused score, with that score |
| Assistant.AskWeb | backend/app/main.py:288-296 | otherwise the reply is the web result, the DuckDuckGo url and a score of 0 |
| Assistant.EmptyQuestionShortCircuits | backend/app/main.py:171-174 | the empty question gets "Please ask a question." with no url, whatever the tiers hold |
| Assistant.CuratedAnswerShortCircuits | backend/app/main.py:221-227 | a curated answer does not depend on the corpus, the similarity or the web |
| Assistant.WebConsultedOnQueryOnly | backend/app/main.py:289 | the web lookup is consulted only on the question plus the fixed suffix |
| Assistant.WhitespaceQuestionGetsFirstEntry | backend/app/main.py:173-227 | a whitespace question is answered by the first curated entry with score 5 |
| Assistant.WhitespaceQuestionWithPredefinedTable | backend/app/main.py:20-24 | with the real table the reply body is the answer and url of "What is Boundless?", score 5 and source "predefined" |
| Assistant.KeywordQuestionAnsweredFromTable | backend/app/main.py:196-227 | with a table holding the real curated questions, every question whose normalised form contains a special keyword is answered from the table |
| Assistant.ProofMarketsQuestionAnsweredFromTable | backend/app/main.py:196-227 | with a table holding the real curated questions, "Tell me about Boundless proof markets" is answered from the table, whatever the corpus and similarity |
| Assistant.WebFailureReply | backend/app/main.py:80-82 | a failed web lookup gives the fixed apology with the DuckDuckGo url, score 0 and source "web_search" |
| CorpusLoader.HeadingTexts | backend/app/main.py:116-119 | every heading of 6 to 199 characters appears prefixed with "Title: ", nothing else does, and there are no more kept texts than headings |
| CorpusLoader.HeadingTextsAppend | backend/app/main.py:113-119 | the kept headings stay in tag order, each kept as often as it occurs: filtering a concatenation is concatenating the filtered parts |
| CorpusLoader.BlockTexts | backend/app/main.py:122-125 | exactly the blocks of 21 to 999 characters are kept |
| CorpusLoader.BlockTextsAppend | backend/app/main.py:122-125 | the kept blocks stay in tag order, each kept as often as it occurs |
| CorpusLoader.InlineIsChunker | backend/app/main.py:131-147 | the inline loop is the generic chunker at 30 words whose filter keeps every chunk of at least one word |
| CorpusLoader.InlineChunksAreChunkText | backend/app/main.py:128-147 | hence a page's chunks are `chunk_text(text, 30)` with that filter, each non-blank and stripped |
| CorpusLoader.LoadAppends | backend/app/main.py:104-150 | the loop appends the pages' passages, in page order, to the corpus it started from |
| CorpusLoader.ContributionShape | backend/app/main.py:131-147 | a page contributes only when its fetch succeeded, and only non-blank stripped chunks of its text tagged with it |
| CorpusLoader.LoadIsAppendOnly | backend/app/main.py:104-150 | earlier passages are kept in place, and every new passage is a non-blank stripped chunk of a listed page whose fetch succeeded |
| CorpusLoader.FailedFetchesAddNothing | backend/app/main.py:149-150 | when every fetch fails the corpus is unchanged |
| CorpusLoader.LoadSplits | backend/app/main.py:104-150 | loading a list in two parts is loading the whole list |
| ChromaIngest.Delete | backend/app/load_docs.py:68 | a document survives exactly when its id is not listed |
| ChromaIngest.DeleteAllIds | backend/app/load_docs.py:66-68 | deleting all ids of the collection empties it |
| ChromaIngest.AddPagesCharacterised | backend/app/load_docs.py:69-83 | the loop adds the documents of the pages before the first failing fetch, in page order; it completes exactly when no fetch fails, and otherwise stops at the failing page |
| ChromaIngest.IngestReplacesAll | backend/app/load_docs.py:66-83 | the outcome does not depend on what the collection held |
| ChromaIngest.IngestCompleted | backend/app/load_docs.py:66-83 | when every fetch succeeds the collection ends with exactly the documents of the pages |
| ChromaIngest.IngestAborted | backend/app/load_docs.py:66-83 | a failing fetch leaves the collection cleared and holding only the documents of the pages before it |
| ChromaIngest.DocumentsWellFormed | backend/app/load_docs.py:76-83 | every document's id, text and chunk number come from its page and its place there |
| ChromaIngest.DocIdInjective | backend/app/load_docs.py:82 | for any urls, an id determines the page and the chunk number: the decimal chunk number after the last `_` holds no `_` |
| ChromaIngest.PageIdsDistinct | backend/app/load_docs.py:76-83 | the ids within one page are pairwise distinct |
| ChromaIngest.IdsIdentifyDocuments | backend/app/load_docs.py:76-83 | after a completed run, two documents with the same id are the same document |
| ChromaIngest.DocumentIdsDistinct | backend/app/load_docs.py:69-83 | when no page is listed twice, the documents of a completed run have pairwise distinct ids |
| ChromaIngest.ConfiguredIdsDistinct | backend/app/load_docs.py:35-83 | the fifteen configured pages are distinct, so a completed run of the script never adds an id twice |
| ChromaIngest.DocumentTexts | backend/app/load_docs.py:32 | every document text is stripped and has more than 5 words |
| ChromaIngest.EmptyPageAddsNothing | backend/app/load_docs.py:13-17 | a page whose tags hold no text adds no document |
| PostgresIngest.FetchTextEmptyIff | backend/app/load_docs_postgres.py:10-23 | a page's text is empty exactly when its fetch raised or every tag text is empty |
| PostgresIngest.ExecuteInserts | backend/app/load_docs_postgres.py:118-121 | executing inserts appends their rows to the table |
| PostgresIngest.InsertPagesCharacterised | backend/app/load_docs_postgres.py:105-126 | the loop issues only inserts, whose rows are each page's chunks in page order, and the counter grows by their number |
| PostgresIngest.RunCharacterised | backend/app/load_docs_postgres.py:97-126 | the delete comes first and only once; whatever the table held, it ends holding exactly the pages' rows in page order, and `total_chunks` is their count |
| PostgresIngest.RunTwice | backend/app/load_docs_postgres.py:97-126 | running the script again leaves the same table |
| PostgresIngest.FailedFetchAddsNothing | backend/app/load_docs_postgres.py:21-23 | a failed fetch yields no chunk and no insert |
| PostgresIngest.RowsFromPages | backend/app/load_docs_postgres.py:107-122 | every row belongs to a listed page and holds one of that page's chunks |
| PostgresIngest.RowsShape | backend/app/load_docs_postgres.py:38 | every stored row comes from a listed page whose fetch succeeded, and is a stripped chunk of it with more than 8 words |

## Left out

- Fetching and HTML extraction (requests, BeautifulSoup): a page is given by the texts of its tags in document order, or by a failure. `get_text(strip=True)` is assumed to have stripped them already.
- The embedding model and cosine similarity (SentenceTransformer, numpy): the similarity is an opaque real-valued function of the passage text. Float rounding and the NaN of a zero-norm vector are not modelled; the fused score is computed on exact reals.
- The DuckDuckGo HTTP call, URL encoding of the query and JSON decoding: their outcome is a `SearchResponse`.
- Unicode: `lower()` and `\w` are modelled on ASCII letters, digits and `_`. Whitespace is the full set of characters for which Python's `str.isspace` holds.
- The FastAPI app and routes, JSON request parsing, a non-string `question`, the start-up hook, `/`, `/health` and `/predefined-questions`: these are transport only.
- The catch-all exception handler: only the exception the model can produce (the undefined keyword table) is modelled; any other failure inside the handler is not.
- Database and vector-store clients, connections, transactions and embedding columns: the Chroma collection is a sequence of documents, and the PostgreSQL table is a sequence of rows changed by a list of statements.
- The separate commit of the PostgreSQL delete, concurrency, and the lack of atomicity of either replacement.
- Chroma's behaviour on `add` with an id already present: for the configured pages a completed run is proved never to add an id twice, so it does not arise there.
- Logging (`print`).
- WebSearch.SearchWebPreference: states the preference among the fields of the lookup's response case by case; with the lookup itself left out, there is no independent reference for `search_web` to be compared with.

## Findings

None. The quirks listed above are modelled as the code behaves, and nothing
shows they are unintended.
