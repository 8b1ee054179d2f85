/**
 The start-up loader of the assistant, `fetch_and_process_data`: for each of its
 fifteen pages it keeps the headings of 6 to 199 characters, each prefixed with
 "Title: ", and the paragraph-like blocks of 21 to 999 characters, joins them
 with spaces, splits the text into sentences and chunks them greedily at 30
 words. Every non-blank chunk is appended, stripped and tagged with the page, to
 the in-memory corpus, which is never cleared.

 Fetching and HTML extraction are an opaque function from a page to the texts
 of its heading tags and of its block tags, in document order; `None` stands for
 any exception raised while fetching, after which the page is skipped.
 */
module CorpusLoader {
  import opened Options
  import opened Text
  import Sentences
  import opened Chunker
  import opened Ranker

  const MaxWords: nat := 30

  const Pages: seq<string> := [
    "https://beboundless.xyz/",
    "https://docs.beboundless.xyz/developers/what",
    "https://docs.beboundless.xyz/developers/proof-lifecycle",
    "https://docs.beboundless.xyz/developers/why",
    "https://docs.beboundless.xyz/developers/core-concepts",
    "https://docs.beboundless.xyz/provers/quick-start",
    "https://docs.beboundless.xyz/provers/who-should-run",
    "https://docs.beboundless.xyz/provers/requirements",
    "https://docs.beboundless.xyz/developers/quick-start",
    "https://docs.beboundless.xyz/developers/build-a-program",
    "https://docs.beboundless.xyz/developers/request-a-proof",
    "https://docs.beboundless.xyz/developers/use-a-proof",
    "https://beboundless.xyz/ecosystem",
    "https://beboundless.xyz/blog",
    "https://read.beboundless.xyz/"
  ]

  /** The stripped texts of a page's `h1`..`h5` tags and of its `p`, `li` and `div` tags. */
  datatype Page = Page(headings: seq<string>, blocks: seq<string>)

  const TitlePrefix := "Title: "

  /** The headings of 6 to 199 characters, each prefixed with "Title: ". */
  function HeadingTexts(headings: seq<string>): (r: seq<string>)
    ensures |r| <= |headings|
    ensures forall h :: h in headings && 5 < |h| < 200 ==> TitlePrefix + h in r
    ensures forall t :: t in r ==> TitlePrefix <= t && 5 < |t| - |TitlePrefix| < 200 && t[|TitlePrefix|..] in headings
  {
    if headings == [] then []
    else
      var h := headings[0];
      var rest := HeadingTexts(headings[1..]);
      if 5 < |h| < 200 then
        assert (TitlePrefix + h)[|TitlePrefix|..] == h;
        [TitlePrefix + h] + rest
      else rest
  }

  /** The blocks of 21 to 999 characters, unchanged and in order. */
  function BlockTexts(blocks: seq<string>): (r: seq<string>)
    ensures |r| <= |blocks|
    ensures forall b :: b in r <==> b in blocks && 20 < |b| < 1000
  {
    if blocks == [] then []
    else (if 20 < |blocks[0]| < 1000 then [blocks[0]] else []) + BlockTexts(blocks[1..])
  }

  /** `' '.join(texts)`: the kept headings first, then the kept blocks. */
  function PageText(p: Page): string {
    JoinWith(" ", HeadingTexts(p.headings) + BlockTexts(p.blocks))
  }

  /**
   The chunking loop written inline in the loader: the same greedy test as
   `chunk_text`, but a chunk is emitted, stripped, only when it is not blank.
   */
  function InlineChunks(sentences: seq<string>, open: string): seq<string>
    decreases |sentences|
  {
    var emitted := if Strip(open) != "" then [Strip(open)] else [];
    if sentences == [] then emitted
    else if WordCount(open + sentences[0]) > MaxWords then emitted + InlineChunks(sentences[1..], sentences[0])
    else InlineChunks(sentences[1..], open + " " + sentences[0])
  }

  /** The passages one fetched page contributes, in chunk order. */
  function PagePassages(url: string, p: Page): (r: seq<Passage>)
    ensures |r| == |InlineChunks(Sentences.SplitSentences(PageText(p)), "")|
    ensures forall k :: 0 <= k < |r| ==> r[k] == Passage(InlineChunks(Sentences.SplitSentences(PageText(p)), "")[k], url)
  {
    var chunks := InlineChunks(Sentences.SplitSentences(PageText(p)), "");
    seq(|chunks|, k requires 0 <= k < |chunks| => Passage(chunks[k], url))
  }

  /** What one page adds: nothing when its fetch failed. */
  function Contribution(url: string, fetch: string -> Option<Page>): seq<Passage> {
    match fetch(url)
    case None => []
    case Some(p) => PagePassages(url, p)
  }

  /** `fetch_and_process_data()` at start-up: the fifteen pages, loaded into the corpus. */
  function LoadPages(corpus: seq<Passage>, fetch: string -> Option<Page>): seq<Passage> {
    Load(corpus, Pages, fetch)
  }

  /** The loop over the pages, appending to the corpus as it goes. */
  function Load(corpus: seq<Passage>, urls: seq<string>, fetch: string -> Option<Page>): seq<Passage>
    decreases |urls|
  {
    if urls == [] then corpus
    else Load(corpus + Contribution(urls[0], fetch), urls[1..], fetch)
  }

  /** Reference definition: the contributions of the pages, concatenated in page order. */
  function Contributions(urls: seq<string>, fetch: string -> Option<Page>): seq<Passage>
    decreases |urls|
  {
    if urls == [] then [] else Contribution(urls[0], fetch) + Contributions(urls[1..], fetch)
  }

  // ---------------------------------------------------------------------------

  /** The headings are kept in tag order, each as often as it occurs: filtering a concatenation is concatenating the filtered parts. */
  lemma {:induction false} HeadingTextsAppend(a: seq<string>, b: seq<string>)
    ensures HeadingTexts(a + b) == HeadingTexts(a) + HeadingTexts(b)
    decreases |a|
  {
    if a == [] {
      assert a + b == b;
    } else {
      assert (a + b)[1..] == a[1..] + b;
      HeadingTextsAppend(a[1..], b);
      if 5 < |a[0]| < 200 {
        ConcatAssoc([TitlePrefix + a[0]], HeadingTexts(a[1..]), HeadingTexts(b));
      }
    }
  }

  /** The blocks are kept in tag order, each as often as it occurs. */
  lemma {:induction false} BlockTextsAppend(a: seq<string>, b: seq<string>)
    ensures BlockTexts(a + b) == BlockTexts(a) + BlockTexts(b)
    decreases |a|
  {
    if a == [] {
      assert a + b == b;
    } else {
      assert (a + b)[1..] == a[1..] + b;
      BlockTextsAppend(a[1..], b);
      ConcatAssoc(if 20 < |a[0]| < 1000 then [a[0]] else [], BlockTexts(a[1..]), BlockTexts(b));
    }
  }

  /** The inline loop is `chunk_text` with a limit of 30 words that keeps every chunk of at least one word. */
  lemma {:induction false} InlineIsChunker(sentences: seq<string>, open: string)
    ensures InlineChunks(sentences, open) == KeepLong(Greedy(sentences, MaxWords, open), 0)
    decreases |sentences|
  {
    var head := Strip(open);
    StrippedHasWords(head);
    assert KeepLong([head], 0) == (if head != "" then [head] else []);
    if sentences == [] {
      if open == "" {
        assert head == "";
      }
    } else if WordCount(open + sentences[0]) > MaxWords {
      InlineIsChunker(sentences[1..], sentences[0]);
      KeepLongAppend([head], Greedy(sentences[1..], MaxWords, sentences[0]), 0);
    } else {
      InlineIsChunker(sentences[1..], open + " " + sentences[0]);
    }
  }

  /** Hence the chunks of a page are `ChunkText(text, 30, 0)`: runs of whole sentences, none blank. */
  lemma InlineChunksAreChunkText(p: Page)
    ensures InlineChunks(Sentences.SplitSentences(PageText(p)), "") == ChunkText(PageText(p), MaxWords, 0)
    ensures forall c :: c in ChunkText(PageText(p), MaxWords, 0) ==> c != "" && Strip(c) == c
  {
    InlineIsChunker(Sentences.SplitSentences(PageText(p)), "");
    forall c | c in ChunkText(PageText(p), MaxWords, 0)
      ensures c != "" && Strip(c) == c
    {
      StrippedHasWords(c);
    }
  }

  /** The loop appends the pages' contributions, in page order, to the corpus it started from. */
  lemma {:induction false} LoadAppends(corpus: seq<Passage>, urls: seq<string>, fetch: string -> Option<Page>)
    ensures Load(corpus, urls, fetch) == corpus + Contributions(urls, fetch)
    decreases |urls|
  {
    if urls != [] {
      var c := Contribution(urls[0], fetch);
      LoadAppends(corpus + c, urls[1..], fetch);
      ConcatAssoc(corpus, c, Contributions(urls[1..], fetch));
    }
  }

  /** Every passage a page contributes is a non-blank stripped chunk of that page, tagged with it. */
  lemma ContributionShape(url: string, fetch: string -> Option<Page>)
    ensures forall q :: q in Contribution(url, fetch) ==>
              q.url == url && fetch(url).Some? && q.content != "" && Strip(q.content) == q.content
              && q.content in ChunkText(PageText(fetch(url).value), MaxWords, 0)
  {
    if fetch(url).Some? {
      var p := fetch(url).value;
      InlineChunksAreChunkText(p);
      var chunks := InlineChunks(Sentences.SplitSentences(PageText(p)), "");
      forall q | q in Contribution(url, fetch)
        ensures q.url == url && q.content in ChunkText(PageText(p), MaxWords, 0)
      {
        var k :| 0 <= k < |PagePassages(url, p)| && PagePassages(url, p)[k] == q;
        assert q.content == chunks[k];
      }
    }
  }

  /** Every new passage comes from a page of the list whose fetch succeeded, and is a non-blank stripped chunk of it. */
  lemma {:induction false} ContributionsShape(urls: seq<string>, fetch: string -> Option<Page>)
    ensures forall q :: q in Contributions(urls, fetch) ==>
              q.url in urls && fetch(q.url).Some? && q.content != "" && Strip(q.content) == q.content
    decreases |urls|
  {
    if urls != [] {
      ContributionShape(urls[0], fetch);
      ContributionsShape(urls[1..], fetch);
      assert forall u :: u in urls[1..] ==> u in urls;
    }
  }

  /**
   The corpus is append-only: what was loaded before is kept, in place, and every
   passage after it is a non-blank stripped chunk of a successfully fetched page
   of the list, tagged with that page.
   */
  lemma LoadIsAppendOnly(corpus: seq<Passage>, urls: seq<string>, fetch: string -> Option<Page>)
    ensures |Load(corpus, urls, fetch)| >= |corpus|
    ensures Load(corpus, urls, fetch)[..|corpus|] == corpus
    ensures forall k :: |corpus| <= k < |Load(corpus, urls, fetch)| ==>
              var q := Load(corpus, urls, fetch)[k];
              q.url in urls && fetch(q.url).Some? && q.content != "" && Strip(q.content) == q.content
  {
    LoadAppends(corpus, urls, fetch);
    ContributionsShape(urls, fetch);
    var r := Load(corpus, urls, fetch);
    forall k | |corpus| <= k < |r|
      ensures r[k] in Contributions(urls, fetch)
    {
      assert r[k] == Contributions(urls, fetch)[k - |corpus|];
    }
  }

  /** When every fetch fails the corpus is left as it was. */
  lemma {:induction false} FailedFetchesAddNothing(corpus: seq<Passage>, urls: seq<string>, fetch: string -> Option<Page>)
    requires forall u :: u in urls ==> fetch(u) == None
    ensures Load(corpus, urls, fetch) == corpus
    decreases |urls|
  {
    if urls != [] {
      assert urls[0] in urls;
      assert corpus + [] == corpus;
      assert forall u :: u in urls[1..] ==> u in urls;
      FailedFetchesAddNothing(corpus, urls[1..], fetch);
    }
  }

  /** Loading a list of pages in two parts is loading the whole list. */
  lemma LoadSplits(corpus: seq<Passage>, urls1: seq<string>, urls2: seq<string>, fetch: string -> Option<Page>)
    ensures Load(Load(corpus, urls1, fetch), urls2, fetch) == Load(corpus, urls1 + urls2, fetch)
  {
    var first := Load(corpus, urls1, fetch);
    var c1, c2 := Contributions(urls1, fetch), Contributions(urls2, fetch);
    LoadAppends(corpus, urls1, fetch);
    LoadAppends(first, urls2, fetch);
    LoadAppends(corpus, urls1 + urls2, fetch);
    ContributionsAppend(urls1, urls2, fetch);
    ConcatAssoc(corpus, c1, c2);
  }

  lemma {:induction false} ContributionsAppend(urls1: seq<string>, urls2: seq<string>, fetch: string -> Option<Page>)
    ensures Contributions(urls1 + urls2, fetch) == Contributions(urls1, fetch) + Contributions(urls2, fetch)
    decreases |urls1|
  {
    if urls1 == [] {
      assert urls1 + urls2 == urls2;
    } else {
      assert (urls1 + urls2)[0] == urls1[0];
      assert (urls1 + urls2)[1..] == urls1[1..] + urls2;
      ContributionsAppend(urls1[1..], urls2, fetch);
    }
  }
}
