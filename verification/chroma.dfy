/**
 The Chroma ingestion script `load_docs.py`. It removes every document of the
 collection, then, page by page, fetches the texts of the page's heading,
 paragraph and list tags, joins the non-empty ones with newlines, chunks the
 result at 40 words keeping chunks of more than 5 words, and adds one document
 per chunk with the id `<url>_chunk_<i>` and the metadata `{url, chunk_id: i}`.

 The fetch has no exception handler here: a failed fetch ends the script, with
 the collection already cleared and the earlier pages already added. The
 embedding vectors are not modelled; a document keeps its text, url and index.
 */
module ChromaIngest {
  import opened Options
  import opened Text
  import opened Chunker

  const MaxTokens: nat := 40
  const MinWordsExclusive: nat := 5

  const Pages: seq<string> := [
    "https://beboundless.xyz/",
    "https://docs.beboundless.xyz/developers/what",
    "https://docs.beboundless.xyz/developers/proof-lifecycle",
    "https://docs.beboundless.xyz/developers/why",
    "https://docs.beboundless.xyz/developers/core-concepts",
    "https://beboundless.xyz/ecosystem",
    "https://beboundless.xyz/blog",
    "https://docs.beboundless.xyz/provers/quick-start",
    "https://docs.beboundless.xyz/provers/who-should-run",
    "https://docs.beboundless.xyz/provers/requirements",
    "https://docs.beboundless.xyz/developers/quick-start",
    "https://docs.beboundless.xyz/developers/build-a-program",
    "https://docs.beboundless.xyz/developers/request-a-proof",
    "https://docs.beboundless.xyz/developers/use-a-proof",
    "https://read.beboundless.xyz/"
  ]

  /** `fetch_text_from_url` once the page's tag texts are known: `'\n'.join` of the non-empty ones. */
  function TagText(texts: seq<string>): string {
    JoinWith("\n", NonEmptyTexts(texts))
  }

  /** `chunk_text(text)` of this script. */
  function PageChunks(text: string): seq<string> {
    ChunkText(text, MaxTokens, MinWordsExclusive)
  }

  datatype Document = Document(id: string, text: string, url: string, chunkId: nat)

  const IdInfix := "_chunk_"

  /** `f"{url}_chunk_{i}"`. */
  function DocId(url: string, i: nat): string {
    url + IdInfix + Decimal(i)
  }

  /** The documents added for one page, one per chunk, numbered from 0. */
  function PageDocuments(url: string, chunks: seq<string>): (r: seq<Document>)
    ensures |r| == |chunks|
    ensures forall i :: 0 <= i < |r| ==> r[i] == Document(DocId(url, i), chunks[i], url, i)
  {
    seq(|chunks|, i requires 0 <= i < |chunks| => Document(DocId(url, i), chunks[i], url, i))
  }

  function Ids(collection: seq<Document>): (r: seq<string>)
    ensures |r| == |collection|
    ensures forall k :: 0 <= k < |r| ==> r[k] == collection[k].id
  {
    seq(|collection|, k requires 0 <= k < |collection| => collection[k].id)
  }

  /** `collection.delete(ids=...)`: the documents whose id is listed go. */
  function Delete(collection: seq<Document>, ids: seq<string>): (r: seq<Document>)
    ensures forall d :: d in r <==> d in collection && d.id !in ids
  {
    if collection == [] then []
    else (if collection[0].id in ids then [] else [collection[0]]) + Delete(collection[1..], ids)
  }

  /** How the script ends: after the last page, or at the first page whose fetch raised. */
  datatype Outcome =
    | Completed(collection: seq<Document>)
    | Aborted(collection: seq<Document>, failedPage: string)

  /** The loop over the pages; `fetch` yields a page's tag texts, or `None` when the request raises. */
  function AddPages(collection: seq<Document>, urls: seq<string>, fetch: string -> Option<seq<string>>): Outcome
    decreases |urls|
  {
    if urls == [] then Completed(collection)
    else match fetch(urls[0])
      case None => Aborted(collection, urls[0])
      case Some(texts) => AddPages(collection + PageDocuments(urls[0], PageChunks(TagText(texts))), urls[1..], fetch)
  }

  /** The script: clear the collection when it has ids, then add the pages. */
  function Ingest(collection: seq<Document>, urls: seq<string>, fetch: string -> Option<seq<string>>): Outcome {
    var ids := Ids(collection);
    var cleared := if ids != [] then Delete(collection, ids) else collection;
    AddPages(cleared, urls, fetch)
  }

  /** The script as configured: its fifteen pages. */
  function IngestPages(collection: seq<Document>, fetch: string -> Option<seq<string>>): Outcome {
    Ingest(collection, Pages, fetch)
  }

  /** Reference definition: the documents of the given pages, all fetched, in page order. */
  function Documents(urls: seq<string>, fetch: string -> Option<seq<string>>): seq<Document>
    requires forall u :: u in urls ==> fetch(u).Some?
    decreases |urls|
  {
    if urls == [] then []
    else
      assert urls[0] in urls;
      assert forall u :: u in urls[1..] ==> u in urls;
      PageDocuments(urls[0], PageChunks(TagText(fetch(urls[0]).value))) + Documents(urls[1..], fetch)
  }

  /** The number of the first page whose fetch fails, or `|urls|`. */
  function FirstFailure(urls: seq<string>, fetch: string -> Option<seq<string>>): (k: nat)
    ensures k <= |urls|
    ensures k < |urls| ==> fetch(urls[k]) == None
    ensures forall j :: 0 <= j < k ==> fetch(urls[j]).Some?
    decreases |urls|
  {
    if urls == [] || fetch(urls[0]) == None then 0 else 1 + FirstFailure(urls[1..], fetch)
  }

  // ---------------------------------------------------------------------------

  /** Deleting every id of the collection empties it. */
  lemma DeleteAllIds(collection: seq<Document>)
    ensures Delete(collection, Ids(collection)) == []
  {
    DeleteCovered(collection, Ids(collection));
  }

  lemma {:induction false} DeleteCovered(collection: seq<Document>, ids: seq<string>)
    requires forall k :: 0 <= k < |collection| ==> collection[k].id in ids
    ensures Delete(collection, ids) == []
    decreases |collection|
  {
    if collection != [] {
      assert collection[0].id in ids;
      DeleteCovered(collection[1..], ids);
    }
  }

  lemma {:induction false} FirstFailureNone(urls: seq<string>, fetch: string -> Option<seq<string>>)
    requires forall u :: u in urls ==> fetch(u).Some?
    ensures FirstFailure(urls, fetch) == |urls|
    decreases |urls|
  {
    if urls != [] {
      assert urls[0] in urls;
      assert forall u :: u in urls[1..] ==> u in urls;
      FirstFailureNone(urls[1..], fetch);
    }
  }

  lemma {:induction false} FirstFailureAt(urls: seq<string>, fetch: string -> Option<seq<string>>, k: nat)
    requires k < |urls| && fetch(urls[k]) == None && forall j :: 0 <= j < k ==> fetch(urls[j]).Some?
    ensures FirstFailure(urls, fetch) == k
    decreases k
  {
    if k > 0 {
      assert fetch(urls[0]).Some?;
      FirstFailureAt(urls[1..], fetch, k - 1);
    }
  }

  /**
   The loop adds the documents of the pages before the first failing fetch, in
   page order, and stops there: completed when every fetch succeeded, aborted at
   the failing page otherwise.
   */
  lemma {:induction false} AddPagesCharacterised(collection: seq<Document>, urls: seq<string>,
                                                 fetch: string -> Option<seq<string>>)
    ensures var k := FirstFailure(urls, fetch);
      assert forall u :: u in urls[..k] ==> fetch(u).Some?;
      && AddPages(collection, urls, fetch).collection == collection + Documents(urls[..k], fetch)
      && (AddPages(collection, urls, fetch).Completed? <==> k == |urls|)
      && (k < |urls| ==> AddPages(collection, urls, fetch).failedPage == urls[k])
    decreases |urls|
  {
    var k := FirstFailure(urls, fetch);
    assert forall u :: u in urls[..k] ==> fetch(u).Some?;
    if urls == [] || fetch(urls[0]) == None {
      assert urls[..k] == [];
      assert collection + [] == collection;
    } else {
      var first := PageDocuments(urls[0], PageChunks(TagText(fetch(urls[0]).value)));
      var rest := urls[1..];
      AddPagesCharacterised(collection + first, rest, fetch);
      var k' := FirstFailure(rest, fetch);
      assert k == k' + 1;
      assert urls[..k][1..] == rest[..k'];
      assert forall u :: u in rest[..k'] ==> fetch(u).Some?;
      assert Documents(urls[..k], fetch) == first + Documents(rest[..k'], fetch);
      ConcatAssoc(collection, first, Documents(rest[..k'], fetch));
    }
  }

  /** The documents present before the script have no influence on its outcome. */
  lemma IngestReplacesAll(c1: seq<Document>, c2: seq<Document>, urls: seq<string>,
                          fetch: string -> Option<seq<string>>)
    ensures Ingest(c1, urls, fetch) == Ingest(c2, urls, fetch)
    ensures Ingest(c1, urls, fetch) == AddPages([], urls, fetch)
  {
    DeleteAllIds(c1);
    DeleteAllIds(c2);
  }

  /** Whatever the collection held, when every fetch succeeds it ends with exactly the documents of the pages. */
  lemma IngestCompleted(collection: seq<Document>, urls: seq<string>, fetch: string -> Option<seq<string>>)
    requires forall u :: u in urls ==> fetch(u).Some?
    ensures Ingest(collection, urls, fetch) == Completed(Documents(urls, fetch))
  {
    IngestReplacesAll(collection, [], urls, fetch);
    AddPagesCharacterised([], urls, fetch);
    FirstFailureNone(urls, fetch);
    assert urls[..|urls|] == urls;
    assert [] + Documents(urls, fetch) == Documents(urls, fetch);
  }

  /** A failing fetch leaves the collection cleared and holding only the pages before it. */
  lemma IngestAborted(collection: seq<Document>, urls: seq<string>, fetch: string -> Option<seq<string>>, k: nat)
    requires k < |urls| && fetch(urls[k]) == None && forall j :: 0 <= j < k ==> fetch(urls[j]).Some?
    ensures forall u :: u in urls[..k] ==> fetch(u).Some?
    ensures Ingest(collection, urls, fetch) == Aborted(Documents(urls[..k], fetch), urls[k])
  {
    IngestReplacesAll(collection, [], urls, fetch);
    AddPagesCharacterised([], urls, fetch);
    FirstFailureAt(urls, fetch, k);
    assert [] + Documents(urls[..k], fetch) == Documents(urls[..k], fetch);
  }

  // ---------------------------------------------------------------------------

  /** A document of the script: its id, text and index all come from its page and its place there. */
  predicate WellFormed(d: Document, fetch: string -> Option<seq<string>>) {
    && fetch(d.url).Some?
    && var chunks := PageChunks(TagText(fetch(d.url).value));
    && d.chunkId < |chunks|
    && d.text == chunks[d.chunkId]
    && d.id == DocId(d.url, d.chunkId)
  }

  lemma {:induction false} DocumentsWellFormed(urls: seq<string>, fetch: string -> Option<seq<string>>)
    requires forall u :: u in urls ==> fetch(u).Some?
    ensures forall d :: d in Documents(urls, fetch) ==> d.url in urls && WellFormed(d, fetch)
    decreases |urls|
  {
    if urls != [] {
      assert urls[0] in urls;
      assert forall u :: u in urls[1..] ==> u in urls;
      DocumentsWellFormed(urls[1..], fetch);
      var page := PageDocuments(urls[0], PageChunks(TagText(fetch(urls[0]).value)));
      forall d | d in page
        ensures WellFormed(d, fetch)
      {
        var i :| 0 <= i < |page| && page[i] == d;
      }
    }
  }

  /**
   The last `_` of an id is the last character of the infix: the decimal chunk
   number after it has none, whatever the url holds.
   */
  lemma LastUnderscoreOfId(url: string, i: nat)
    ensures DocId(url, i)[|url| + |IdInfix| - 1] == '_'
    ensures forall k :: |url| + |IdInfix| <= k < |DocId(url, i)| ==> DocId(url, i)[k] != '_'
  {
    var id, d := DocId(url, i), Decimal(i);
    assert id == url + IdInfix + d;
    forall k | |url| + |IdInfix| <= k < |id|
      ensures id[k] != '_'
    {
      assert id[k] == d[k - |url| - |IdInfix|];
    }
  }

  /** An id determines the page and the chunk number, for any urls. */
  lemma DocIdInjective(u1: string, i: nat, u2: string, j: nat)
    requires DocId(u1, i) == DocId(u2, j)
    ensures u1 == u2 && i == j
  {
    var s := DocId(u1, i);
    LastUnderscoreOfId(u1, i);
    LastUnderscoreOfId(u2, j);
    assert |u1| == |u2|;
    assert s == u1 + (IdInfix + Decimal(i)) && s == u2 + (IdInfix + Decimal(j));
    assert u1 == s[..|u1|] == u2;
    assert Decimal(i) == s[|u1| + |IdInfix|..] == Decimal(j);
    DecimalInjective(i, j);
  }

  /** Within one page the chunk number determines the id: any url, `_` or not. */
  lemma PageIdsDistinct(url: string, chunks: seq<string>)
    ensures forall i, j :: 0 <= i < j < |chunks| ==> PageDocuments(url, chunks)[i].id != PageDocuments(url, chunks)[j].id
  {
    forall i, j | 0 <= i < j < |chunks|
      ensures DocId(url, i) != DocId(url, j)
    {
      if DocId(url, i) == DocId(url, j) {
        SamePageSameNumber(url, i, j);
      }
    }
  }

  lemma SamePageSameNumber(url: string, i: nat, j: nat)
    requires DocId(url, i) == DocId(url, j)
    ensures i == j
  {
    var n := |url| + |IdInfix|;
    assert Decimal(i) == DocId(url, i)[n..];
    assert Decimal(j) == DocId(url, j)[n..];
    DecimalInjective(i, j);
  }

  /**
   After a completed run, two documents with the same id are the same document;
   in particular the ids within one page are distinct.
   */
  lemma IdsIdentifyDocuments(urls: seq<string>, fetch: string -> Option<seq<string>>, d1: Document, d2: Document)
    requires forall u :: u in urls ==> fetch(u).Some?
    requires d1 in Documents(urls, fetch) && d2 in Documents(urls, fetch) && d1.id == d2.id
    ensures d1 == d2
  {
    DocumentsWellFormed(urls, fetch);
    DocIdInjective(d1.url, d1.chunkId, d2.url, d2.chunkId);
  }

  /** Ids of different pages differ, whatever the chunk numbers. */
  lemma DistinctPagesDistinctIds(u1: string, i: nat, u2: string, j: nat)
    requires u1 != u2
    ensures DocId(u1, i) != DocId(u2, j)
  {
    if DocId(u1, i) == DocId(u2, j) {
      DocIdInjective(u1, i, u2, j);
    }
  }

  /**
   When no page is listed twice, the documents of a completed run have
   pairwise distinct ids, so no `add` meets an id already present.
   */
  lemma {:induction false} DocumentIdsDistinct(urls: seq<string>, fetch: string -> Option<seq<string>>)
    requires forall u :: u in urls ==> fetch(u).Some?
    requires forall p, q :: 0 <= p < q < |urls| ==> urls[p] != urls[q]
    ensures forall p, q :: 0 <= p < q < |Documents(urls, fetch)| ==> Documents(urls, fetch)[p].id != Documents(urls, fetch)[q].id
    decreases |urls|
  {
    if urls != [] {
      assert urls[0] in urls;
      assert forall u :: u in urls[1..] ==> u in urls;
      var chunks := PageChunks(TagText(fetch(urls[0]).value));
      var page := PageDocuments(urls[0], chunks);
      var rest := Documents(urls[1..], fetch);
      var docs := Documents(urls, fetch);
      assert docs == page + rest;
      DocumentIdsDistinct(urls[1..], fetch);
      PageIdsDistinct(urls[0], chunks);
      DocumentsWellFormed(urls[1..], fetch);
      forall u | u in urls[1..]
        ensures u != urls[0]
      {
        var k :| 0 <= k < |urls| - 1 && urls[1..][k] == u;
        assert urls[k + 1] == u;
      }
      forall p, q | 0 <= p < q < |docs|
        ensures docs[p].id != docs[q].id
      {
        if q < |page| {
          assert docs[p] == page[p] && docs[q] == page[q];
        } else if p >= |page| {
          assert docs[p] == rest[p - |page|] && docs[q] == rest[q - |page|];
        } else {
          var d := rest[q - |page|];
          assert docs[p] == page[p] && docs[q] == d;
          assert d in rest;
          DistinctPagesDistinctIds(urls[0], p, d.url, d.chunkId);
        }
      }
    }
  }

  /** The fifteen configured pages are distinct, so a completed run of the script adds no id twice. */
  lemma ConfiguredIdsDistinct(fetch: string -> Option<seq<string>>)
    requires forall u :: u in Pages ==> fetch(u).Some?
    ensures forall p, q :: 0 <= p < q < |Documents(Pages, fetch)| ==> Documents(Pages, fetch)[p].id != Documents(Pages, fetch)[q].id
  {
    assert forall p, q :: 0 <= p < q < |Pages| ==> Pages[p] != Pages[q];
    DocumentIdsDistinct(Pages, fetch);
  }

  /** Every document text is a stripped chunk of more than 5 words. */
  lemma DocumentTexts(urls: seq<string>, fetch: string -> Option<seq<string>>)
    requires forall u :: u in urls ==> fetch(u).Some?
    ensures forall d :: d in Documents(urls, fetch) ==> WordCount(d.text) > MinWordsExclusive && Strip(d.text) == d.text
  {
    DocumentsWellFormed(urls, fetch);
    forall d | d in Documents(urls, fetch)
      ensures WordCount(d.text) > MinWordsExclusive && Strip(d.text) == d.text
    {
      var chunks := PageChunks(TagText(fetch(d.url).value));
      assert chunks[d.chunkId] in chunks;
    }
  }

  /** A page whose tags hold no text adds no document. */
  lemma EmptyPageAddsNothing(url: string, texts: seq<string>)
    requires forall i :: 0 <= i < |texts| ==> texts[i] == ""
    ensures PageDocuments(url, PageChunks(TagText(texts))) == []
  {
    JoinNonEmptyIsEmptyIff("\n", texts);
    ChunkTextEmpty(MaxTokens, MinWordsExclusive);
  }
}
