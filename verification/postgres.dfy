/**
 The PostgreSQL ingestion script `load_docs_postgres.py`. Set-up deletes every
 row of `boundless_chunks`; then each page is fetched (a failing fetch yields the
 empty text), chunked at 120 words keeping chunks of more than 8 words, and one
 row `(content, url)` is inserted per chunk, while `total_chunks` counts the
 inserts.

 The database is a sequence of rows, and the script is the list of statements
 it executes. Embedding vectors, the serial id and the timestamp column are not
 modelled.
 */
module PostgresIngest {
  import opened Options
  import opened Text
  import opened Chunker

  const MaxTokens: nat := 120
  const MinWordsExclusive: nat := 8

  datatype Row = Row(content: string, url: string)

  datatype Statement = DeleteAll | Insert(row: Row)

  /** `fetch_text_from_url`: `'\n'.join` of the non-empty tag texts, or "" when the request raised. */
  function FetchText(fetched: Option<seq<string>>): (r: string)
    ensures fetched.None? ==> r == ""
  {
    match fetched
    case None => ""
    case Some(texts) => JoinWith("\n", NonEmptyTexts(texts))
  }

  /** `chunk_text(text)` of this script. */
  function PageChunks(text: string): seq<string> {
    ChunkText(text, MaxTokens, MinWordsExclusive)
  }

  /** The inserts of one page, in chunk order. */
  function PageInserts(url: string, chunks: seq<string>): (r: seq<Statement>)
    ensures |r| == |chunks|
    ensures forall i :: 0 <= i < |r| ==> r[i] == Insert(Row(chunks[i], url))
  {
    seq(|chunks|, i requires 0 <= i < |chunks| => Insert(Row(chunks[i], url)))
  }

  /** The rows of one page, in chunk order. */
  function PageRows(url: string, chunks: seq<string>): (r: seq<Row>)
    ensures |r| == |chunks|
    ensures forall i :: 0 <= i < |r| ==> r[i] == Row(chunks[i], url)
  {
    seq(|chunks|, i requires 0 <= i < |chunks| => Row(chunks[i], url))
  }

  /** The statements a run executes, and the final value of `total_chunks`. */
  datatype Script = Script(statements: seq<Statement>, total: nat)

  /** `chunk_text(fetch_text_from_url(url))` for every page, given what fetching each page yields. */
  function ChunksOf(fetch: string -> Option<seq<string>>): string -> seq<string> {
    url => PageChunks(FetchText(fetch(url)))
  }

  /** The loop over the pages, with `chunksOf` the chunks of each page and `total` the counter so far. */
  function InsertPages(urls: seq<string>, chunksOf: string -> seq<string>, total: nat): Script
    decreases |urls|
  {
    if urls == [] then Script([], total)
    else
      var inserts := PageInserts(urls[0], chunksOf(urls[0]));
      var later := InsertPages(urls[1..], chunksOf, total + |inserts|);
      Script(inserts + later.statements, later.total)
  }

  /** The script: set-up's delete, then the inserts. */
  function Run(urls: seq<string>, fetch: string -> Option<seq<string>>): Script {
    var loop := InsertPages(urls, ChunksOf(fetch), 0);
    Script([DeleteAll] + loop.statements, loop.total)
  }

  /** The table after executing `statements` in order. */
  function Execute(table: seq<Row>, statements: seq<Statement>): seq<Row>
    decreases |statements|
  {
    if statements == [] then table
    else
      var next := match statements[0]
        case DeleteAll => []
        case Insert(row) => table + [row];
      Execute(next, statements[1..])
  }

  /** Reference definition: each page's chunks tagged with the page, in page order. */
  function Rows(urls: seq<string>, chunksOf: string -> seq<string>): (r: seq<Row>)
    decreases |urls|
  {
    if urls == [] then [] else PageRows(urls[0], chunksOf(urls[0])) + Rows(urls[1..], chunksOf)
  }

  // ---------------------------------------------------------------------------

  /** Inserting rows appends them to the table. */
  lemma {:induction false} ExecuteInserts(table: seq<Row>, statements: seq<Statement>)
    requires AllInserts(statements)
    ensures Execute(table, statements) == table + RowsOf(statements)
    decreases |statements|
  {
    if statements == [] {
      assert table + [] == table;
    } else {
      var row := statements[0].row;
      var rest := statements[1..];
      assert AllInserts(rest);
      assert Execute(table, statements) == Execute(table + [row], rest);
      ExecuteInserts(table + [row], rest);
      RowsOfCons(statements);
      ConcatAssoc(table, [row], RowsOf(rest));
    }
  }

  predicate AllInserts(statements: seq<Statement>) {
    forall k :: 0 <= k < |statements| ==> statements[k].Insert?
  }

  /** The rows carried by a list of inserts. */
  function RowsOf(statements: seq<Statement>): (r: seq<Row>)
    requires AllInserts(statements)
    ensures |r| == |statements|
    ensures forall k :: 0 <= k < |r| ==> r[k] == statements[k].row
  {
    seq(|statements|, k requires 0 <= k < |statements| => statements[k].row)
  }

  /**
   The loop emits only inserts, one per chunk of each page in page order, and
   the counter ends at its start plus their number.
   */
  lemma {:induction false} InsertPagesCharacterised(urls: seq<string>, chunksOf: string -> seq<string>, total: nat)
    ensures var script := InsertPages(urls, chunksOf, total);
      && AllInserts(script.statements)
      && RowsOf(script.statements) == Rows(urls, chunksOf)
      && script.total == total + |script.statements|
    decreases |urls|
  {
    if urls != [] {
      var chunks := chunksOf(urls[0]);
      var inserts := PageInserts(urls[0], chunks);
      InsertPagesCharacterised(urls[1..], chunksOf, total + |inserts|);
      var later := InsertPages(urls[1..], chunksOf, total + |inserts|);
      PageInsertsCarryRows(urls[0], chunks);
      ConcatInserts(inserts, later.statements);
    }
  }

  lemma PageInsertsCarryRows(url: string, chunks: seq<string>)
    ensures AllInserts(PageInserts(url, chunks))
    ensures RowsOf(PageInserts(url, chunks)) == PageRows(url, chunks)
  {
  }

  lemma RowsOfCons(statements: seq<Statement>)
    requires statements != [] && AllInserts(statements)
    ensures AllInserts(statements[1..])
    ensures RowsOf(statements) == [statements[0].row] + RowsOf(statements[1..])
  {
  }

  lemma ConcatInserts(a: seq<Statement>, b: seq<Statement>)
    requires AllInserts(a) && AllInserts(b)
    ensures AllInserts(a + b)
    ensures RowsOf(a + b) == RowsOf(a) + RowsOf(b)
  {
  }

  /**
   Whatever the table held, after the script it holds exactly the rows of the
   pages' chunks in page order, and `total_chunks` is their number; the delete
   is the first statement and the only one.
   */
  lemma RunCharacterised(table: seq<Row>, urls: seq<string>, fetch: string -> Option<seq<string>>)
    ensures var script := Run(urls, fetch);
      && script.statements[0] == DeleteAll
      && (forall k :: 1 <= k < |script.statements| ==> script.statements[k].Insert?)
      && Execute(table, script.statements) == Rows(urls, ChunksOf(fetch))
      && script.total == |Rows(urls, ChunksOf(fetch))|
  {
    var inserts := InsertPages(urls, ChunksOf(fetch), 0).statements;
    InsertPagesCharacterised(urls, ChunksOf(fetch), 0);
    var statements := [DeleteAll] + inserts;
    assert statements[1..] == inserts;
    assert Execute(table, statements) == Execute([], inserts);
    ExecuteInserts([], inserts);
    assert [] + RowsOf(inserts) == RowsOf(inserts);
  }

  /** Running the script again leaves the same table. */
  lemma RunTwice(table: seq<Row>, urls: seq<string>, fetch: string -> Option<seq<string>>)
    ensures Execute(Execute(table, Run(urls, fetch).statements), Run(urls, fetch).statements) == Execute(table, Run(urls, fetch).statements)
  {
    RunCharacterised(table, urls, fetch);
    RunCharacterised(Execute(table, Run(urls, fetch).statements), urls, fetch);
  }

  /** The text of a page is empty exactly when its fetch failed or every tag text is empty. */
  lemma FetchTextEmptyIff(fetched: Option<seq<string>>)
    ensures FetchText(fetched) == "" <==>
              fetched.None? || forall i :: 0 <= i < |fetched.value| ==> fetched.value[i] == ""
  {
    if fetched.Some? {
      JoinNonEmptyIsEmptyIff("\n", fetched.value);
    }
  }

  /** A page whose fetch fails has no chunk, so it contributes no insert. */
  lemma FailedFetchAddsNothing(url: string, fetch: string -> Option<seq<string>>)
    requires fetch(url) == None
    ensures ChunksOf(fetch)(url) == []
    ensures PageInserts(url, ChunksOf(fetch)(url)) == []
  {
    ChunkTextEmpty(MaxTokens, MinWordsExclusive);
  }

  /** Every row belongs to a listed page and holds one of that page's chunks. */
  lemma {:induction false} RowsFromPages(urls: seq<string>, chunksOf: string -> seq<string>)
    ensures forall r :: r in Rows(urls, chunksOf) ==> r.url in urls && r.content in chunksOf(r.url)
    decreases |urls|
  {
    if urls != [] {
      RowsFromPages(urls[1..], chunksOf);
      var page := PageRows(urls[0], chunksOf(urls[0]));
      forall r | r in page
        ensures r.url == urls[0] && r.content in chunksOf(urls[0])
      {
        var i :| 0 <= i < |page| && page[i] == r;
      }
      assert forall u :: u in urls[1..] ==> u in urls;
    }
  }

  /** Every stored row is a stripped chunk of more than 8 words of a listed page. */
  lemma RowsShape(urls: seq<string>, fetch: string -> Option<seq<string>>)
    ensures forall r :: r in Rows(urls, ChunksOf(fetch)) ==>
              && r.url in urls && fetch(r.url).Some? && r.content in PageChunks(FetchText(fetch(r.url)))
              && WordCount(r.content) > MinWordsExclusive && IsStripped(r.content)
  {
    RowsFromPages(urls, ChunksOf(fetch));
    ChunkTextEmpty(MaxTokens, MinWordsExclusive);
  }
}
