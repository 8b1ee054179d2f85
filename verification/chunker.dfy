/**
 The greedy sentence chunker `chunk_text(text, max_tokens)`, shared by both
 ingestion scripts and by the start-up loader of the assistant, which differ only
 in the word limit and in the minimum length of a kept chunk.
 */
module Chunker {
  import opened Text
  import Sentences

  /**
   The loop of `chunk_text` after the split, with `open` the chunk being built.
   A sentence closes the open chunk exactly when the words of the open chunk glued
   to the sentence, with NO separator between them, exceed `maxWords`; otherwise
   the sentence is appended after a single space. Closed chunks are stripped, and
   the final open chunk is emitted when it is not the empty string. This is the
   list before the word-count filter.
   */
  function Greedy(sentences: seq<string>, maxWords: nat, open: string): (r: seq<string>)
    ensures forall c :: c in r ==> IsStripped(c)
    decreases |sentences|
  {
    if sentences == [] then (if open != "" then [Strip(open)] else [])
    else
      var sent := sentences[0];
      if WordCount(open + sent) > maxWords then [Strip(open)] + Greedy(sentences[1..], maxWords, sent)
      else Greedy(sentences[1..], maxWords, open + " " + sent)
  }

  /** `[c for c in chunks if len(c.split()) > minExclusive]`. */
  function KeepLong(chunks: seq<string>, minExclusive: nat): (r: seq<string>)
    ensures |r| <= |chunks|
    ensures forall c :: c in r ==> c in chunks && WordCount(c) > minExclusive
    ensures forall c :: c in chunks && WordCount(c) > minExclusive ==> c in r
  {
    if chunks == [] then []
    else (if WordCount(chunks[0]) > minExclusive then [chunks[0]] else []) + KeepLong(chunks[1..], minExclusive)
  }

  lemma {:induction false} KeepLongAppend(a: seq<string>, b: seq<string>, minExclusive: nat)
    ensures KeepLong(a + b, minExclusive) == KeepLong(a, minExclusive) + KeepLong(b, minExclusive)
    decreases |a|
  {
    if a == [] {
      assert a + b == b;
    } else {
      assert (a + b)[1..] == a[1..] + b;
      KeepLongAppend(a[1..], b, minExclusive);
    }
  }

  /** The chunks of a list of sentences: greedy accumulation, then the length filter. */
  function Chunk(sentences: seq<string>, maxWords: nat, minExclusive: nat): (r: seq<string>)
    ensures forall c :: c in r ==> WordCount(c) > minExclusive && IsStripped(c)
  {
    KeepLong(Greedy(sentences, maxWords, ""), minExclusive)
  }

  /** `chunk_text(text, maxWords)` with the filter `len(c.split()) > minExclusive`. */
  function ChunkText(text: string, maxWords: nat, minExclusive: nat): seq<string> {
    Chunk(Sentences.SplitSentences(text), maxWords, minExclusive)
  }

  /** The empty text has no chunks, whatever the limits. */
  lemma ChunkTextEmpty(maxWords: nat, minExclusive: nat)
    ensures ChunkText("", maxWords, minExclusive) == []
  {
    EmptyTextOneSentence();
    GreedyEmptySentence(maxWords);
    assert WordCount("") == 0;
  }

  lemma EmptyTextOneSentence()
    ensures Sentences.SplitSentences("") == [""]
  {
    assert Sentences.SplitPieces("") == [Sentences.Piece("", 0)];
  }

  lemma GreedyEmptySentence(maxWords: nat)
    ensures Greedy([""], maxWords, "") == [""]
  {
    assert WordCount("" + "") == 0;
    assert [""][1..] == [];
    assert Greedy([""], maxWords, "") == Greedy([], maxWords, "" + " " + "");
    StripBlank(" ");
  }

  // ---------------------------------------------------------------------------
  // Reference definition: runs of whole sentences

  /**
   The same greedy decisions stated over runs of whole sentences: `current` is the
   run being built, and a sentence starts a new run exactly when the words of the
   current run, joined by spaces and glued to the sentence, exceed `maxWords`.
   */
  function GroupsFrom(sentences: seq<string>, maxWords: nat, current: seq<string>): (gs: seq<seq<string>>)
    ensures |gs| >= 1
    ensures |gs[0]| >= |current| && gs[0][..|current|] == current
    decreases |sentences|
  {
    if sentences == [] then [current]
    else if WordCount(JoinWith(" ", current) + sentences[0]) > maxWords then
      [current] + GroupsFrom(sentences[1..], maxWords, [sentences[0]])
    else
      var gs := GroupsFrom(sentences[1..], maxWords, current + [sentences[0]]);
      assert gs[0][..|current|] == gs[0][..|current| + 1][..|current|];
      gs
  }

  function Groups(sentences: seq<string>, maxWords: nat): seq<seq<string>> {
    GroupsFrom(sentences, maxWords, [])
  }

  function Flatten(gs: seq<seq<string>>): seq<string> {
    if gs == [] then [] else gs[0] + Flatten(gs[1..])
  }

  /** Each run as the chunk text it becomes: its sentences joined by spaces, stripped. */
  function Render(gs: seq<seq<string>>): (r: seq<string>)
    ensures |r| == |gs|
    ensures forall k :: 0 <= k < |gs| ==> r[k] == Strip(JoinWith(" ", gs[k]))
  {
    if gs == [] then [] else [Strip(JoinWith(" ", gs[0]))] + Render(gs[1..])
  }

  lemma {:induction false} GroupsFromCover(sentences: seq<string>, maxWords: nat, current: seq<string>)
    ensures Flatten(GroupsFrom(sentences, maxWords, current)) == current + sentences
    decreases |sentences|
  {
    if sentences == [] {
      assert Flatten([current]) == current + Flatten([]);
      assert current + [] == current;
    } else {
      var s, rest := sentences[0], sentences[1..];
      assert sentences == [s] + rest;
      if WordCount(JoinWith(" ", current) + s) > maxWords {
        var later := GroupsFrom(rest, maxWords, [s]);
        GroupsFromCover(rest, maxWords, [s]);
        var gs := [current] + later;
        assert gs[1..] == later;
        assert Flatten(gs) == current + Flatten(later);
        assert GroupsFrom(sentences, maxWords, current) == gs;
        ConcatAssoc(current, [s], rest);
      } else {
        GroupsFromCover(rest, maxWords, current + [s]);
        assert GroupsFrom(sentences, maxWords, current) == GroupsFrom(rest, maxWords, current + [s]);
        ConcatAssoc(current, [s], rest);
      }
    }
  }

  /** The runs partition the sentences: in order, none dropped, none repeated, none split. */
  lemma GroupsCover(sentences: seq<string>, maxWords: nat)
    ensures Flatten(Groups(sentences, maxWords)) == sentences
  {
    GroupsFromCover(sentences, maxWords, []);
  }

  lemma {:induction false} GroupsFromNonEmpty(sentences: seq<string>, maxWords: nat, current: seq<string>)
    ensures forall k :: 1 <= k < |GroupsFrom(sentences, maxWords, current)| ==>
              GroupsFrom(sentences, maxWords, current)[k] != []
    decreases |sentences|
  {
    if sentences != [] {
      var s := sentences[0];
      if WordCount(JoinWith(" ", current) + s) > maxWords {
        GroupsFromNonEmpty(sentences[1..], maxWords, [s]);
        var rest := GroupsFrom(sentences[1..], maxWords, [s]);
        var gs := [current] + rest;
        assert GroupsFrom(sentences, maxWords, current) == gs;
        assert |rest[0]| >= 1;
        forall k | 1 <= k < |gs|
          ensures gs[k] != []
        {
          assert gs[k] == rest[k - 1];
          if k > 1 {
            assert rest[k - 1] != [];
          }
        }
      } else {
        GroupsFromNonEmpty(sentences[1..], maxWords, current + [s]);
        assert GroupsFrom(sentences, maxWords, current) == GroupsFrom(sentences[1..], maxWords, current + [s]);
      }
    }
  }

  /** Every run after the first holds at least one sentence. */
  lemma GroupsNonEmpty(sentences: seq<string>, maxWords: nat)
    ensures forall k :: 1 <= k < |Groups(sentences, maxWords)| ==> Groups(sentences, maxWords)[k] != []
  {
    GroupsFromNonEmpty(sentences, maxWords, []);
  }

  /** How the open chunk of the loop relates to the run being built. */
  predicate Tracks(open: string, current: seq<string>) {
    || (current == [] && open == "")
    || (current != [] && open == JoinWith(" ", current))
    || (current != [] && open == " " + JoinWith(" ", current))
  }

  lemma TracksDecision(open: string, current: seq<string>, sent: string)
    requires Tracks(open, current)
    ensures WordCount(open + sent) == WordCount(JoinWith(" ", current) + sent)
    ensures Strip(open) == Strip(JoinWith(" ", current))
  {
    var j := JoinWith(" ", current);
    if open == " " + j {
      assert open + sent == " " + (j + sent);
      WordCountLeadingSpace(j + sent);
      StripLeadingSpace(j);
    }
  }

  lemma TracksAppend(open: string, current: seq<string>, sent: string)
    requires Tracks(open, current)
    ensures Tracks(open + " " + sent, current + [sent])
  {
    if current == [] {
      assert current + [sent] == [sent];
      assert open + " " + sent == " " + JoinWith(" ", [sent]);
    } else {
      JoinWithSnoc(" ", current, sent);
      var j := JoinWith(" ", current);
      if open == " " + j {
        assert open + " " + sent == " " + (j + " " + sent);
      }
    }
  }

  lemma {:induction false} GreedyFollowsGroups(sentences: seq<string>, maxWords: nat, minExclusive: nat,
                                               open: string, current: seq<string>)
    requires Tracks(open, current)
    ensures KeepLong(Greedy(sentences, maxWords, open), minExclusive)
         == KeepLong(Render(GroupsFrom(sentences, maxWords, current)), minExclusive)
    decreases |sentences|
  {
    if sentences == [] {
      FinalStep(maxWords, minExclusive, open, current);
    } else {
      var s := sentences[0];
      TracksDecision(open, current, s);
      if WordCount(open + s) > maxWords {
        GreedyFollowsGroups(sentences[1..], maxWords, minExclusive, s, [s]);
        CloseStep(sentences, maxWords, minExclusive, open, current);
      } else {
        TracksAppend(open, current, s);
        GreedyFollowsGroups(sentences[1..], maxWords, minExclusive, open + " " + s, current + [s]);
        assert Greedy(sentences, maxWords, open) == Greedy(sentences[1..], maxWords, open + " " + s);
        assert GroupsFrom(sentences, maxWords, current) == GroupsFrom(sentences[1..], maxWords, current + [s]);
      }
    }
  }

  /** At the end of the input the last open chunk and the last run agree, up to an empty chunk the filter drops. */
  lemma FinalStep(maxWords: nat, minExclusive: nat, open: string, current: seq<string>)
    requires Tracks(open, current)
    ensures KeepLong(Greedy([], maxWords, open), minExclusive)
         == KeepLong(Render(GroupsFrom([], maxWords, current)), minExclusive)
  {
    var j := JoinWith(" ", current);
    assert GroupsFrom([], maxWords, current) == [current];
    assert Render([current]) == [Strip(j)];
    if open == "" {
      assert j == "";
      assert Strip(j) == "";
      assert WordCount("") == 0;
      assert KeepLong([""], minExclusive) == [];
      assert Greedy([], maxWords, open) == [];
    } else {
      TracksDecision(open, current, "");
      assert Greedy([], maxWords, open) == [Strip(open)];
    }
  }

  /** One closing step keeps the loop and the runs in step. */
  lemma CloseStep(sentences: seq<string>, maxWords: nat, minExclusive: nat, open: string, current: seq<string>)
    requires sentences != [] && WordCount(open + sentences[0]) > maxWords
    requires WordCount(open + sentences[0]) == WordCount(JoinWith(" ", current) + sentences[0])
    requires Strip(open) == Strip(JoinWith(" ", current))
    requires KeepLong(Greedy(sentences[1..], maxWords, sentences[0]), minExclusive)
          == KeepLong(Render(GroupsFrom(sentences[1..], maxWords, [sentences[0]])), minExclusive)
    ensures KeepLong(Greedy(sentences, maxWords, open), minExclusive)
         == KeepLong(Render(GroupsFrom(sentences, maxWords, current)), minExclusive)
  {
    var s := sentences[0];
    var head := Strip(open);
    var tail := Greedy(sentences[1..], maxWords, s);
    assert Greedy(sentences, maxWords, open) == [head] + tail;
    KeepLongAppend([head], tail, minExclusive);
    var rest := GroupsFrom(sentences[1..], maxWords, [s]);
    assert GroupsFrom(sentences, maxWords, current) == [current] + rest;
    assert Render([current] + rest) == [head] + Render(rest) by {
      assert ([current] + rest)[1..] == rest;
    }
    KeepLongAppend([head], Render(rest), minExclusive);
  }

  /**
   The chunks are the runs of whole consecutive sentences, each joined by spaces
   and stripped, that pass the length filter: no sentence is ever cut.
   */
  lemma ChunksAreRuns(sentences: seq<string>, maxWords: nat, minExclusive: nat)
    ensures Chunk(sentences, maxWords, minExclusive)
         == KeepLong(Render(Groups(sentences, maxWords)), minExclusive)
    ensures Flatten(Groups(sentences, maxWords)) == sentences
  {
    GreedyFollowsGroups(sentences, maxWords, minExclusive, "", []);
    GroupsCover(sentences, maxWords);
  }

  // ---------------------------------------------------------------------------
  // Size of the chunks

  /** Appending a sentence that passed the test adds at most one word to the limit. */
  lemma {:induction false} GroupsFromCeiling(sentences: seq<string>, maxWords: nat, current: seq<string>)
    requires |current| >= 2 ==> WordCount(JoinWith(" ", current)) <= maxWords + 1
    ensures forall g :: g in GroupsFrom(sentences, maxWords, current) && |g| >= 2 ==>
              WordCount(JoinWith(" ", g)) <= maxWords + 1
    decreases |sentences|
  {
    if sentences != [] {
      var s := sentences[0];
      var j := JoinWith(" ", current);
      if WordCount(j + s) > maxWords {
        GroupsFromCeiling(sentences[1..], maxWords, [s]);
      } else {
        if current != [] {
          JoinWithSnoc(" ", current, s);
          WordCountSpaceJoin(j, s);
          WordCountGlued(j, s);
        } else {
          assert current + [s] == [s];
        }
        GroupsFromCeiling(sentences[1..], maxWords, current + [s]);
      }
    }
  }

  /**
   A chunk built from two or more sentences has at most `maxWords + 1` words: the
   over-limit test glues the sentence to the chunk without the space that the kept
   chunk then gets, so the last word of the chunk and the first of the sentence
   are counted as one.
   */
  lemma RunCeiling(sentences: seq<string>, maxWords: nat)
    ensures forall g :: g in Groups(sentences, maxWords) && |g| >= 2 ==>
              WordCount(JoinWith(" ", g)) <= maxWords + 1
  {
    GroupsFromCeiling(sentences, maxWords, []);
  }

  /**
   The ceiling of `RunCeiling` is reached: a sentence of exactly `maxWords` words
   followed by a one-word sentence makes a single chunk of `maxWords + 1` words.
   */
  lemma CeilingReached(a: string, b: string, maxWords: nat)
    requires a != "" && IsStripped(a) && WordCount(a) == maxWords
    requires b != "" && forall i :: 0 <= i < |b| ==> !IsSpace(b[i])
    ensures Chunk([a, b], maxWords, 0) == [a + " " + b]
    ensures WordCount(a + " " + b) == maxWords + 1
  {
    OneWord(b);
    WordCountSpaceJoin(a, b);
    var c := a + " " + b;
    TwoSentencesOneChunk(a, b, maxWords);
    assert KeepLong([c], 0) == [c] by {
      assert [c][1..] == [];
    }
  }

  lemma TwoSentencesOneChunk(a: string, b: string, maxWords: nat)
    requires a != "" && IsStripped(a) && WordCount(a) == maxWords
    requires b != "" && forall i :: 0 <= i < |b| ==> !IsSpace(b[i])
    ensures Greedy([a, b], maxWords, "") == [a + " " + b]
  {
    AppendFirst(a, b, maxWords);
    GluedWordAddsNothing(a, b);
    AppendSecond(" " + a, b, maxWords);
    var c := a + " " + b;
    assert Strip(" " + a + " " + b) == c by {
      assert " " + a + " " + b == " " + c;
      StripLeadingSpace(c);
      assert IsStripped(c);
    }
  }

  lemma AppendFirst(a: string, b: string, maxWords: nat)
    requires WordCount(a) <= maxWords
    ensures Greedy([a, b], maxWords, "") == Greedy([b], maxWords, " " + a)
  {
    assert "" + a == a;
    assert [a, b][1..] == [b];
    assert "" + " " + a == " " + a;
  }

  lemma AppendSecond(open: string, b: string, maxWords: nat)
    requires WordCount(open + b) <= maxWords
    ensures Greedy([b], maxWords, open) == Greedy([], maxWords, open + " " + b)
  {
    assert [b][1..] == [];
  }

  /** The test glues a one-word sentence to the last word of the chunk: no word is added. */
  lemma GluedWordAddsNothing(a: string, b: string)
    requires a != "" && !IsSpace(a[|a| - 1])
    requires forall i :: 0 <= i < |b| ==> !IsSpace(b[i])
    ensures WordCount(" " + a + b) == WordCount(a)
  {
    var ab := a + b;
    assert " " + a + b == " " + ab;
    WordCountLeadingSpace(ab);
    RunStartsAppend(a, b, true);
    NoStartsInsideWord(b);
  }

  lemma {:induction false} OneWord(w: string)
    requires w != "" && forall i :: 0 <= i < |w| ==> !IsSpace(w[i])
    ensures WordCount(w) == 1
  {
    NoStartsInsideWord(w[1..]);
  }

  lemma {:induction false} NoStartsInsideWord(w: string)
    requires forall i :: 0 <= i < |w| ==> !IsSpace(w[i])
    ensures RunStarts(w, false) == 0
    decreases |w|
  {
    if w != "" {
      NoStartsInsideWord(w[1..]);
    }
  }

  /** A run that starts with an over-long sentence holds that sentence alone. */
  lemma LongSentenceClosesRun(sentences: seq<string>, maxWords: nat, s: string)
    requires WordCount(s) > maxWords
    ensures GroupsFrom(sentences, maxWords, [s])[0] == [s]
  {
    if sentences != [] {
      WordCountGlued(s, sentences[0]);
    }
  }

  lemma {:induction false} LongSentenceAloneFrom(sentences: seq<string>, maxWords: nat, current: seq<string>, i: nat)
    requires i < |sentences| && WordCount(sentences[i]) > maxWords
    ensures [sentences[i]] in GroupsFrom(sentences, maxWords, current)
    decreases |sentences|
  {
    var s := sentences[0];
    if i == 0 {
      WordCountGlued(JoinWith(" ", current), s);
      LongSentenceClosesRun(sentences[1..], maxWords, s);
      var rest := GroupsFrom(sentences[1..], maxWords, [s]);
      assert GroupsFrom(sentences, maxWords, current) == [current] + rest;
      assert rest[0] == [s];
    } else {
      assert sentences[1..][i - 1] == sentences[i];
      if WordCount(JoinWith(" ", current) + s) > maxWords {
        LongSentenceAloneFrom(sentences[1..], maxWords, [s], i - 1);
      } else {
        LongSentenceAloneFrom(sentences[1..], maxWords, current + [s], i - 1);
      }
    }
  }

  /** A sentence of more than `maxWords` words is never split: it forms a run of its own. */
  lemma LongSentenceAlone(sentences: seq<string>, maxWords: nat, i: nat)
    requires i < |sentences| && WordCount(sentences[i]) > maxWords
    ensures [sentences[i]] in Groups(sentences, maxWords)
  {
    LongSentenceAloneFrom(sentences, maxWords, [], i);
  }
}
