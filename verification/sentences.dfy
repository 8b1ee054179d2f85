/**
 The sentence splitter shared by every chunker: `re.split(r'(?<=[.!?]) +', text)`.
 It cuts the text at each maximal run of U+0020 spaces whose preceding character
 is `.`, `!` or `?`, and drops that run.
 */
module Sentences {

  predicate IsTerminator(c: char) {
    c == '.' || c == '!' || c == '?'
  }

  /** Position `j` of `t` is a space directly after a sentence terminator. */
  predicate IsBoundary(t: string, j: int) {
    1 <= j < |t| && t[j] == ' ' && IsTerminator(t[j - 1])
  }

  /** The first boundary of `t` at or after `k`, or `|t|` when there is none. */
  function FirstBoundary(t: string, k: nat): (r: nat)
    requires 1 <= k
    ensures r == |t| || (k <= r < |t| && IsBoundary(t, r))
    ensures forall j :: k <= j < r ==> !IsBoundary(t, j)
    decreases |t| - k
  {
    if k >= |t| then |t| else if IsBoundary(t, k) then k else FirstBoundary(t, k + 1)
  }

  /** Length of the run of U+0020 spaces at the start of `t`. */
  function SpaceRun(t: string): (n: nat)
    ensures n <= |t|
    ensures forall i :: 0 <= i < n ==> t[i] == ' '
    ensures n == |t| || t[n] != ' '
  {
    if t != "" && t[0] == ' ' then 1 + SpaceRun(t[1..]) else 0
  }

  /** One sentence of the split, with the number of spaces the split removed after it. */
  datatype Piece = Piece(sentence: string, gap: nat)

  function SplitPieces(t: string): (ps: seq<Piece>)
    ensures |ps| >= 1
    decreases |t|
  {
    var i := FirstBoundary(t, 1);
    if i == |t| then [Piece(t, 0)]
    else
      var n := SpaceRun(t[i..]);
      [Piece(t[..i], n)] + SplitPieces(t[i + n..])
  }

  /** `re.split(r'(?<=[.!?]) +', t)`. */
  function SplitSentences(t: string): (ss: seq<string>)
    ensures |ss| == |SplitPieces(t)|
    ensures forall k :: 0 <= k < |ss| ==> ss[k] == SplitPieces(t)[k].sentence
  {
    var ps := SplitPieces(t);
    seq(|ps|, k requires 0 <= k < |ps| => ps[k].sentence)
  }

  function Spaces(n: nat): (r: string)
    ensures |r| == n && forall i :: 0 <= i < n ==> r[i] == ' '
  {
    if n == 0 then "" else " " + Spaces(n - 1)
  }

  /** Puts the removed space runs back between the sentences. */
  function Rejoin(ps: seq<Piece>): string {
    if ps == [] then "" else ps[0].sentence + Spaces(ps[0].gap) + Rejoin(ps[1..])
  }

  predicate HasNoBoundary(s: string) {
    forall j :: 0 <= j < |s| ==> !IsBoundary(s, j)
  }

  /** A sentence that ends with a terminator, so a cut may follow it. */
  predicate EndsSentence(s: string) {
    s != "" && IsTerminator(s[|s| - 1])
  }

  /**
   What a split looks like: no sentence contains a cut point; every sentence but
   the last ends with a terminator and is followed by at least one space; the
   last is followed by none; and no sentence after the first starts with a space
   (the whole run of spaces went into the gap).
   */
  predicate WellFormed(ps: seq<Piece>)
    decreases |ps|
  {
    && |ps| >= 1
    && HasNoBoundary(ps[0].sentence)
    && if |ps| == 1 then ps[0].gap == 0
       else
         && ps[0].gap >= 1
         && EndsSentence(ps[0].sentence)
         && (ps[1].sentence == "" || ps[1].sentence[0] != ' ')
         && WellFormed(ps[1..])
  }

  /** Before the first boundary of `t` lies a sentence without cut points. */
  lemma PrefixHasNoBoundary(t: string, i: nat)
    requires i <= |t| && forall j :: 1 <= j < i ==> !IsBoundary(t, j)
    ensures HasNoBoundary(t[..i])
  {
    forall j | 0 <= j < i && IsBoundary(t[..i], j)
      ensures false
    {
      assert IsBoundary(t, j);
    }
  }

  /** Putting the removed spaces back gives the text again. */
  lemma {:induction false} SplitRejoins(t: string)
    ensures Rejoin(SplitPieces(t)) == t
    decreases |t|
  {
    var i := FirstBoundary(t, 1);
    if i == |t| {
      assert Rejoin(SplitPieces(t)) == t + "" + "";
    } else {
      var n := SpaceRun(t[i..]);
      var rest := t[i + n..];
      SplitRejoins(rest);
      assert SplitPieces(t)[1..] == SplitPieces(rest);
      assert Spaces(n) == t[i..i + n];
      assert t == t[..i] + t[i..i + n] + rest;
    }
  }

  /** The split has the shape `WellFormed` describes. */
  lemma {:induction false} SplitWellFormed(t: string)
    ensures WellFormed(SplitPieces(t))
    decreases |t|
  {
    var ps := SplitPieces(t);
    var i := FirstBoundary(t, 1);
    PrefixHasNoBoundary(t, i);
    if i < |t| {
      var n := SpaceRun(t[i..]);
      var rest := t[i + n..];
      SplitWellFormed(rest);
      var qs := SplitPieces(rest);
      assert ps == [Piece(t[..i], n)] + qs;
      assert ps[1..] == qs;
      assert rest == "" || rest[0] != ' ' by {
        if rest != "" {
          assert rest[0] == t[i..][n];
        }
      }
      assert t[..i][i - 1] == t[i - 1];
    }
  }

  /** The split is well formed and putting the spaces back gives the text again. */
  lemma SplitRoundTrip(t: string)
    ensures WellFormed(SplitPieces(t))
    ensures Rejoin(SplitPieces(t)) == t
  {
    SplitWellFormed(t);
    SplitRejoins(t);
  }

  lemma {:induction false} SpaceRunOfGap(g: nat, rest: string)
    requires rest == "" || rest[0] != ' '
    ensures SpaceRun(Spaces(g) + rest) == g
    decreases g
  {
    if g > 0 {
      assert (Spaces(g) + rest)[1..] == Spaces(g - 1) + rest;
      SpaceRunOfGap(g - 1, rest);
    } else {
      assert Spaces(g) + rest == rest;
    }
  }

  /** After a whole sentence and its gap, the first cut point is the end of that sentence. */
  lemma FirstBoundaryAfterSentence(s0: string, g: nat, rest: string)
    requires HasNoBoundary(s0) && EndsSentence(s0) && g >= 1
    ensures FirstBoundary(s0 + Spaces(g) + rest, 1) == |s0|
  {
    var t := s0 + Spaces(g) + rest;
    var i := FirstBoundary(t, 1);
    assert IsBoundary(t, |s0|) by {
      assert t[|s0|] == ' ';
      assert t[|s0| - 1] == s0[|s0| - 1];
    }
    forall j | 1 <= j < |s0|
      ensures !IsBoundary(t, j)
    {
      assert t[j] == s0[j] && t[j - 1] == s0[j - 1];
      assert !IsBoundary(s0, j);
    }
  }

  /** The text of a well-formed split whose first sentence does not start with a space does not either. */
  lemma RejoinStart(qs: seq<Piece>)
    requires WellFormed(qs)
    requires qs[0].sentence == "" || qs[0].sentence[0] != ' '
    ensures Rejoin(qs) == "" || Rejoin(qs)[0] != ' '
  {
    if qs[0].sentence == "" {
      assert qs[1..] == [];
    }
  }

  /** Splitting a whole sentence, its gap and the rest cuts exactly after the gap. */
  lemma SplitAfterSentence(t: string, s0: string, g: nat, rest: string)
    requires t == s0 + Spaces(g) + rest
    requires HasNoBoundary(s0) && EndsSentence(s0) && g >= 1
    requires rest == "" || rest[0] != ' '
    ensures SplitPieces(t) == [Piece(s0, g)] + SplitPieces(rest)
  {
    var i := |s0|;
    FirstBoundaryAfterSentence(s0, g, rest);
    assert FirstBoundary(t, 1) == i;
    assert t[i..] == Spaces(g) + rest;
    SpaceRunOfGap(g, rest);
    assert SpaceRun(t[i..]) == g;
    assert t[i + g..] == rest;
    assert t[..i] == s0;
  }

  /** A sentence without cut points is split into itself. */
  lemma SplitWhole(s0: string)
    requires HasNoBoundary(s0)
    ensures SplitPieces(s0) == [Piece(s0, 0)]
  {
  }

  /** A well-formed split that rejoins to `t` is the split of `t`: the regular expression has no other reading. */
  lemma {:induction false} SplitUnique(t: string, ps: seq<Piece>)
    requires WellFormed(ps) && Rejoin(ps) == t
    ensures SplitPieces(t) == ps
    decreases |ps|
  {
    var s0 := ps[0].sentence;
    if |ps| == 1 {
      assert t == s0 + "" + "";
      assert t == s0;
      SplitWhole(s0);
      assert ps == [Piece(s0, 0)];
    } else {
      var g := ps[0].gap;
      var qs := ps[1..];
      var rest := Rejoin(qs);
      assert t == s0 + Spaces(g) + rest;
      RejoinStart(qs);
      SplitAfterSentence(t, s0, g, rest);
      SplitUnique(rest, qs);
      assert ps == [Piece(s0, g)] + qs;
    }
  }

  /** `re.split` is characterised by its shape: the pieces are the split of `t` exactly when they are well formed and rejoin to `t`. */
  lemma SplitCharacterised(t: string, ps: seq<Piece>)
    ensures SplitPieces(t) == ps <==> WellFormed(ps) && Rejoin(ps) == t
  {
    SplitRoundTrip(t);
    if WellFormed(ps) && Rejoin(ps) == t {
      SplitUnique(t, ps);
    }
  }
}
