/**
 The "keep the best so far" loop used twice by `ask`: a best score that starts at
 a floor, a best index that starts empty, and a left-to-right scan that replaces
 both only when a score is STRICTLY greater than the best so far. A skipped
 candidate (one the loop `continue`s past) is `None`.
 */
module Selection {
  import opened Options

  /** The state of the scan: the best score so far and where it was found. */
  datatype Scan = Scan(best: real, index: Option<nat>)

  /** The scan over all of `scores`, written over the prefix so that it is the loop state after each step. */
  function FirstMax(scores: seq<Option<real>>, floor: real): (r: Scan)
    ensures r.index.None? ==> r.best == floor
    ensures r.index.None? ==> forall j :: 0 <= j < |scores| && scores[j].Some? ==> scores[j].value <= floor
    ensures r.index.Some? ==> r.index.value < |scores| && scores[r.index.value] == Some(r.best)
    ensures r.index.Some? ==> r.best > floor
    ensures r.index.Some? ==> forall j :: 0 <= j < r.index.value && scores[j].Some? ==> scores[j].value < r.best
    ensures r.index.Some? ==> forall j :: 0 <= j < |scores| && scores[j].Some? ==> scores[j].value <= r.best
    decreases |scores|
  {
    if scores == [] then Scan(floor, None)
    else
      var n := |scores| - 1;
      var p := FirstMax(scores[..n], floor);
      if scores[n].Some? && scores[n].value > p.best then Scan(scores[n].value, Some(n)) else p
  }

  /** Position `i` holds the first maximal score, and that score beats the floor. */
  predicate IsFirstMax(scores: seq<Option<real>>, floor: real, i: nat) {
    && i < |scores| && scores[i].Some? && scores[i].value > floor
    && (forall j :: 0 <= j < i && scores[j].Some? ==> scores[j].value < scores[i].value)
    && (forall j :: 0 <= j < |scores| && scores[j].Some? ==> scores[j].value <= scores[i].value)
  }

  /** No present score beats the floor. */
  predicate NoneAbove(scores: seq<Option<real>>, floor: real) {
    forall j :: 0 <= j < |scores| && scores[j].Some? ==> scores[j].value <= floor
  }

  /** The first maximum is unique. */
  lemma FirstMaxUnique(scores: seq<Option<real>>, floor: real, i: nat, k: nat)
    requires IsFirstMax(scores, floor, i) && IsFirstMax(scores, floor, k)
    ensures i == k
  {
  }

  /**
   The scan finds exactly the first maximal score above the floor, and finds
   nothing exactly when no score is above the floor.
   */
  lemma FirstMaxCharacterised(scores: seq<Option<real>>, floor: real, i: nat)
    ensures FirstMax(scores, floor).index == Some(i) <==> IsFirstMax(scores, floor, i)
    ensures FirstMax(scores, floor).index == None <==> NoneAbove(scores, floor)
  {
    var r := FirstMax(scores, floor);
    if IsFirstMax(scores, floor, i) {
      assert IsFirstMax(scores, floor, r.index.value);
      FirstMaxUnique(scores, floor, i, r.index.value);
    }
    if r.index.Some? {
      var k := r.index.value;
      assert scores[k].value > floor;
    }
  }

  /** When every score is present and equal, and above the floor, the scan keeps the first position. */
  lemma TiesKeepFirst(scores: seq<Option<real>>, floor: real, v: real)
    requires scores != [] && v > floor
    requires forall j :: 0 <= j < |scores| ==> scores[j] == Some(v)
    ensures FirstMax(scores, floor) == Scan(v, Some(0))
  {
    assert IsFirstMax(scores, floor, 0);
    FirstMaxCharacterised(scores, floor, 0);
  }
}
