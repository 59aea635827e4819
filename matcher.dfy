/**
 * `fuzzy_match`: the best-scoring catalog entry for a term, kept only when its
 * score reaches the threshold. The similarity scorer is a foreign library, so it
 * is a parameter here: any function into the scores 0..100.
 */
module Matcher {
  import opened Wrappers

  type Score = r: real | 0.0 <= r <= 100.0

  /** A similarity scorer: the term first, the catalog entry second. */
  type Scorer = (string, string) -> Score

  /** The threshold `fuzzy_match` uses when its caller gives none. */
  const DefaultThreshold: real := 50.0

  /**
   * The position of the entry `extractOne` reports: the highest score, and among
   * entries with that score the first one.
   */
  function BestIndex(term: string, known: seq<string>, score: Scorer): (b: nat)
    requires |known| > 0
    ensures b < |known|
    ensures forall j :: 0 <= j < |known| ==> score(term, known[j]) <= score(term, known[b])
    ensures forall j :: 0 <= j < b ==> score(term, known[j]) < score(term, known[b])
  {
    if |known| == 1 then 0
    else
      var b := BestIndex(term, known[..|known| - 1], score);
      if score(term, known[|known| - 1]) > score(term, known[b]) then |known| - 1 else b
  }

  /**
   * `fuzzy_match(term, known, threshold)`. Unpacking the result of `extractOne`
   * fails when the catalog is empty (it then has no best entry), so that case
   * raises. What the gate accepts is an entry of the catalog that no other entry
   * outscores and whose score reaches the threshold.
   */
  function FuzzyMatch(term: string, known: seq<string>, threshold: real, score: Scorer)
    : (r: Outcome<Option<string>>)
    ensures r.Raised? <==> known == []
    ensures r.Returned? && r.value.Some? ==>
      && r.value.value in known && score(term, r.value.value) >= threshold
      && forall x :: x in known ==> score(term, x) <= score(term, r.value.value)
  {
    if |known| == 0 then Raised
    else
      var best := known[BestIndex(term, known, score)];
      Returned(if score(term, best) >= threshold then Some(best) else None)
  }

  /** The gate accepts some entry exactly when some entry of the catalog reaches the threshold. */
  lemma FuzzyMatchGate(term: string, known: seq<string>, threshold: real, score: Scorer)
    requires known != []
    ensures var r := FuzzyMatch(term, known, threshold, score);
      r.Returned? && (r.value.Some? <==> exists x :: x in known && score(term, x) >= threshold)
  {
    var r := FuzzyMatch(term, known, threshold, score);
    var b := BestIndex(term, known, score);
    if x :| x in known && score(term, x) >= threshold {
      var j :| 0 <= j < |known| && known[j] == x;
      assert score(term, known[j]) <= score(term, known[b]);
    }
  }

  /**
   * A term that is itself in the catalog, with a scorer that gives identical
   * strings the full score, is always accepted at the default threshold, as an
   * entry that also scores 100; when no other entry scores 100, the entry
   * accepted is the term itself.
   */
  lemma FuzzyMatchExact(term: string, known: seq<string>, score: Scorer)
    requires term in known && score(term, term) == 100.0
    ensures var r := FuzzyMatch(term, known, DefaultThreshold, score);
      r.Returned? && r.value.Some? && score(term, r.value.value) == 100.0
    ensures (forall y :: y in known && score(term, y) == 100.0 ==> y == term) ==>
      FuzzyMatch(term, known, DefaultThreshold, score) == Returned(Some(term))
  {
    FuzzyMatchGate(term, known, DefaultThreshold, score);
  }
}
