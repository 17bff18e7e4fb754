/**
  Ranking candidates for a business concept and deciding whether one wins (`schema_linker/candidates.py`, `scorer.py`,
  `ambiguity.py`). Confidences are integers over 10^4, similarities exact numbers in [0, 1].
 */
module Candidates {
  import opened Wrappers
  import Sort = StableSort

  /** The matching tiers, best first. */
  datatype Tier = Exact | BusinessDictionary | Synonym | Alias | Fuzzy | Partial

  datatype MatchResult = MatchResult(tier: Tier, similarity: real)

  datatype Candidate = Candidate(
    table: string,
    column: Option<string>,
    confidence: int,
    tier: Tier,
    rank: nat,
    matchedText: string)

  const SCALE: real := 10000.0

  const FUZZY_THRESHOLD: real := 0.75

  const MIN_CONFIDENCE := 6000

  const MIN_MARGIN := 1000

  // ----- scoring

  function Clamp(x: real): real {
    if x < 0.0 then 0.0 else if x > 1.0 then 1.0 else x
  }

  /** Python's `round`: to the nearest integer, a tie to the even one. */
  function Round(x: real): int {
    var below := x.Floor;
    var rest := x - below as real;
    if rest < 0.5 then below else if rest > 0.5 then below + 1 else if below % 2 == 0 then below else below + 1
  }

  /** Where `value` lies between `low` and `high`, clamped. */
  function Fraction(value: real, low: real, high: real): (f: real)
    ensures 0.0 <= f <= 1.0
  {
    Clamp(if high - low != 0.0 then (value - low) / (high - low) else 1.0)
  }

  /** The point a fraction of the way from `low` to `high`, in ten-thousandths. */
  function PointAt(fraction: real, low: real, high: real): int {
    Round(SCALE * (low + PartOf(high - low, fraction)))
  }

  function PartOf(width: real, fraction: real): (part: real)
    ensures 0.0 <= width && 0.0 <= fraction <= 1.0 ==> 0.0 <= part <= width
  {
    width * fraction
  }

  function ScaleTo(value: real, low: real, high: real, targetLow: real, targetHigh: real): int {
    PointAt(Fraction(value, low, high), targetLow, targetHigh)
  }

  function Score(m: MatchResult): int {
    match m.tier
    case Exact => 10000
    case BusinessDictionary => 9200
    case Synonym => 8500
    case Alias => 7800
    case Fuzzy => ScaleTo(m.similarity, FUZZY_THRESHOLD, 1.0, 0.45, 0.70)
    case Partial => ScaleTo(m.similarity, 0.0, 1.0, 0.25, 0.44)
  }

  lemma RoundBounds(x: real, low: int, high: int)
    requires low as real <= x <= high as real
    ensures low <= Round(x) <= high
  {
  }

  lemma RoundedPoint(part: real, low: real, high: real, a: int, b: int)
    requires 0.0 <= part <= high - low
    requires a as real == SCALE * low && b as real == SCALE * high
    ensures a <= Round(SCALE * (low + part)) <= b
  {
    RoundBounds(SCALE * (low + part), a, b);
  }

  lemma PointInBand(fraction: real, low: real, high: real, a: int, b: int)
    requires 0.0 <= fraction <= 1.0 && low <= high
    requires a as real == SCALE * low && b as real == SCALE * high
    ensures a <= PointAt(fraction, low, high) <= b
  {
    RoundedPoint(PartOf(high - low, fraction), low, high, a, b);
  }

  /** The band of confidences a tier can be given. */
  function Band(tier: Tier): (int, int) {
    match tier
    case Exact => (10000, 10000)
    case BusinessDictionary => (9200, 9200)
    case Synonym => (8500, 8500)
    case Alias => (7800, 7800)
    case Fuzzy => (4500, 7000)
    case Partial => (2500, 4400)
  }

  lemma ScoreInBand(m: MatchResult)
    ensures Band(m.tier).0 <= Score(m) <= Band(m.tier).1
  {
    if m.tier == Fuzzy {
      PointInBand(Fraction(m.similarity, FUZZY_THRESHOLD, 1.0), 0.45, 0.70, 4500, 7000);
    } else if m.tier == Partial {
      PointInBand(Fraction(m.similarity, 0.0, 1.0), 0.25, 0.44, 2500, 4400);
    }
  }

  function Priority(tier: Tier): nat {
    match tier
    case Exact => 0
    case BusinessDictionary => 1
    case Synonym => 2
    case Alias => 3
    case Fuzzy => 4
    case Partial => 5
  }

  /** A better tier always scores strictly higher, whatever the similarities. */
  lemma TiersNeverCross(a: MatchResult, b: MatchResult)
    requires Priority(a.tier) < Priority(b.tier)
    ensures Score(a) > Score(b)
  {
    ScoreInBand(a);
    ScoreInBand(b);
  }

  /** Rounding goes to the nearest integer, and from half way to the even one. */
  lemma RoundIsNearest(x: real)
    ensures -0.5 <= Round(x) as real - x <= 0.5
    ensures Round(x) as real - x == 0.5 || Round(x) as real - x == -0.5 ==> Round(x) % 2 == 0
  {
  }

  lemma RoundGrows(x: real, y: real)
    requires x <= y
    ensures Round(x) <= Round(y)
  {
  }

  /** The similarity less 0.30, held between 0.45 and 0.70, in ten-thousandths. */
  function FuzzyPoint(similarity: real): real {
    if similarity < 0.75 then 4500.0 else if similarity > 1.0 then 7000.0 else 10000.0 * similarity - 3000.0
  }

  /** From 0.25 at no similarity to 0.44 at full, in ten-thousandths. */
  function PartialPoint(similarity: real): real {
    if similarity < 0.0 then 2500.0 else if similarity > 1.0 then 4400.0 else 2500.0 + 1900.0 * similarity
  }

  lemma FuzzyScore(similarity: real)
    ensures Score(MatchResult(Fuzzy, similarity)) == Round(FuzzyPoint(similarity))
  {
    var fraction := Fraction(similarity, FUZZY_THRESHOLD, 1.0);
    assert fraction == Clamp(4.0 * (similarity - 0.75));
    assert SCALE * (0.45 + PartOf(0.70 - 0.45, fraction)) == 4500.0 + 2500.0 * fraction;
  }

  lemma PartialScore(similarity: real)
    ensures Score(MatchResult(Partial, similarity)) == Round(PartialPoint(similarity))
  {
    var fraction := Fraction(similarity, 0.0, 1.0);
    assert fraction == Clamp(similarity);
    assert SCALE * (0.25 + PartOf(0.44 - 0.25, fraction)) == 2500.0 + 1900.0 * fraction;
  }

  /** The score of a match: fixed for the four equality tiers, nearest to its point for the others. */
  lemma ScoreIsNearest(m: MatchResult)
    ensures match m.tier
            case Exact => Score(m) == 10000
            case BusinessDictionary => Score(m) == 9200
            case Synonym => Score(m) == 8500
            case Alias => Score(m) == 7800
            case Fuzzy => -0.5 <= Score(m) as real - FuzzyPoint(m.similarity) <= 0.5
            case Partial => -0.5 <= Score(m) as real - PartialPoint(m.similarity) <= 0.5
  {
    if m.tier == Fuzzy {
      FuzzyScore(m.similarity);
      RoundIsNearest(FuzzyPoint(m.similarity));
    } else if m.tier == Partial {
      PartialScore(m.similarity);
      RoundIsNearest(PartialPoint(m.similarity));
    }
  }

  /** Within a tier a more similar match never scores lower. */
  lemma ScoreGrowsWithSimilarity(a: MatchResult, b: MatchResult)
    requires a.tier == b.tier && a.similarity <= b.similarity
    ensures Score(a) <= Score(b)
  {
    if a.tier == Fuzzy {
      FuzzyScore(a.similarity);
      FuzzyScore(b.similarity);
      RoundGrows(FuzzyPoint(a.similarity), FuzzyPoint(b.similarity));
    } else if a.tier == Partial {
      PartialScore(a.similarity);
      PartialScore(b.similarity);
      RoundGrows(PartialPoint(a.similarity), PartialPoint(b.similarity));
    }
  }

  // ----- ranking

  predicate Better(a: Candidate, b: Candidate) {
    a.confidence > b.confidence || (a.confidence == b.confidence && Priority(a.tier) <= Priority(b.tier))
  }

  function Ordered(candidates: seq<Candidate>): seq<Candidate> {
    Sort.Sorted(candidates, Better)
  }

  function Ranked(candidates: seq<Candidate>): (r: seq<Candidate>)
    ensures |r| == |candidates|
  {
    var ordered := Ordered(candidates);
    seq(|ordered|, i requires 0 <= i < |ordered| => ordered[i].(rank := i + 1))
  }

  lemma OrderedFacts(candidates: seq<Candidate>)
    ensures Sort.IsSorted(Ordered(candidates), Better)
    ensures multiset(Ordered(candidates)) == multiset(candidates)
    ensures forall c :: c in Ordered(candidates) <==> c in candidates
  {
    Sort.SortedIsSorted(candidates, Better);
    Sort.SortedPermutes(candidates, Better);
    Sort.SortedMembers(candidates, Better);
  }

  // ----- the decision

  datatype Decision = Confident | NoCandidates | TooWeak(top: Candidate) | TooClose(top: Candidate, runnerUp: Candidate)

  function Decide(ranked: seq<Candidate>): Decision {
    if ranked == [] then NoCandidates
    else if ranked[0].confidence < MIN_CONFIDENCE then TooWeak(ranked[0])
    else if |ranked| > 1 && ranked[0].confidence - ranked[1].confidence < MIN_MARGIN then TooClose(ranked[0], ranked[1])
    else Confident
  }

  /** The candidate at position `i` is strong enough and beats every other by the margin. */
  ghost predicate Wins(candidates: seq<Candidate>, i: nat) {
    && i < |candidates|
    && candidates[i].confidence >= 6000
    && forall j :: 0 <= j < |candidates| && j != i ==> candidates[i].confidence - candidates[j].confidence >= 1000
  }

  lemma ConfidentMeansFirstWins(candidates: seq<Candidate>)
    ensures Decide(Ranked(candidates)) == Confident <==> Wins(Ordered(candidates), 0)
  {
    OrderedFacts(candidates);
    var ordered := Ordered(candidates);
    if |ordered| > 1 && ordered[0].confidence - ordered[1].confidence >= MIN_MARGIN {
      forall j | 1 <= j < |ordered|
        ensures ordered[0].confidence - ordered[j].confidence >= MIN_MARGIN
      {
        assert j == 1 || Better(ordered[1], ordered[j]);
      }
    }
  }

  /** A winner at some position of one list is a winner in every rearrangement of it. */
  lemma WinnerMoves(xs: seq<Candidate>, ys: seq<Candidate>, i: nat) returns (k: nat)
    requires multiset(xs) == multiset(ys) && Wins(xs, i)
    ensures Wins(ys, k) && ys[k] == xs[i]
  {
    Sort.PermutationMembers(xs, ys);
    assert xs[i] in xs;
    k :| 0 <= k < |ys| && ys[k] == xs[i];
    assert multiset(xs)[xs[i]] == 1 by {
      WinnerOccursOnce(xs, i);
    }
    forall j | 0 <= j < |ys| && j != k
      ensures ys[k].confidence - ys[j].confidence >= MIN_MARGIN
    {
      assert ys[j] in xs;
      var n :| 0 <= n < |xs| && xs[n] == ys[j];
      if n == i {
        TwiceInSequence(ys, j, k);
      }
    }
  }

  lemma WinnerOccursOnce(xs: seq<Candidate>, i: nat)
    requires Wins(xs, i)
    ensures multiset(xs)[xs[i]] == 1
  {
    var without := xs[..i] + xs[i + 1..];
    assert xs == xs[..i] + [xs[i]] + xs[i + 1..];
    assert xs[i] !in without;
    assert multiset(without)[xs[i]] == 0;
  }

  lemma TwiceInSequence(ys: seq<Candidate>, j: nat, k: nat)
    requires j < |ys| && k < |ys| && j != k && ys[j] == ys[k]
    ensures multiset(ys)[ys[j]] >= 2
  {
    var a, b := if j < k then j else k, if j < k then k else j;
    assert ys == ys[..a] + [ys[a]] + ys[a + 1..b] + [ys[b]] + ys[b + 1..];
  }

  /** A concept resolves exactly when some candidate wins, and the one taken is that candidate. */
  lemma DecisionIffWinner(candidates: seq<Candidate>)
    ensures Decide(Ranked(candidates)) == Confident <==> exists i: nat :: Wins(candidates, i)
    ensures forall i: nat :: Wins(candidates, i) ==> Ranked(candidates)[0] == candidates[i].(rank := 1)
  {
    OrderedFacts(candidates);
    ConfidentMeansFirstWins(candidates);
    if Wins(Ordered(candidates), 0) {
      var k := WinnerMoves(Ordered(candidates), candidates, 0);
    }
    forall i: nat | Wins(candidates, i)
      ensures Wins(Ordered(candidates), 0) && Ordered(candidates)[0] == candidates[i]
    {
      assert forall k :: 0 < k < |Ordered(candidates)| ==> Better(Ordered(candidates)[0], Ordered(candidates)[k]);
      var k := WinnerMoves(candidates, Ordered(candidates), i);
    }
  }

  /** The order in which the schema was scanned decides neither the verdict nor the winner. */
  lemma ScanOrderIsIrrelevant(xs: seq<Candidate>, ys: seq<Candidate>)
    requires multiset(xs) == multiset(ys)
    ensures Decide(Ranked(xs)) == Confident <==> Decide(Ranked(ys)) == Confident
    ensures Decide(Ranked(xs)) == Confident ==> Ranked(xs)[0] == Ranked(ys)[0]
  {
    DecisionIffWinner(xs);
    DecisionIffWinner(ys);
    if i: nat :| Wins(xs, i) {
      var k := WinnerMoves(xs, ys, i);
    } else if j: nat :| Wins(ys, j) {
      var k := WinnerMoves(ys, xs, j);
    }
  }

  predicate SameStanding(a: Candidate, b: Candidate) {
    a.confidence == b.confidence && a.tier == b.tier
  }

  /**
    The ranking: the candidates in descending confidence, the better tier first among equals and the one scanned
    first among those, each with its place as its rank.
   */
  lemma RankedIsOrdered(candidates: seq<Candidate>, like: Candidate)
    ensures var ranked := Ranked(candidates);
            && (forall i :: 0 <= i < |ranked| ==>
                  ranked[i].rank == i + 1 && ranked[i] == Ordered(candidates)[i].(rank := i + 1))
            && (forall i, j :: 0 <= i < j < |ranked| ==> Outranks(ranked[i], ranked[j]))
    ensures multiset(Ordered(candidates)) == multiset(candidates)
    ensures Sort.Filter(Ordered(candidates), (c: Candidate) => SameStanding(c, like)) ==
            Sort.Filter(candidates, (c: Candidate) => SameStanding(c, like))
  {
    OrderedFacts(candidates);
    Sort.SortedIsStable(candidates, Better, (c: Candidate) => SameStanding(c, like));
    hide Sort.Sorted, Sort.Filter, Priority;
    var ordered := Ordered(candidates);
    forall i, j | 0 <= i < j < |ordered|
      ensures Outranks(ordered[i], ordered[j])
    {
      assert Better(ordered[i], ordered[j]);
    }
  }

  predicate Outranks(a: Candidate, b: Candidate) {
    a.confidence > b.confidence || (a.confidence == b.confidence && Priority(a.tier) <= Priority(b.tier))
  }

  /** Nobody is more confident. */
  predicate Tops(candidates: seq<Candidate>, top: Candidate) {
    forall c :: c in candidates ==> c.confidence <= top.confidence
  }

  /** Why a concept is not resolved: nothing matched, nothing matched well enough, or two match too closely. */
  lemma RefusalsAreExplained(candidates: seq<Candidate>)
    ensures match Decide(Ranked(candidates))
            case Confident => candidates != []
            case NoCandidates => candidates == []
            case TooWeak(top) => top.rank == 1 && Tops(candidates, top) && top.confidence < 6000
            case TooClose(top, runnerUp) =>
              && top.rank == 1 && runnerUp.rank == 2
              && Tops(candidates, top) && top.confidence >= 6000 && top.confidence - runnerUp.confidence < 1000
  {
    OrderedFacts(candidates);
    var ordered := Ordered(candidates);
    assert |ordered| == |candidates|;
    forall c | c in candidates
      ensures c.confidence <= ordered[0].confidence
    {
      assert c in ordered;
      var i :| 0 <= i < |ordered| && ordered[i] == c;
      assert i == 0 || Better(ordered[0], ordered[i]);
    }
  }

  // ----- what the scores mean for the decision

  /** The candidate's confidence is the score of some match of its tier. */
  predicate Scored(c: Candidate) {
    Band(c.tier).0 <= c.confidence <= Band(c.tier).1
  }

  /**
    A partial match never wins; among the four equality tiers a winner stands at least two tiers above every other
    candidate, so an exact match never wins against another exact or a business-dictionary match.
   */
  lemma WhoCannotWin(candidates: seq<Candidate>, i: nat, j: nat)
    requires forall c :: c in candidates ==> Scored(c)
    requires Wins(candidates, i) && j < |candidates| && j != i
    ensures candidates[i].tier != Partial
    ensures Priority(candidates[i].tier) < Priority(candidates[j].tier) ||
            (candidates[i].tier == Fuzzy && candidates[j].tier == Fuzzy)
    ensures candidates[j].tier !in {Fuzzy, Partial} ==>
              Priority(candidates[i].tier) + 2 <= Priority(candidates[j].tier)
  {
    assert candidates[i] in candidates && candidates[j] in candidates;
  }
}
