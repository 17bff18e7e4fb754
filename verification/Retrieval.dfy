/**
  Scoring, top-K ranking and statistics of retrieved examples (`retrieval/scorer.py`, `ranker.py`, `statistics.py`),
  in exact arithmetic.
 */
module Retrieval {
  import opened Wrappers
  import Sort = StableSort

  datatype Signal =
    | IntentSimilarity
    | BusinessConceptOverlap
    | SchemaOverlap
    | TableOverlap
    | ColumnOverlap
    | SqlFeatureOverlap
    | KeywordOverlap
    | DifficultySimilarity

  /** One signal's contribution. */
  datatype Breakdown = Breakdown(signal: Signal, score: real, weight: real, weighted: real)

  datatype Score = Score(overall: real, breakdown: seq<Breakdown>)

  datatype Example = Example(id: string, score: Score)

  // ----- scoring

  function Weight(signal: Signal): real {
    match signal
    case BusinessConceptOverlap => 0.20
    case TableOverlap => 0.15
    case ColumnOverlap => 0.15
    case IntentSimilarity => 0.15
    case SchemaOverlap => 0.10
    case SqlFeatureOverlap => 0.10
    case KeywordOverlap => 0.10
    case DifficultySimilarity => 0.05
  }

  const SIGNALS: seq<Signal> :=
    [IntentSimilarity, BusinessConceptOverlap, SchemaOverlap, TableOverlap, ColumnOverlap, SqlFeatureOverlap,
     KeywordOverlap, DifficultySimilarity]

  function SumWeighted(breakdown: seq<Breakdown>): real {
    if breakdown == [] then 0.0 else SumWeighted(breakdown[..|breakdown| - 1]) + breakdown[|breakdown| - 1].weighted
  }

  /** The weights given to the signals run, up to the `n`-th. */
  function WeightSum(n: nat): real
    requires n <= |SIGNALS|
  {
    if n == 0 then 0.0 else WeightSum(n - 1) + Weight(SIGNALS[n - 1])
  }

  lemma WeightsSumToOne()
    ensures WeightSum(|SIGNALS|) == 1.0
  {
    assert WeightSum(2) == 0.35;
    assert WeightSum(4) == 0.60;
    assert WeightSum(6) == 0.85;
    assert WeightSum(8) == 1.0;
  }

  /** The documented importance: business concepts most, tables, columns and intent next, difficulty least. */
  lemma WeightsFollowImportance(s: Signal)
    ensures match s
            case BusinessConceptOverlap => Weight(s) == 4.0 * Weight(DifficultySimilarity)
            case TableOverlap => Weight(s) == 3.0 * Weight(DifficultySimilarity)
            case ColumnOverlap => Weight(s) == 3.0 * Weight(DifficultySimilarity)
            case IntentSimilarity => Weight(s) == 3.0 * Weight(DifficultySimilarity)
            case SchemaOverlap => Weight(s) == 2.0 * Weight(DifficultySimilarity)
            case SqlFeatureOverlap => Weight(s) == 2.0 * Weight(DifficultySimilarity)
            case KeywordOverlap => Weight(s) == 2.0 * Weight(DifficultySimilarity)
            case DifficultySimilarity => 20.0 * Weight(s) == WeightSum(|SIGNALS|)
  {
    WeightsSumToOne();
  }

  /** What one signal adds: its measure, its weight and their product. */
  function Contribution(compute: Signal -> real, signal: Signal): Breakdown {
    Breakdown(signal, compute(signal), Weight(signal), compute(signal) * Weight(signal))
  }

  method AddUpSignals(compute: Signal -> real) returns (breakdown: seq<Breakdown>, sum: real)
    requires forall s :: 0.0 <= compute(s) <= 1.0
    ensures |breakdown| == |SIGNALS|
    ensures forall i :: 0 <= i < |SIGNALS| ==> breakdown[i] == Contribution(compute, SIGNALS[i])
    ensures sum == SumWeighted(breakdown) && 0.0 <= sum <= WeightSum(|SIGNALS|)
  {
    assert WeightSum(0) == 0.0;
    hide Weight, WeightSum, Contribution;
    breakdown, sum := [], 0.0;
    for i := 0 to |SIGNALS|
      invariant |breakdown| == i
      invariant forall j :: 0 <= j < i ==> breakdown[j] == Contribution(compute, SIGNALS[j])
      invariant sum == SumWeighted(breakdown) && 0.0 <= sum <= WeightSum(i)
    {
      var entry := Contribution(compute, SIGNALS[i]);
      NextWeight(i);
      ContributionBound(compute, SIGNALS[i]);
      assert (breakdown + [entry])[..i] == breakdown;
      breakdown := breakdown + [entry];
      sum := sum + entry.weighted;
    }
  }

  lemma ContributionBound(compute: Signal -> real, signal: Signal)
    requires 0.0 <= compute(signal) <= 1.0 && 0.0 <= Weight(signal)
    ensures 0.0 <= Contribution(compute, signal).weighted <= Weight(signal)
  {
    WeightedBound(compute(signal), Weight(signal));
  }

  /** `compute` measures one signal, in [0, 1]. The cap at 1.0 never binds: the score is exactly the weighted sum. */
  method ScoreExample(compute: Signal -> real) returns (score: Score)
    requires forall s :: 0.0 <= compute(s) <= 1.0
    ensures |score.breakdown| == |SIGNALS|
    ensures forall i :: 0 <= i < |SIGNALS| ==>
              score.breakdown[i] == Breakdown(SIGNALS[i], compute(SIGNALS[i]), Weight(SIGNALS[i]),
                                              compute(SIGNALS[i]) * Weight(SIGNALS[i]))
    ensures score.overall == SumWeighted(score.breakdown)
    ensures 0.0 <= score.overall <= 1.0
  {
    var breakdown, sum := AddUpSignals(compute);
    hide Weight, WeightSum, SumWeighted;
    WeightsSumToOne();
    score := Score(if sum < 1.0 then sum else 1.0, breakdown);
  }

  lemma NextWeight(i: nat)
    requires i < |SIGNALS|
    ensures WeightSum(i + 1) == WeightSum(i) + Weight(SIGNALS[i]) && Weight(SIGNALS[i]) > 0.0
  {
  }

  lemma WeightedBound(value: real, weight: real)
    requires 0.0 <= value <= 1.0 && 0.0 <= weight
    ensures 0.0 <= value * weight <= weight
  {
  }

  // ----- ranking

  /** Code-point order on identifiers. */
  predicate IdLess(a: string, b: string)
    decreases |a|
  {
    b != "" && (a == "" || a[0] < b[0] || (a[0] == b[0] && IdLess(a[1..], b[1..])))
  }

  predicate Precedes(a: Example, b: Example) {
    a.score.overall > b.score.overall || (a.score.overall == b.score.overall && !IdLess(b.id, a.id))
  }

  lemma {:induction false} IdLessAsymmetric(a: string, b: string)
    ensures !(IdLess(a, b) && IdLess(b, a))
    decreases |a|
  {
    if a != "" && b != "" {
      IdLessAsymmetric(a[1..], b[1..]);
    }
  }

  lemma {:induction false} IdLessTotal(a: string, b: string)
    ensures IdLess(a, b) || IdLess(b, a) || a == b
    decreases |a|
  {
    if a != "" && b != "" && a[0] == b[0] {
      IdLessTotal(a[1..], b[1..]);
      assert a == [a[0]] + a[1..] && b == [b[0]] + b[1..];
    }
  }

  lemma {:induction false} IdLessTransitive(a: string, b: string, c: string)
    requires IdLess(a, b) && IdLess(b, c)
    ensures IdLess(a, c)
    decreases |a|
  {
    if a != "" && a[0] == b[0] == c[0] {
      IdLessTransitive(a[1..], b[1..], c[1..]);
    }
  }

  lemma PrecedesIsPreorder()
    ensures Sort.TotalPreorder(Precedes)
  {
    forall x, y
      ensures Precedes(x, y) || Precedes(y, x)
    {
      IdLessAsymmetric(x.id, y.id);
    }
    forall x, y, z | Precedes(x, y) && Precedes(y, z)
      ensures Precedes(x, z)
    {
      if x.score.overall == z.score.overall {
        IdNotLessTransitive(x.id, y.id, z.id);
      }
    }
  }

  /** The order of identifiers: one is a proper prefix of the other, or smaller where they first differ. */
  lemma {:induction false} IdLessIff(a: string, b: string)
    ensures IdLess(a, b) <==>
              (a < b) || exists i :: 0 <= i < |a| && i < |b| && a[..i] == b[..i] && a[i] < b[i]
    decreases |a|
  {
    if a != "" && b != "" && a[0] == b[0] {
      var c, d := a[1..], b[1..];
      IdLessIff(c, d);
      assert a == [a[0]] + c && b == [b[0]] + d;
      if i :| 0 <= i < |c| && i < |d| && c[..i] == d[..i] && c[i] < d[i] {
        assert a[..i + 1] == [a[0]] + c[..i] && b[..i + 1] == [b[0]] + d[..i];
      }
      if i :| 0 <= i < |a| && i < |b| && a[..i] == b[..i] && a[i] < b[i] {
        assert i > 0;
        assert c[..i - 1] == a[..i][1..] && d[..i - 1] == b[..i][1..];
        assert c[i - 1] < d[i - 1];
      }
    } else if a != "" && b != "" {
      assert a[..0] == b[..0];
    }
  }

  lemma IdNotLessTransitive(a: string, b: string, c: string)
    requires !IdLess(b, a) && !IdLess(c, b)
    ensures !IdLess(c, a)
  {
    IdLessTotal(a, b);
    IdLessTotal(b, c);
    if IdLess(a, b) && IdLess(b, c) {
      IdLessTransitive(a, b, c);
    }
    IdLessAsymmetric(a, c);
  }

  datatype RankError = InvalidTopK(k: int)

  /** The first `k` of the examples sorted best first; a non-positive `k` is refused. */
  function Rank(scored: seq<Example>, k: int): Result<seq<Example>, RankError> {
    if k <= 0 then Err(InvalidTopK(k))
    else
      var ordered := Sort.Sorted(scored, Precedes);
      Ok(if k < |ordered| then ordered[..k] else ordered)
  }

  ghost predicate UniqueIds(scored: seq<Example>) {
    forall i, j :: 0 <= i < j < |scored| ==> scored[i].id != scored[j].id
  }

  /** Ties between distinct examples are broken by their identifiers. */
  lemma NoTies(scored: seq<Example>, a: Example, b: Example)
    requires UniqueIds(scored) && a in scored && b in scored && Precedes(a, b) && Precedes(b, a)
    ensures a == b
  {
    IdLessTotal(a.id, b.id);
    var i :| 0 <= i < |scored| && scored[i] == a;
    var j :| 0 <= j < |scored| && scored[j] == b;
  }

  /** The result does not depend on the order of the input. */
  lemma RankIgnoresInputOrder(xs: seq<Example>, ys: seq<Example>, k: int)
    requires UniqueIds(xs) && multiset(xs) == multiset(ys)
    ensures Rank(xs, k) == Rank(ys, k)
  {
    PrecedesIsPreorder();
    Sort.SortedIsSorted(xs, Precedes);
    Sort.SortedIsSorted(ys, Precedes);
    Sort.SortedPermutes(xs, Precedes);
    Sort.SortedPermutes(ys, Precedes);
    Sort.SortedMembers(xs, Precedes);
    forall a, b | a in Sort.Sorted(xs, Precedes) && b in Sort.Sorted(xs, Precedes) && Precedes(a, b) && Precedes(b, a)
      ensures a == b
    {
      NoTies(xs, a, b);
    }
    Sort.SortedUnique(Sort.Sorted(xs, Precedes), Sort.Sorted(ys, Precedes), Precedes);
  }

  lemma OnlyPositiveKIsRanked(scored: seq<Example>, k: int)
    ensures if k <= 0 then Rank(scored, k) == Err(InvalidTopK(k)) else Rank(scored, k).Ok?
  {
  }

  /** Asking for more examples only adds to the end of the list. */
  lemma SmallerKIsPrefix(scored: seq<Example>, k: int, n: int)
    requires 0 < k <= n
    ensures Rank(scored, k).value <= Rank(scored, n).value
  {
  }

  /** What the sort of uniquely identified examples gives. */
  lemma OrderedFacts(scored: seq<Example>)
    requires UniqueIds(scored)
    ensures var ordered := Sort.Sorted(scored, Precedes);
            && |ordered| == |scored|
            && Sort.IsSorted(ordered, Precedes)
            && Sort.NoDuplicates(ordered)
            && forall e :: e in ordered <==> e in scored
  {
    PrecedesIsPreorder();
    Sort.SortedIsSorted(scored, Precedes);
    Sort.SortedPermutes(scored, Precedes);
    Sort.SortedMembers(scored, Precedes);
    Sort.PermutationKeepsNoDuplicates(scored, Sort.Sorted(scored, Precedes));
  }

  lemma LeftOutIsWorse(scored: seq<Example>, k: nat, e: Example, t: Example)
    requires UniqueIds(scored) && k <= |scored|
    requires e in scored && e !in Sort.Sorted(scored, Precedes)[..k] && t in Sort.Sorted(scored, Precedes)[..k]
    ensures Precedes(t, e) && !Precedes(e, t)
  {
    OrderedFacts(scored);
    var ordered := Sort.Sorted(scored, Precedes);
    var top := ordered[..k];
    forall m | 0 <= m < k
      ensures ordered[m] in top
    {
      assert top[m] == ordered[m];
    }
    assert e in ordered;
    var j :| 0 <= j < |ordered| && ordered[j] == e;
    var i :| 0 <= i < k && top[i] == t;
    assert Precedes(ordered[i], ordered[j]);
    assert t in ordered;
    if Precedes(e, t) {
      NoTies(scored, e, t);
    }
  }

  /** A higher score, or the same score and a smaller identifier. */
  predicate ComesBefore(a: Example, b: Example) {
    a.score.overall > b.score.overall || (a.score.overall == b.score.overall && IdLess(a.id, b.id))
  }

  lemma PrecedesComesBefore(scored: seq<Example>, a: Example, b: Example)
    requires UniqueIds(scored) && a in scored && b in scored && a != b && Precedes(a, b)
    ensures ComesBefore(a, b)
  {
    if a.score.overall == b.score.overall {
      IdLessTotal(a.id, b.id);
      var i :| 0 <= i < |scored| && scored[i] == a;
      var j :| 0 <= j < |scored| && scored[j] == b;
    }
  }

  /** The list holds the `k` best: in order, taken from the input, and no example left out precedes one taken. */
  lemma RankTakesTheBest(scored: seq<Example>, k: int)
    requires UniqueIds(scored) && 0 < k
    ensures Rank(scored, k).Ok?
    ensures var top := Rank(scored, k).value;
            && |top| == (if k < |scored| then k else |scored|)
            && Sort.NoDuplicates(top)
            && (forall e :: e in top ==> e in scored)
            && (forall e, t :: e in scored && e !in top && t in top ==> ComesBefore(t, e))
            && (forall i, j :: 0 <= i < j < |top| ==> ComesBefore(top[i], top[j]))
  {
    OrderedFacts(scored);
    var ordered, n := Sort.Sorted(scored, Precedes), if k < |scored| then k else |scored|;
    var top := Rank(scored, k).value;
    assert top == ordered[..n];
    forall e | e in top
      ensures e in scored
    {
      assert e in ordered;
    }
    forall e, t | e in scored && e !in top && t in top
      ensures ComesBefore(t, e)
    {
      LeftOutIsWorse(scored, n, e, t);
      PrecedesComesBefore(scored, t, e);
    }
    forall i, j | 0 <= i < j < |top|
      ensures ComesBefore(top[i], top[j])
    {
      assert ordered[i] in ordered && ordered[j] in ordered && ordered[i] != ordered[j];
      PrecedesComesBefore(scored, ordered[i], ordered[j]);
    }
  }

  // ----- statistics

  /** What the per-signal totals dictionary holds, in insertion order. */
  datatype Total = Total(signal: Signal, value: real)

  function SumOverall(retrieved: seq<Score>): real {
    if retrieved == [] then 0.0 else SumOverall(retrieved[..|retrieved| - 1]) + retrieved[|retrieved| - 1].overall
  }

  function SumTotals(totals: seq<Total>): real {
    if totals == [] then 0.0 else totals[0].value + SumTotals(totals[1..])
  }

  function AverageScore(retrieved: seq<Score>): real {
    if retrieved == [] then 0.0 else SumOverall(retrieved) / |retrieved| as real
  }

  lemma AverageIsMean(retrieved: seq<Score>)
    ensures AverageScore(retrieved) * |retrieved| as real == SumOverall(retrieved)
  {
  }

  /** The weighted scores of one signal over a breakdown. */
  function SignalSum(breakdown: seq<Breakdown>, signal: Signal): real {
    if breakdown == [] then 0.0
    else
      var last := breakdown[|breakdown| - 1];
      SignalSum(breakdown[..|breakdown| - 1], signal) + if last.signal == signal then last.weighted else 0.0
  }

  function SignalSumAll(retrieved: seq<Score>, signal: Signal): real {
    if retrieved == [] then 0.0
    else SignalSumAll(retrieved[..|retrieved| - 1], signal) + SignalSum(retrieved[|retrieved| - 1].breakdown, signal)
  }

  /** A missing key reads as zero. */
  function Lookup(totals: seq<Total>, signal: Signal): real {
    if totals == [] then 0.0 else if totals[0].signal == signal then totals[0].value else Lookup(totals[1..], signal)
  }

  ghost predicate DistinctSignals(totals: seq<Total>) {
    forall i, j :: 0 <= i < j < |totals| ==> totals[i].signal != totals[j].signal
  }

  /** `totals[signal] += amount`: an existing key keeps its place, a new one goes last. */
  function AddTo(totals: seq<Total>, signal: Signal, amount: real): seq<Total> {
    if totals == [] then [Total(signal, amount)]
    else if totals[0].signal == signal then [Total(signal, totals[0].value + amount)] + totals[1..]
    else [totals[0]] + AddTo(totals[1..], signal, amount)
  }

  lemma {:induction false} AddToSums(totals: seq<Total>, signal: Signal, amount: real)
    ensures SumTotals(AddTo(totals, signal, amount)) == SumTotals(totals) + amount
    decreases |totals|
  {
    if totals != [] && totals[0].signal != signal {
      AddToSums(totals[1..], signal, amount);
    }
  }

  lemma {:induction false} AddToLooksUp(totals: seq<Total>, signal: Signal, amount: real, other: Signal)
    ensures Lookup(AddTo(totals, signal, amount), other) ==
            Lookup(totals, other) + if other == signal then amount else 0.0
    decreases |totals|
  {
    if totals != [] && totals[0].signal != signal {
      AddToLooksUp(totals[1..], signal, amount, other);
    }
  }

  lemma {:induction false} AddToKeys(totals: seq<Total>, signal: Signal, amount: real)
    requires DistinctSignals(totals)
    ensures DistinctSignals(AddTo(totals, signal, amount))
    ensures forall t :: t in AddTo(totals, signal, amount) ==>
              t.signal == signal || exists u :: u in totals && u.signal == t.signal
    decreases |totals|
  {
    if totals != [] && totals[0].signal != signal {
      var rest := AddTo(totals[1..], signal, amount);
      AddToKeys(totals[1..], signal, amount);
      forall i | 0 <= i < |rest|
        ensures rest[i].signal != totals[0].signal
      {
        assert rest[i] in rest;
      }
      assert totals == [totals[0]] + totals[1..];
    } else if totals != [] {
      assert totals == [totals[0]] + totals[1..];
    }
  }

  /** The totals dictionary after all of `done` and the first entries of the next breakdown have been added up. */
  ghost predicate AddedUp(totals: seq<Total>, done: seq<Score>, part: seq<Breakdown>) {
    && DistinctSignals(totals)
    && SumTotals(totals) == SumBreakdowns(done) + SumWeighted(part)
    && forall signal :: Lookup(totals, signal) == SignalSumAll(done, signal) + SignalSum(part, signal)
  }

  function SumBreakdowns(retrieved: seq<Score>): real {
    if retrieved == [] then 0.0
    else SumBreakdowns(retrieved[..|retrieved| - 1]) + SumWeighted(retrieved[|retrieved| - 1].breakdown)
  }

  lemma AddEntry(totals: seq<Total>, done: seq<Score>, breakdown: seq<Breakdown>, k: nat)
    requires k < |breakdown| && AddedUp(totals, done, breakdown[..k])
    ensures AddedUp(AddTo(totals, breakdown[k].signal, breakdown[k].weighted), done, breakdown[..k + 1])
  {
    var entry := breakdown[k];
    assert breakdown[..k + 1][..k] == breakdown[..k];
    AddToSums(totals, entry.signal, entry.weighted);
    AddToKeys(totals, entry.signal, entry.weighted);
    forall signal: Signal {
      AddToLooksUp(totals, entry.signal, entry.weighted, signal);
    }
  }

  lemma NextScore(totals: seq<Total>, retrieved: seq<Score>, i: nat)
    requires i < |retrieved| && AddedUp(totals, retrieved[..i], retrieved[i].breakdown)
    ensures AddedUp(totals, retrieved[..i + 1], [])
  {
    assert retrieved[..i + 1][..i] == retrieved[..i];
  }

  method SignalTotals(retrieved: seq<Score>) returns (totals: seq<Total>)
    ensures AddedUp(totals, retrieved, [])
  {
    totals := [];
    for i := 0 to |retrieved|
      invariant AddedUp(totals, retrieved[..i], [])
    {
      var breakdown := retrieved[i].breakdown;
      assert breakdown[..0] == [];
      for k := 0 to |breakdown|
        invariant AddedUp(totals, retrieved[..i], breakdown[..k])
      {
        AddEntry(totals, retrieved[..i], breakdown, k);
        totals := AddTo(totals, breakdown[k].signal, breakdown[k].weighted);
      }
      assert breakdown[..|breakdown|] == breakdown;
      NextScore(totals, retrieved, i);
    }
    assert retrieved[..|retrieved|] == retrieved;
  }

  function DivideAll(totals: seq<Total>, n: real): (r: seq<Total>)
    requires n != 0.0
    ensures |r| == |totals|
  {
    seq(|totals|, i requires 0 <= i < |totals| => Total(totals[i].signal, totals[i].value / n))
  }

  lemma {:induction false} DivideSums(totals: seq<Total>, n: real)
    requires n != 0.0
    ensures SumTotals(DivideAll(totals, n)) == SumTotals(totals) / n
    decreases |totals|
  {
    if totals != [] {
      DivideSums(totals[1..], n);
      assert DivideAll(totals, n)[1..] == DivideAll(totals[1..], n);
      DivideAdds(totals[0].value, SumTotals(totals[1..]), n);
    }
  }

  lemma DivideAdds(a: real, b: real, n: real)
    requires n != 0.0
    ensures (a + b) / n == a / n + b / n
  {
  }

  lemma {:induction false} DivideLooksUp(totals: seq<Total>, n: real, signal: Signal)
    requires n != 0.0
    ensures Lookup(DivideAll(totals, n), signal) == Lookup(totals, signal) / n
    decreases |totals|
  {
    if totals != [] {
      DivideLooksUp(totals[1..], n, signal);
      assert DivideAll(totals, n)[1..] == DivideAll(totals[1..], n);
    }
  }

  /** The score's overall value is the plain sum of its breakdown, as it is for every score of the default signals. */
  ghost predicate Uncapped(retrieved: seq<Score>) {
    forall i :: 0 <= i < |retrieved| ==> retrieved[i].overall == SumWeighted(retrieved[i].breakdown)
  }

  lemma {:induction false} UncappedSums(retrieved: seq<Score>)
    requires Uncapped(retrieved)
    ensures SumOverall(retrieved) == SumBreakdowns(retrieved)
    decreases |retrieved|
  {
    if retrieved != [] {
      UncappedSums(retrieved[..|retrieved| - 1]);
    }
  }

  /**
    The statistics of one retrieval: each signal's contribution is the average of its weighted scores, no signal is
    listed twice, and together the contributions account for the whole average score.
   */
  method Collect(retrieved: seq<Score>) returns (average: real, contributions: seq<Total>)
    ensures average == AverageScore(retrieved)
    ensures DistinctSignals(contributions)
    ensures retrieved == [] ==> contributions == []
    ensures retrieved != [] ==>
              forall signal :: Lookup(contributions, signal) == SignalSumAll(retrieved, signal) / |retrieved| as real
    ensures Uncapped(retrieved) ==> SumTotals(contributions) == average
  {
    average := AverageScore(retrieved);
    if retrieved == [] {
      return average, [];
    }
    var totals := SignalTotals(retrieved);
    var n := |retrieved| as real;
    contributions := DivideAll(totals, n);
    DivideSums(totals, n);
    forall signal: Signal {
      DivideLooksUp(totals, n, signal);
    }
    if Uncapped(retrieved) {
      UncappedSums(retrieved);
    }
  }
}
