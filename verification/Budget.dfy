/** Token-budget enforcement (`prompt_compiler/budget.py`) and how far over the budget its result can really be. */
module Budget {
  import opened PromptSections
  import Sort = StableSort

  /** Drop the section if the excess covers it; otherwise cut it to what should remain and append the marker. */
  function ShrinkOrDrop(s: Section, excess: nat): (Section, nat) {
    if excess >= s.tokens then
      (s.(content := "", tokens := 0, exampleIds := [], schemaObjects := []), s.tokens)
    else
      var cut := CHARS_PER_TOKEN * (s.tokens - excess);
      var content := RStrip(s.content[..Min(cut, |s.content|)]) + MARKER;
      var tokens := EstimateTokens(content);
      (s.(content := content, tokens := tokens), if tokens <= s.tokens then s.tokens - tokens else 0)
  }

  function Min(a: nat, b: nat): nat {
    if a <= b then a else b
  }

  function Max(a: int, b: int): int {
    if a >= b then a else b
  }

  predicate ByPriority(a: Section, b: Section) {
    a.priority <= b.priority
  }

  predicate IsTrimmable(s: Section) {
    !s.required
  }

  function TrimOrder(sections: seq<Section>): seq<Section> {
    Sort.Sorted(Sort.Filter(sections, IsTrimmable), ByPriority)
  }

  /** What trimming makes of the sections it touches, in trim order; it stops once the tracked total fits. */
  function Trimmed(order: seq<Section>, total: int, maxTokens: nat): (r: seq<Section>)
    ensures |r| <= |order|
  {
    if order == [] || total <= maxTokens then []
    else
      var (section, freed) := ShrinkOrDrop(order[0], total - maxTokens);
      [section] + Trimmed(order[1..], total - freed, maxTokens)
  }

  /** The total the manager believes it has reached. */
  function Tracked(order: seq<Section>, total: int, maxTokens: nat): int {
    if order == [] || total <= maxTokens then total
    else
      var (_, freed) := ShrinkOrDrop(order[0], total - maxTokens);
      Tracked(order[1..], total - freed, maxTokens)
  }

  /** How many of the touched sections were cut short rather than dropped. */
  function Shortened(order: seq<Section>, total: int, maxTokens: nat): nat {
    if order == [] || total <= maxTokens then 0
    else
      var (_, freed) := ShrinkOrDrop(order[0], total - maxTokens);
      (if total - maxTokens < order[0].tokens then 1 else 0) +
      Shortened(order[1..], total - freed, maxTokens)
  }

  type Working = map<SectionName, Section>

  function ByName(sections: seq<Section>): (w: Working)
    ensures forall i :: 0 <= i < |sections| ==> sections[i].name in w
  {
    if sections == [] then map[]
    else ByName(sections[..|sections| - 1])[sections[|sections| - 1].name := sections[|sections| - 1]]
  }

  /** The working table after the sections `order` have been replaced, one by one, by `trimmed`. */
  function Replaced(w: Working, order: seq<Section>, trimmed: seq<Section>): (r: Working)
    requires |trimmed| <= |order|
    ensures w.Keys <= r.Keys
    decreases |trimmed|
  {
    if trimmed == [] then w
    else Replaced(w[order[0].name := trimmed[0]], order[1..], trimmed[1..])
  }

  function Enforced(sections: seq<Section>, maxTokens: nat): (r: seq<Section>)
    ensures |r| == |sections|
  {
    var total := Total(sections);
    if total <= maxTokens then sections
    else
      var order := TrimOrder(sections);
      var working := Replaced(ByName(sections), order, Trimmed(order, total, maxTokens));
      seq(|sections|, i requires 0 <= i < |sections| => working[sections[i].name])
  }

  method Enforce(sections: seq<Section>, maxTokens: nat) returns (r: seq<Section>)
    ensures r == Enforced(sections, maxTokens)
  {
    hide ShrinkOrDrop;
    var total: int := Total(sections);
    if total <= maxTokens {
      return sections;
    }
    var working := ByName(sections);
    var order := TrimOrder(sections);
    ghost var all := Replaced(working, order, Trimmed(order, total, maxTokens));
    var i := 0;
    while i < |order| && total > maxTokens
      invariant 0 <= i <= |order|
      invariant ByName(sections).Keys <= working.Keys
      invariant all == Replaced(working, order[i..], Trimmed(order[i..], total, maxTokens))
    {
      assert order[i..][0] == order[i] && order[i..][1..] == order[i + 1..];
      var (section, freed) := ShrinkOrDrop(order[i], total - maxTokens);
      working := working[order[i].name := section];
      total := total - freed;
      i := i + 1;
    }
    assert Trimmed(order[i..], total, maxTokens) == [];
    r := seq(|sections|,
             k requires 0 <= k < |sections| && ByName(sections).Keys <= working.Keys => working[sections[k].name]);
  }

  // ----- which sections are touched

  lemma DistinctCons(x: Section, ys: seq<Section>)
    requires DistinctNames(ys) && forall y :: y in ys ==> y.name != x.name
    ensures DistinctNames([x] + ys)
  {
    var xs := [x] + ys;
    forall i, j | 0 <= i < j < |xs|
      ensures xs[i].name != xs[j].name
    {
      assert xs[j] == ys[j - 1] && ys[j - 1] in ys;
    }
  }

  lemma {:induction false} ByNameFinds(sections: seq<Section>, i: nat)
    requires DistinctNames(sections) && i < |sections|
    ensures ByName(sections)[sections[i].name] == sections[i]
    decreases |sections|
  {
    if i < |sections| - 1 {
      ByNameFinds(sections[..|sections| - 1], i);
    }
  }

  lemma {:induction false} ReplacedAt(w: Working, order: seq<Section>, trimmed: seq<Section>, name: SectionName)
    requires |trimmed| <= |order| && DistinctNames(order)
    requires name in w
    ensures forall k :: 0 <= k < |trimmed| && order[k].name == name ==> Replaced(w, order, trimmed)[name] == trimmed[k]
    ensures (forall k :: 0 <= k < |trimmed| ==> order[k].name != name) ==> Replaced(w, order, trimmed)[name] == w[name]
    decreases |trimmed|
  {
    if trimmed != [] {
      ReplacedAt(w[order[0].name := trimmed[0]], order[1..], trimmed[1..], name);
      forall k | 0 <= k < |trimmed| && order[k].name == name
        ensures Replaced(w, order, trimmed)[name] == trimmed[k]
      {
        if k > 0 {
          assert order[1..][k - 1] == order[k] && trimmed[1..][k - 1] == trimmed[k];
        } else {
          assert forall j :: 0 <= j < |trimmed[1..]| ==> order[1..][j] == order[j + 1];
        }
      }
      if forall k :: 0 <= k < |trimmed| ==> order[k].name != name {
        assert forall j :: 0 <= j < |trimmed[1..]| ==> order[1..][j] == order[j + 1];
      }
    }
  }

  lemma {:induction false} FilterMembers(sections: seq<Section>, p: Section -> bool)
    ensures forall s :: s in Sort.Filter(sections, p) <==> s in sections && p(s)
    decreases |sections|
  {
    if sections != [] {
      FilterMembers(sections[1..], p);
      assert sections == [sections[0]] + sections[1..];
    }
  }

  lemma {:induction false} FilterDistinct(sections: seq<Section>, p: Section -> bool)
    requires DistinctNames(sections)
    ensures DistinctNames(Sort.Filter(sections, p))
    decreases |sections|
  {
    if sections != [] {
      FilterDistinct(sections[1..], p);
      FilterMembers(sections[1..], p);
      if p(sections[0]) {
        DistinctCons(sections[0], Sort.Filter(sections[1..], p));
      }
    }
  }

  /** Distinctness of names is a property of the contents, so sorting keeps it. */
  lemma {:induction false} InsertDistinct(x: Section, ys: seq<Section>)
    requires DistinctNames(ys) && forall y :: y in ys ==> y.name != x.name
    ensures DistinctNames(Sort.Insert(x, ys, ByPriority))
    decreases |ys|
  {
    if ys == [] || ByPriority(x, ys[0]) {
      DistinctCons(x, ys);
    } else {
      var rest := Sort.Insert(x, ys[1..], ByPriority);
      InsertDistinct(x, ys[1..]);
      Sort.InsertPermutes(x, ys[1..], ByPriority);
      Sort.PermutationMembers(rest, [x] + ys[1..]);
      DistinctCons(ys[0], rest);
    }
  }

  lemma {:induction false} SortedDistinct(xs: seq<Section>)
    requires DistinctNames(xs)
    ensures DistinctNames(Sort.Sorted(xs, ByPriority))
    decreases |xs|
  {
    if xs != [] {
      SortedDistinct(xs[1..]);
      Sort.SortedMembers(xs[1..], ByPriority);
      InsertDistinct(xs[0], Sort.Sorted(xs[1..], ByPriority));
    }
  }

  /** The trim order: exactly the non-required sections, by priority, ties in their original order. */
  lemma TrimOrderFacts(sections: seq<Section>, priority: nat)
    ensures forall s :: s in TrimOrder(sections) <==> s in sections && !s.required
    ensures forall i, j :: 0 <= i < j < |TrimOrder(sections)| ==>
              TrimOrder(sections)[i].priority <= TrimOrder(sections)[j].priority
    ensures WithPriority(TrimOrder(sections), priority) == Sort.Filter(WithPriority(sections, priority), IsTrimmable)
    ensures DistinctNames(sections) ==> DistinctNames(TrimOrder(sections))
  {
    var trimmable := Sort.Filter(sections, IsTrimmable);
    FilterMembers(sections, IsTrimmable);
    Sort.SortedMembers(trimmable, ByPriority);
    Sort.SortedIsSorted(trimmable, ByPriority);
    var order := TrimOrder(sections);
    assert forall i, j :: 0 <= i < j < |order| ==> ByPriority(order[i], order[j]);
    Sort.SortedIsStable(trimmable, ByPriority, (s: Section) => s.priority == priority);
    FiltersCommute(sections, IsTrimmable, (s: Section) => s.priority == priority);
    if DistinctNames(sections) {
      FilterDistinct(sections, IsTrimmable);
      SortedDistinct(trimmable);
    }
  }

  function WithPriority(sections: seq<Section>, priority: nat): seq<Section> {
    Sort.Filter(sections, (s: Section) => s.priority == priority)
  }

  lemma {:induction false} FiltersCommute(sections: seq<Section>, p: Section -> bool, q: Section -> bool)
    ensures Sort.Filter(Sort.Filter(sections, p), q) == Sort.Filter(Sort.Filter(sections, q), p)
    decreases |sections|
  {
    if sections != [] {
      var x, rest := sections[0], sections[1..];
      FiltersCommute(rest, p, q);
      assert sections == [x] + rest;
      Sort.FilterCons(x, rest, p);
      Sort.FilterCons(x, rest, q);
      Sort.FilterCons(x, Sort.Filter(rest, p), q);
      Sort.FilterCons(x, Sort.Filter(rest, q), p);
    }
  }

  /** Each touched section is what `ShrinkOrDrop` makes of it for the excess tracked when its turn came. */
  lemma {:induction false} TrimmedAt(order: seq<Section>, total: int, maxTokens: nat, k: nat)
    requires k < |Trimmed(order, total, maxTokens)|
    ensures k < |order|
    ensures var before := Tracked(order[..k], total, maxTokens);
            && before > maxTokens
            && |Trimmed(order[..k], total, maxTokens)| == k
            && Trimmed(order, total, maxTokens)[k] == ShrinkOrDrop(order[k], before - maxTokens).0
    decreases k
  {
    hide ShrinkOrDrop;
    if k > 0 {
      var (_, freed) := ShrinkOrDrop(order[0], total - maxTokens);
      TrimmedAt(order[1..], total - freed, maxTokens, k - 1);
      assert order[..k][1..] == order[1..][..k - 1];
      assert order[..k][0] == order[0];
    } else {
      assert order[..0] == [];
    }
  }

  lemma {:induction false} StopsWhenItFits(order: seq<Section>, total: int, maxTokens: nat)
    ensures |Trimmed(order, total, maxTokens)| < |order| ==> Tracked(order, total, maxTokens) <= maxTokens
    decreases |order|
  {
    hide ShrinkOrDrop;
    if order != [] && total > maxTokens {
      var (_, freed) := ShrinkOrDrop(order[0], total - maxTokens);
      StopsWhenItFits(order[1..], total - freed, maxTokens);
    }
  }

  /** How many sections of the trim order the manager touches. */
  function Touched(sections: seq<Section>, maxTokens: nat): (n: nat)
    ensures n <= |TrimOrder(sections)|
  {
    |Trimmed(TrimOrder(sections), Total(sections), maxTokens)|
  }

  lemma AfterIs(sections: seq<Section>, maxTokens: nat, i: nat)
    requires DistinctNames(sections) && i < |sections| && Total(sections) > maxTokens
    ensures |Enforced(sections, maxTokens)| == |sections|
    ensures Enforced(sections, maxTokens)[i] ==
            Replaced(ByName(sections), TrimOrder(sections), Trimmed(TrimOrder(sections), Total(sections), maxTokens))
              [sections[i].name]
  {
  }

  lemma SameNameSameSection(sections: seq<Section>, k: nat, i: nat)
    requires DistinctNames(sections) && i < |sections|
    requires k < |TrimOrder(sections)| && TrimOrder(sections)[k].name == sections[i].name
    ensures TrimOrder(sections)[k] == sections[i] && !sections[i].required
  {
    TrimOrderFacts(sections, 0);
    assert TrimOrder(sections)[k] in TrimOrder(sections);
    var j :| 0 <= j < |sections| && sections[j] == TrimOrder(sections)[k];
  }

  /** Every required section, and every trimmable one past the touched prefix, comes back as it was. */
  lemma UntouchedIsUnchanged(sections: seq<Section>, maxTokens: nat, i: nat)
    requires DistinctNames(sections) && i < |sections|
    requires sections[i].required ||
             exists k ::
               Touched(sections, maxTokens) <= k < |TrimOrder(sections)| && TrimOrder(sections)[k] == sections[i]
    ensures |Enforced(sections, maxTokens)| == |sections| && Enforced(sections, maxTokens)[i] == sections[i]
  {
    if Total(sections) > maxTokens {
      var order := TrimOrder(sections);
      var trimmed := Trimmed(order, Total(sections), maxTokens);
      AfterIs(sections, maxTokens, i);
      ByNameFinds(sections, i);
      TrimOrderFacts(sections, 0);
      forall j | 0 <= j < |trimmed|
        ensures order[j].name != sections[i].name
      {
        if order[j].name == sections[i].name {
          SameNameSameSection(sections, j, i);
        }
      }
      ReplacedAt(ByName(sections), order, trimmed, sections[i].name);
    }
  }

  lemma TouchedMeansOverBudget(sections: seq<Section>, maxTokens: nat, k: nat)
    requires k < Touched(sections, maxTokens)
    ensures Total(sections) > maxTokens
    ensures k < |Trimmed(TrimOrder(sections), Total(sections), maxTokens)|
  {
  }

  lemma TouchedIsReplaced(sections: seq<Section>, maxTokens: nat, k: nat, i: nat)
    requires DistinctNames(sections) && Total(sections) > maxTokens
    requires k < |Trimmed(TrimOrder(sections), Total(sections), maxTokens)|
    requires i < |sections| && sections[i] == TrimOrder(sections)[k]
    ensures Enforced(sections, maxTokens)[i] == Trimmed(TrimOrder(sections), Total(sections), maxTokens)[k]
  {
    hide *;
    AfterIs(sections, maxTokens, i);
    TrimOrderFacts(sections, 0);
    var order := TrimOrder(sections);
    ReplacedAt(ByName(sections), order, Trimmed(order, Total(sections), maxTokens), order[k].name);
  }

  /** Each section of the touched prefix is shortened or dropped for the positive excess tracked before it. */
  lemma TouchedIsShrunk(sections: seq<Section>, maxTokens: nat, k: nat, i: nat)
    requires DistinctNames(sections) && k < Touched(sections, maxTokens)
    requires i < |sections| && sections[i] == TrimOrder(sections)[k]
    ensures |Enforced(sections, maxTokens)| == |sections|
    ensures var before := Tracked(TrimOrder(sections)[..k], Total(sections), maxTokens);
            && before > maxTokens
            && Enforced(sections, maxTokens)[i] == ShrinkOrDrop(sections[i], before - maxTokens).0
  {
    hide *;
    TouchedMeansOverBudget(sections, maxTokens, k);
    TouchedIsReplaced(sections, maxTokens, k, i);
    TrimmedAt(TrimOrder(sections), Total(sections), maxTokens, k);
  }

  lemma ShrinkKeepsIdentity(s: Section, excess: nat)
    ensures var after := ShrinkOrDrop(s, excess).0;
            after.name == s.name && after.required == s.required && after.priority == s.priority
  {
  }

  /** One position of the result: its identity, and that a change means the section is in the touched prefix. */
  lemma PositionKept(sections: seq<Section>, maxTokens: nat, i: nat)
    requires DistinctNames(sections) && i < |sections|
    ensures |Enforced(sections, maxTokens)| == |sections|
    ensures var after := Enforced(sections, maxTokens)[i];
            && after.name == sections[i].name
            && after.required == sections[i].required
            && after.priority == sections[i].priority
            && (sections[i].required ==> after == sections[i])
            && (after != sections[i] ==> sections[i] in TrimOrder(sections)[..Touched(sections, maxTokens)])
  {
    hide *;
    if Total(sections) <= maxTokens {
      IdentityWithinBudget(sections, maxTokens);
    } else if sections[i].required {
      UntouchedIsUnchanged(sections, maxTokens, i);
    } else {
      var order, n := TrimOrder(sections), Touched(sections, maxTokens);
      TrimOrderFacts(sections, 0);
      assert sections[i] in order;
      var k :| 0 <= k < |order| && order[k] == sections[i];
      if k < n {
        TouchedIsShrunk(sections, maxTokens, k, i);
        ShrinkKeepsIdentity(sections[i], Tracked(order[..k], Total(sections), maxTokens) - maxTokens);
        assert order[..n][k] == sections[i];
      } else {
        UntouchedIsUnchanged(sections, maxTokens, i);
      }
    }
  }

  lemma IdentityWithinBudget(sections: seq<Section>, maxTokens: nat)
    requires Total(sections) <= maxTokens
    ensures Enforced(sections, maxTokens) == sections
  {
  }

  /**
    What enforcement touches: the identity within budget; positions, names and required sections kept; the touched
    sections a prefix of the trim order, which it leaves unfinished only once the tracked total fits.
   */
  lemma TouchesPrefixOfTrimOrder(sections: seq<Section>, maxTokens: nat)
    requires DistinctNames(sections)
    ensures Total(sections) <= maxTokens ==> Enforced(sections, maxTokens) == sections
    ensures |Enforced(sections, maxTokens)| == |sections|
    ensures forall i :: 0 <= i < |sections| ==>
              && Enforced(sections, maxTokens)[i].name == sections[i].name
              && Enforced(sections, maxTokens)[i].required == sections[i].required
              && Enforced(sections, maxTokens)[i].priority == sections[i].priority
              && (sections[i].required ==> Enforced(sections, maxTokens)[i] == sections[i])
              && (Enforced(sections, maxTokens)[i] != sections[i] ==>
                    sections[i] in TrimOrder(sections)[..Touched(sections, maxTokens)])
    ensures Touched(sections, maxTokens) < |TrimOrder(sections)| ==>
              Tracked(TrimOrder(sections), Total(sections), maxTokens) <= maxTokens
  {
    StopsWhenItFits(TrimOrder(sections), Total(sections), maxTokens);
    assert Touched(sections, maxTokens) == |Trimmed(TrimOrder(sections), Total(sections), maxTokens)|;
    hide *;
    if Total(sections) <= maxTokens {
      IdentityWithinBudget(sections, maxTokens);
    }
    forall i | 0 <= i < |sections| {
      PositionKept(sections, maxTokens, i);
    }
  }

  // ----- how large the result can be

  function SumBy(sections: seq<Section>, f: Section -> int): int {
    if sections == [] then 0 else f(sections[0]) + SumBy(sections[1..], f)
  }

  lemma {:induction false} SumByInsert(x: Section, ys: seq<Section>, f: Section -> int)
    ensures SumBy(Sort.Insert(x, ys, ByPriority), f) == f(x) + SumBy(ys, f)
    decreases |ys|
  {
    if ys == [] || ByPriority(x, ys[0]) {
      assert ([x] + ys)[1..] == ys;
    } else {
      SumByInsert(x, ys[1..], f);
    }
  }

  lemma {:induction false} SumBySorted(xs: seq<Section>, f: Section -> int)
    ensures SumBy(Sort.Sorted(xs, ByPriority), f) == SumBy(xs, f)
    decreases |xs|
  {
    if xs != [] {
      SumBySorted(xs[1..], f);
      SumByInsert(xs[0], Sort.Sorted(xs[1..], ByPriority), f);
    }
  }

  /** The sum over all sections, split into the required ones and the trim order. */
  lemma {:induction false} SumBySplit(xs: seq<Section>, f: Section -> int)
    ensures SumBy(xs, f) == SumBy(Sort.Filter(xs, IsRequired), f) + SumBy(Sort.Filter(xs, IsTrimmable), f)
    decreases |xs|
  {
    if xs != [] {
      var x, rest := xs[0], xs[1..];
      SumBySplit(rest, f);
      assert xs == [x] + rest;
      Sort.FilterCons(x, rest, IsRequired);
      Sort.FilterCons(x, rest, IsTrimmable);
    }
  }

  predicate IsRequired(s: Section) {
    s.required
  }

  lemma {:induction false} TotalIsSumBy(xs: seq<Section>, ys: seq<Section>, f: Section -> int)
    requires |xs| == |ys| && forall i :: 0 <= i < |xs| ==> ys[i].tokens == f(xs[i])
    ensures Total(ys) == SumBy(xs, f)
    decreases |xs|
  {
    if xs != [] {
      TotalIsSumBy(xs[1..], ys[1..], f);
      TotalCons(ys[0], ys[1..]);
      assert ys == [ys[0]] + ys[1..];
    }
  }

  lemma {:induction false} TotalCons(y: Section, ys: seq<Section>)
    ensures Total([y] + ys) == y.tokens + Total(ys)
    decreases |ys|
  {
    if ys == [] {
      assert [y] + ys == [y];
    } else {
      assert ([y] + ys)[..|ys|] == [y] + ys[..|ys| - 1];
      TotalCons(y, ys[..|ys| - 1]);
    }
  }

  /** Cutting a section short leaves it at most nine tokens above what was aimed at; the marker costs that much. */
  lemma ShorteningOvershoot(s: Section, excess: nat)
    requires 0 < excess < s.tokens
    ensures ShrinkOrDrop(s, excess).0.tokens <= s.tokens - excess + 9
    ensures ShrinkOrDrop(s, excess).1 >= excess - 9
    ensures ShrinkOrDrop(s, excess).0.tokens <= s.tokens - ShrinkOrDrop(s, excess).1 + 8
  {
    assert |MARKER| == 35;
  }

  /** A cut section reaches the size aimed at exactly when what is kept of it leaves room for the marker. */
  lemma ShorteningMeetsTargetIff(s: Section, excess: nat)
    requires 0 < excess < s.tokens
    ensures var cut := CHARS_PER_TOKEN * (s.tokens - excess);
            ShrinkOrDrop(s, excess).0.tokens <= s.tokens - excess <==>
              |RStrip(s.content[..Min(cut, |s.content|)])| + |MARKER| <= cut
  {
    var cut := CHARS_PER_TOKEN * (s.tokens - excess);
    EstimateIsCeiling(RStrip(s.content[..Min(cut, |s.content|)]) + MARKER, s.tokens - excess);
  }

  /** Dropping frees the whole section, cutting all but nine tokens of the excess. */
  lemma FreedEnough(s: Section, excess: nat)
    requires 0 < excess
    ensures excess >= s.tokens ==> ShrinkOrDrop(s, excess).1 == s.tokens
    ensures excess < s.tokens ==> ShrinkOrDrop(s, excess).1 >= excess - 9
  {
    if excess < s.tokens {
      ShorteningOvershoot(s, excess);
    }
  }

  lemma {:induction false} TrackedBound(order: seq<Section>, total: int, maxTokens: nat)
    ensures Tracked(order, total, maxTokens) <= total
    ensures Tracked(order, total, maxTokens) <= Max(total - Total(order), maxTokens + 9)
    ensures Shortened(order, total, maxTokens) == 0 ==>
              Tracked(order, total, maxTokens) <= Max(total - Total(order), maxTokens)
    decreases |order|
  {
    hide ShrinkOrDrop;
    if order != [] {
      assert order == [order[0]] + order[1..];
      TotalCons(order[0], order[1..]);
      if total > maxTokens {
        var (_, freed) := ShrinkOrDrop(order[0], total - maxTokens);
        TrackedBound(order[1..], total - freed, maxTokens);
        FreedEnough(order[0], total - maxTokens);
      }
    }
  }

  lemma StepError(s: Section, excess: nat)
    requires 0 < excess
    ensures ShrinkOrDrop(s, excess).0.tokens <=
              s.tokens - ShrinkOrDrop(s, excess).1 + (if excess < s.tokens then 8 else 0)
  {
    if excess < s.tokens {
      ShorteningOvershoot(s, excess);
    }
  }

  /** Tokens of the touched prefix as they become, and of the rest as they are. */
  function RealTotal(order: seq<Section>, total: int, maxTokens: nat): int {
    if order == [] || total <= maxTokens then Total(order)
    else
      var (section, freed) := ShrinkOrDrop(order[0], total - maxTokens);
      section.tokens + RealTotal(order[1..], total - freed, maxTokens)
  }

  lemma {:induction false} RealTotalIs(order: seq<Section>, total: int, maxTokens: nat)
    ensures var trimmed := Trimmed(order, total, maxTokens);
            RealTotal(order, total, maxTokens) == Total(trimmed) + Total(order[|trimmed|..])
    decreases |order|
  {
    hide ShrinkOrDrop;
    var trimmed := Trimmed(order, total, maxTokens);
    if order != [] && total > maxTokens {
      var (section, freed) := ShrinkOrDrop(order[0], total - maxTokens);
      RealTotalIs(order[1..], total - freed, maxTokens);
      TotalCons(section, trimmed[1..]);
      assert trimmed == [section] + trimmed[1..];
      assert order[|trimmed|..] == order[1..][|trimmed[1..]|..];
    } else {
      assert order[0..] == order;
    }
  }

  /** The real tokens of the touched sections exceed what the tracking believes by at most eight per shortened one. */
  lemma {:induction false} TrackingError(order: seq<Section>, total: int, maxTokens: nat)
    ensures RealTotal(order, total, maxTokens) <=
              Total(order) - (total - Tracked(order, total, maxTokens)) + 8 * Shortened(order, total, maxTokens)
    decreases |order|
  {
    hide ShrinkOrDrop;
    if order != [] && total > maxTokens {
      var freed := ShrinkOrDrop(order[0], total - maxTokens).1;
      StepError(order[0], total - maxTokens);
      TrackingError(order[1..], total - freed, maxTokens);
      assert order == [order[0]] + order[1..];
      TotalCons(order[0], order[1..]);
    }
  }

  /** The tokens of `after` at the positions of the trim order, touched prefix first. */
  lemma {:induction false} SumOverOrder(order: seq<Section>, trimmed: seq<Section>, f: Section -> int)
    requires |trimmed| <= |order|
    requires forall k :: 0 <= k < |trimmed| ==> f(order[k]) == trimmed[k].tokens
    requires forall k :: |trimmed| <= k < |order| ==> f(order[k]) == order[k].tokens
    ensures SumBy(order, f) == Total(trimmed) + Total(order[|trimmed|..])
    decreases |order|
  {
    if trimmed != [] {
      assert order[1..][|trimmed[1..]|..] == order[|trimmed|..];
      SumOverOrder(order[1..], trimmed[1..], f);
      assert trimmed == [trimmed[0]] + trimmed[1..];
      TotalCons(trimmed[0], trimmed[1..]);
    } else {
      TotalIsSumBy(order, order, f);
      assert order[0..] == order;
    }
  }

  /** The required sections' tokens, which trimming can never give back. */
  function RequiredTotal(sections: seq<Section>): nat {
    Total(Sort.Filter(sections, IsRequired))
  }

  lemma TotalSplits(sections: seq<Section>)
    ensures Total(sections) == RequiredTotal(sections) + Total(TrimOrder(sections))
  {
    var tokens := (s: Section) => s.tokens;
    TotalIsSumBy(sections, sections, tokens);
    SumBySplit(sections, tokens);
    var required, trimmable := Sort.Filter(sections, IsRequired), Sort.Filter(sections, IsTrimmable);
    TotalIsSumBy(required, required, tokens);
    SumBySorted(trimmable, tokens);
    TotalIsSumBy(TrimOrder(sections), TrimOrder(sections), tokens);
  }

  /** What a section's tokens become. */
  function After(sections: seq<Section>, maxTokens: nat, s: Section): int {
    var order := TrimOrder(sections);
    var working := Replaced(ByName(sections), order, Trimmed(order, Total(sections), maxTokens));
    if s.name in working then working[s.name].tokens else 0
  }

  lemma EnforcedTotal(sections: seq<Section>, maxTokens: nat)
    requires DistinctNames(sections) && Total(sections) > maxTokens
    ensures var order := TrimOrder(sections);
            var trimmed := Trimmed(order, Total(sections), maxTokens);
            Total(Enforced(sections, maxTokens)) == RequiredTotal(sections) + Total(trimmed) + Total(order[|trimmed|..])
  {
    var f := (s: Section) => After(sections, maxTokens, s);
    var order := TrimOrder(sections);
    var trimmed := Trimmed(order, Total(sections), maxTokens);
    TotalIsSumBy(sections, Enforced(sections, maxTokens), f);
    SumBySplit(sections, f);
    SumBySorted(Sort.Filter(sections, IsTrimmable), f);
    RequiredKeepTokens(sections, maxTokens);
    OrderTokens(sections, maxTokens);
    SumOverOrder(order, trimmed, f);
  }

  lemma RequiredKeepTokens(sections: seq<Section>, maxTokens: nat)
    requires DistinctNames(sections) && Total(sections) > maxTokens
    ensures SumBy(Sort.Filter(sections, IsRequired), (s: Section) => After(sections, maxTokens, s)) ==
            RequiredTotal(sections)
  {
    var required := Sort.Filter(sections, IsRequired);
    FilterMembers(sections, IsRequired);
    var f := (s: Section) => After(sections, maxTokens, s);
    forall k | 0 <= k < |required|
      ensures required[k].tokens == f(required[k])
    {
      assert required[k] in required;
      var i :| 0 <= i < |sections| && sections[i] == required[k];
      UntouchedIsUnchanged(sections, maxTokens, i);
      AfterIs(sections, maxTokens, i);
    }
    TotalIsSumBy(required, required, f);
  }

  lemma OrderTokens(sections: seq<Section>, maxTokens: nat)
    requires DistinctNames(sections) && Total(sections) > maxTokens
    ensures var order := TrimOrder(sections);
            var trimmed := Trimmed(order, Total(sections), maxTokens);
            forall k :: 0 <= k < |order| ==>
              After(sections, maxTokens, order[k]) == if k < |trimmed| then trimmed[k].tokens else order[k].tokens
  {
    var order := TrimOrder(sections);
    var trimmed := Trimmed(order, Total(sections), maxTokens);
    TrimOrderFacts(sections, 0);
    forall k | 0 <= k < |order|
      ensures After(sections, maxTokens, order[k]) == if k < |trimmed| then trimmed[k].tokens else order[k].tokens
    {
      assert order[k] in order;
      var i :| 0 <= i < |sections| && sections[i] == order[k];
      AfterIs(sections, maxTokens, i);
      if k < |trimmed| {
        ReplacedAt(ByName(sections), order, trimmed, sections[i].name);
      } else {
        UntouchedIsUnchanged(sections, maxTokens, i);
      }
    }
  }

  function ShortenedCount(sections: seq<Section>, maxTokens: nat): nat {
    Shortened(TrimOrder(sections), Total(sections), maxTokens)
  }

  /** The bound that really holds on the tokens of the result. */
  lemma EnforcedBound(sections: seq<Section>, maxTokens: nat)
    requires DistinctNames(sections)
    ensures Total(Enforced(sections, maxTokens)) <=
              Max(RequiredTotal(sections), maxTokens + 9) + 8 * ShortenedCount(sections, maxTokens)
    ensures ShortenedCount(sections, maxTokens) == 0 ==>
              Total(Enforced(sections, maxTokens)) <= Max(RequiredTotal(sections), maxTokens)
  {
    hide Enforced, TrimOrder, Total, RequiredTotal, Trimmed, Tracked, Shortened, RealTotal;
    if Total(sections) <= maxTokens {
      IdentityWithinBudget(sections, maxTokens);
    } else {
      EnforcedTotal(sections, maxTokens);
      TotalSplits(sections);
      RealTotalIs(TrimOrder(sections), Total(sections), maxTokens);
      TrackingError(TrimOrder(sections), Total(sections), maxTokens);
      TrackedBound(TrimOrder(sections), Total(sections), maxTokens);
    }
  }

  lemma FilterPair(a: Section, b: Section, p: Section -> bool)
    ensures Sort.Filter([a, b], p) == (if p(a) then [a] else []) + (if p(b) then [b] else [])
  {
    Sort.FilterCons(a, [b], p);
    Sort.FilterCons(b, [], p);
    assert Sort.Filter([], p) == [];
    hide Sort.Filter;
    assert [a, b] == [a] + [b] && [b] == [b] + [];
  }

  lemma TotalOne(a: Section)
    ensures Total([a]) == a.tokens
  {
    assert [a][..0] == [];
  }

  lemma OneTrimmable(a: Section, b: Section)
    requires a.required && !b.required
    ensures TrimOrder([a, b]) == [b] && RequiredTotal([a, b]) == a.tokens && Total([a, b]) == a.tokens + b.tokens
  {
    FilterPair(a, b, IsRequired);
    FilterPair(a, b, IsTrimmable);
    assert Sort.Sorted([b], ByPriority) == [b];
    TotalOne(a);
    TotalOne(b);
    hide Sort.Filter, Sort.Sorted, Total;
    TotalCons(a, [b]);
    assert [a, b] == [a] + [b];
  }

  /** A hundred-token section of unbroken text, cut to free thirty tokens, frees only twenty-one. */
  lemma CutUnbrokenText(s: Section)
    requires s.tokens == 100 && |s.content| == 400 && !IsSpace(s.content[279])
    ensures ShrinkOrDrop(s, 30).0.tokens == 79
  {
    var cut := s.content[..280];
    assert cut[279] == s.content[279];
    assert RStrip(cut) == cut;
    assert |MARKER| == 35;
  }

  /** The plain reading, that trimming brings the prompt within budget whenever the required sections fit, is false. */
  lemma BudgetCanBeExceeded() returns (sections: seq<Section>, maxTokens: nat)
    ensures DistinctNames(sections) && RequiredTotal(sections) <= maxTokens
    ensures Total(Enforced(sections, maxTokens)) == maxTokens + 9
  {
    var system := Section(SystemName, "You write SQL.", 5, 0, true, [], []);
    var examples := Section(ExamplesName, seq(400, _ => 'E'), 100, 1, false, ["e1"], []);
    sections, maxTokens := [system, examples], 75;
    OneTrimmable(system, examples);
    CutUnbrokenText(examples);
    EnforcedTotal(sections, maxTokens);
    RealTotalIs([examples], 105, 75);
    assert Total([examples][1..]) == 0;
  }
}
