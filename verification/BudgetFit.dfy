/** When trimming brings a prompt within its budget (`prompt_compiler/budget.py`), told from the sections alone. */
module BudgetFit {
  import opened PromptSections
  import opened Budget

  /** What is kept of the section's text when the excess cuts it short. */
  function Kept(s: Section, excess: nat): string
    requires excess < s.tokens
  {
    RStrip(s.content[..Min(CHARS_PER_TOKEN * (s.tokens - excess), |s.content|)])
  }

  /** How far the cut section, marker included, ends up above the tokens it was meant to keep. */
  function Overshoot(s: Section, excess: nat): int
    requires excess < s.tokens
  {
    EstimateTokens(Kept(s, excess) + MARKER) - (s.tokens - excess)
  }

  /**
    The tokens left over the budget. A dropped section takes its tokens off the excess; a cut one leaves its overshoot,
    and what exceeds its old size besides, which the manager does not notice.
   */
  function Overrun(order: seq<Section>, excess: int): int {
    if order == [] || excess <= 0 then excess
    else if excess >= order[0].tokens then Overrun(order[1..], excess - order[0].tokens)
    else
      var over := Overshoot(order[0], excess);
      if over <= excess then Overrun(order[1..], over) else over - excess + Overrun(order[1..], excess)
  }

  /** Dropping covers the excess, or the first section that has to be cut leaves room for the marker. */
  predicate FirstCutHasRoom(order: seq<Section>, excess: int) {
    if excess <= 0 then true
    else if order == [] then false
    else if excess >= order[0].tokens then FirstCutHasRoom(order[1..], excess - order[0].tokens)
    else |Kept(order[0], excess)| + |MARKER| <= CHARS_PER_TOKEN * (order[0].tokens - excess)
  }

  /** Dropping whole sections covers the excess, or reaches the last section of the trim order. */
  predicate OnlyLastIsCut(order: seq<Section>, excess: int) {
    || excess <= 0 || order == []
    || if excess >= order[0].tokens then OnlyLastIsCut(order[1..], excess - order[0].tokens) else |order| == 1
  }

  lemma ShrinkIs(s: Section, excess: nat)
    ensures excess >= s.tokens ==> ShrinkOrDrop(s, excess).0.tokens == 0 && ShrinkOrDrop(s, excess).1 == s.tokens
    ensures excess < s.tokens ==>
              && ShrinkOrDrop(s, excess).0.tokens == s.tokens - excess + Overshoot(s, excess)
              && ShrinkOrDrop(s, excess).1 ==
                 if Overshoot(s, excess) <= excess then excess - Overshoot(s, excess) else 0
  {
    hide RStrip, EstimateTokens;
  }

  lemma {:induction false} RealTotalIsOverrun(order: seq<Section>, total: int, maxTokens: nat)
    ensures RealTotal(order, total, maxTokens) == Total(order) - (total - maxTokens) + Overrun(order, total - maxTokens)
    decreases |order|
  {
    hide ShrinkOrDrop, Overshoot, Total;
    if order != [] && total > maxTokens {
      var s, rest := order[0], order[1..];
      assert order == [s] + rest;
      TotalCons(s, rest);
      ShrinkIs(s, total - maxTokens);
      RealTotalIsOverrun(rest, total - ShrinkOrDrop(s, total - maxTokens).1, maxTokens);
    }
  }

  lemma RoomIsNoOvershoot(s: Section, excess: nat)
    requires excess < s.tokens
    ensures Overshoot(s, excess) <= 0 <==> |Kept(s, excess)| + |MARKER| <= CHARS_PER_TOKEN * (s.tokens - excess)
  {
    EstimateIsCeiling(Kept(s, excess) + MARKER, s.tokens - excess);
  }

  lemma {:induction false} RoomIsEnough(order: seq<Section>, excess: int)
    ensures FirstCutHasRoom(order, excess) ==> Overrun(order, excess) <= 0
    ensures OnlyLastIsCut(order, excess) && Overrun(order, excess) <= 0 ==> FirstCutHasRoom(order, excess)
    decreases |order|
  {
    hide Overshoot, Kept;
    if order != [] && excess > 0 {
      if excess >= order[0].tokens {
        RoomIsEnough(order[1..], excess - order[0].tokens);
      } else {
        RoomIsNoOvershoot(order[0], excess);
      }
    }
  }

  lemma NothingToTrim(order: seq<Section>, excess: int)
    requires excess <= 0
    ensures Overrun(order, excess) == excess
  {
  }

  lemma EnforcedTotalIs(sections: seq<Section>, maxTokens: nat)
    requires DistinctNames(sections)
    ensures Total(Enforced(sections, maxTokens)) ==
            maxTokens + Overrun(TrimOrder(sections), Total(sections) - maxTokens)
  {
    hide *;
    var order, total := TrimOrder(sections), Total(sections);
    if total <= maxTokens {
      IdentityWithinBudget(sections, maxTokens);
      NothingToTrim(order, total - maxTokens);
    } else {
      EnforcedTotal(sections, maxTokens);
      TotalSplits(sections);
      RealTotalIs(order, total, maxTokens);
      RealTotalIsOverrun(order, total, maxTokens);
    }
  }

  /**
    The size of the trimmed prompt, exactly, and when it fits: always when the first cut has room, and when only the
    last section of the trim order is cut, if any, not otherwise.
   */
  lemma EnforcedFitsIff(sections: seq<Section>, maxTokens: nat)
    requires DistinctNames(sections)
    ensures Total(Enforced(sections, maxTokens)) ==
            maxTokens + Overrun(TrimOrder(sections), Total(sections) - maxTokens)
    ensures FirstCutHasRoom(TrimOrder(sections), Total(sections) - maxTokens) ==>
              Total(Enforced(sections, maxTokens)) <= maxTokens
    ensures OnlyLastIsCut(TrimOrder(sections), Total(sections) - maxTokens) ==>
              (Total(Enforced(sections, maxTokens)) <= maxTokens <==>
               FirstCutHasRoom(TrimOrder(sections), Total(sections) - maxTokens))
  {
    hide *;
    RoomIsEnough(TrimOrder(sections), Total(sections) - maxTokens);
    EnforcedTotalIs(sections, maxTokens);
  }
}
