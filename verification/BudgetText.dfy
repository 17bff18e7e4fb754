/** What trimming does to the text of the prompt, not only to its token counts (`prompt_compiler/budget.py`). */
module BudgetText {
  import opened PromptSections
  import opened Budget
  import Sort = StableSort

  /** Everything the section carries is gone but its identity. */
  predicate Emptied(before: Section, after: Section) {
    && after.content == "" && after.tokens == 0 && after.exampleIds == [] && after.schemaObjects == []
    && after.name == before.name && after.priority == before.priority && after.required == before.required
  }

  /** What is kept of a text cut at `limit`: all of it up to there but trailing whitespace. */
  predicate KeptOf(text: string, kept: string, limit: nat) {
    && kept <= text && |kept| <= limit
    && (kept != "" ==> !IsSpace(kept[|kept| - 1]))
    && forall i :: |kept| <= i < |text| && i < limit ==> IsSpace(text[i])
  }

  lemma StrippedIsKept(text: string, limit: nat)
    ensures KeptOf(text, RStrip(text[..Min(limit, |text|)]), limit)
  {
    var cut := text[..Min(limit, |text|)];
    var kept := RStrip(cut);
    hide RStrip, IsSpace;
    assert kept <= text;
    forall i | |kept| <= i < |text| && i < limit
      ensures IsSpace(text[i])
    {
      assert cut[i] == text[i];
    }
  }

  /**
    The text is cut at four characters for each token to keep, its trailing whitespace goes, and the marker follows;
    what the section lists beside its text stays.
   */
  ghost predicate CutTo(before: Section, after: Section, keep: nat) {
    && (exists kept ::
          KeptOf(before.content, kept, 4 * keep) && after.content == kept + "\n...[truncated to fit token budget]")
    && after.tokens == EstimateTokens(after.content)
    && after.exampleIds == before.exampleIds && after.schemaObjects == before.schemaObjects
    && after.name == before.name && after.priority == before.priority && after.required == before.required
  }

  lemma ShrunkText(s: Section, excess: nat)
    ensures excess >= s.tokens ==> Emptied(s, ShrinkOrDrop(s, excess).0)
    ensures excess < s.tokens ==> CutTo(s, ShrinkOrDrop(s, excess).0, s.tokens - excess)
  {
    hide EstimateTokens, RStrip, CutTo;
    if excess < s.tokens {
      CutText(s, excess);
    }
  }

  lemma CutText(s: Section, excess: nat)
    requires excess < s.tokens
    ensures CutTo(s, ShrinkOrDrop(s, excess).0, s.tokens - excess)
  {
    var limit := CHARS_PER_TOKEN * (s.tokens - excess);
    var kept := RStrip(s.content[..Min(limit, |s.content|)]);
    assert ShrinkOrDrop(s, excess).0 == s.(content := kept + MARKER, tokens := EstimateTokens(kept + MARKER));
    hide RStrip, KeptOf, EstimateTokens, ShrinkOrDrop;
    StrippedIsKept(s.content, limit);
  }

  /** Each touched section is emptied or cut, for the excess that was tracked when its turn came. */
  lemma TouchedText(sections: seq<Section>, maxTokens: nat, k: nat, i: nat)
    requires DistinctNames(sections) && k < Touched(sections, maxTokens)
    requires i < |sections| && sections[i] == TrimOrder(sections)[k]
    ensures |Enforced(sections, maxTokens)| == |sections|
    ensures var excess := Tracked(TrimOrder(sections)[..k], Total(sections), maxTokens) - maxTokens;
            var after := Enforced(sections, maxTokens)[i];
            && excess > 0
            && if excess >= sections[i].tokens then Emptied(sections[i], after)
               else CutTo(sections[i], after, sections[i].tokens - excess)
  {
    hide *;
    TouchedIsShrunk(sections, maxTokens, k, i);
    ShrunkText(sections[i], Tracked(TrimOrder(sections)[..k], Total(sections), maxTokens) - maxTokens);
  }

  /** What is counted as shortened are exactly the touched sections that are cut. */
  lemma {:induction false} ShortenedCountsCuts(order: seq<Section>, total: int, maxTokens: nat, k: nat)
    requires k <= |Trimmed(order, total, maxTokens)|
    ensures k < |Trimmed(order, total, maxTokens)| ==>
              Shortened(order[..k + 1], total, maxTokens) ==
              Shortened(order[..k], total, maxTokens) +
              if Tracked(order[..k], total, maxTokens) - maxTokens < order[k].tokens then 1 else 0
    ensures k == |Trimmed(order, total, maxTokens)| ==>
              Shortened(order, total, maxTokens) == Shortened(order[..k], total, maxTokens)
    decreases k
  {
    hide ShrinkOrDrop;
    if order != [] && total > maxTokens {
      var rest, freed := order[1..], ShrinkOrDrop(order[0], total - maxTokens).1;
      if k == 0 {
        assert order[..1] == [order[0]] && order[..1][1..] == [] && order[..0] == [];
      } else {
        ShortenedCountsCuts(rest, total - freed, maxTokens, k - 1);
        assert order[..k][1..] == rest[..k - 1] && order[..k][0] == order[0];
        if k < |Trimmed(order, total, maxTokens)| {
          assert order[..k + 1][1..] == rest[..k] && order[..k + 1][0] == order[0];
        }
      }
    }
  }

  // ----- the tokens counted are those of the text

  /** The section's count is the estimate of its text. */
  predicate Honest(s: Section) {
    s.tokens == EstimateTokens(s.content)
  }

  lemma ShrinkIsHonest(s: Section, excess: nat)
    ensures Honest(ShrinkOrDrop(s, excess).0)
  {
  }

  /** Sections counted honestly before trimming are so after it, so the bounds on tokens are bounds on text. */
  lemma EnforcedIsHonest(sections: seq<Section>, maxTokens: nat, i: nat)
    requires DistinctNames(sections) && i < |sections| && Honest(sections[i])
    ensures |Enforced(sections, maxTokens)| == |sections| && Honest(Enforced(sections, maxTokens)[i])
  {
    hide *;
    PositionKept(sections, maxTokens, i);
    var order, n := TrimOrder(sections), Touched(sections, maxTokens);
    if Enforced(sections, maxTokens)[i] != sections[i] {
      var k :| 0 <= k < n && order[..n][k] == sections[i];
      TouchedIsShrunk(sections, maxTokens, k, i);
      ShrinkIsHonest(sections[i], Tracked(order[..k], Total(sections), maxTokens) - maxTokens);
    }
  }

  /** The characters of the whole prompt. */
  function Characters(sections: seq<Section>): nat {
    if sections == [] then 0 else Characters(sections[..|sections| - 1]) + |sections[|sections| - 1].content|
  }

  lemma {:induction false} CharactersAreCovered(sections: seq<Section>)
    requires forall s :: s in sections ==> Honest(s)
    ensures Characters(sections) <= 4 * Total(sections)
    decreases |sections|
  {
    if sections != [] {
      var last := sections[|sections| - 1];
      var front := sections[..|sections| - 1];
      assert forall s :: s in front ==> s in sections;
      CharactersAreCovered(front);
      EstimateIsCeiling(last.content, last.tokens);
      assert Honest(last);
      assert |last.content| <= 4 * last.tokens;
    }
  }

  /** The text itself is bounded: at most four characters for each token of the proved bound. */
  lemma EnforcedTextBound(sections: seq<Section>, maxTokens: nat)
    requires DistinctNames(sections) && forall s :: s in sections ==> Honest(s)
    ensures Characters(Enforced(sections, maxTokens)) <=
              4 * (Max(RequiredTotal(sections), maxTokens + 9) + 8 * ShortenedCount(sections, maxTokens))
  {
    hide *;
    var after := Enforced(sections, maxTokens);
    EnforcedBound(sections, maxTokens);
    TouchesPrefixOfTrimOrder(sections, maxTokens);
    forall s | s in after
      ensures Honest(s)
    {
      var i :| 0 <= i < |after| && after[i] == s;
      EnforcedIsHonest(sections, maxTokens, i);
    }
    CharactersAreCovered(after);
  }
}
