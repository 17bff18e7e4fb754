/** The five content checks of `prompt_compiler/validator.py`, against the one property they decide together. */
module PromptValidator {
  import opened PromptSections

  datatype Issue =
    | NotEmpty
    | MissingRequired(section: SectionName)
    | DuplicateExample(id: string)
    | TokenBudget(total: nat)
    | EmptyRequired(section: SectionName)

  const REQUIRED: seq<SectionName> := [SystemName, ConstraintName, OutputName]

  ghost predicate Present(sections: seq<Section>, name: SectionName) {
    exists i :: 0 <= i < |sections| && sections[i].name == name
  }

  predicate Distinct(ids: seq<string>) {
    forall i, j :: 0 <= i < j < |ids| ==> ids[i] != ids[j]
  }

  /** What a prompt has to satisfy to be cached. */
  ghost predicate ValidPrompt(sections: seq<Section>, maxTokens: nat) {
    && (exists i :: 0 <= i < |sections| && !Blank(sections[i].content))
    && (forall i :: 0 <= i < |REQUIRED| ==> Present(sections, REQUIRED[i]))
    && (forall i :: 0 <= i < |sections| && sections[i].name == ExamplesName ==> Distinct(sections[i].exampleIds))
    && Total(sections) <= maxTokens
    && (forall i :: 0 <= i < |sections| && sections[i].required ==> !Blank(sections[i].content))
  }

  function Joined(sections: seq<Section>): string {
    if sections == [] then "" else Joined(sections[..|sections| - 1]) + sections[|sections| - 1].content
  }

  lemma {:induction false} JoinedBlank(sections: seq<Section>)
    ensures Blank(Joined(sections)) <==> forall i :: 0 <= i < |sections| ==> Blank(sections[i].content)
    decreases |sections|
  {
    if sections != [] {
      var front, last := sections[..|sections| - 1], sections[|sections| - 1].content;
      JoinedBlank(front);
      var s := Joined(front) + last;
      if Blank(s) {
        forall i | 0 <= i < |last|
          ensures IsSpace(last[i])
        {
          assert s[|Joined(front)| + i] == last[i];
        }
        forall i | 0 <= i < |Joined(front)|
          ensures IsSpace(Joined(front)[i])
        {
          assert s[i] == Joined(front)[i];
        }
      }
    }
  }

  method CheckNotEmpty(sections: seq<Section>) returns (issues: seq<Issue>)
    ensures issues == if exists i :: 0 <= i < |sections| && !Blank(sections[i].content) then [] else [NotEmpty]
  {
    JoinedBlank(sections);
    issues := if Blank(Joined(sections)) then [NotEmpty] else [];
  }

  method CheckRequiredSectionsExist(sections: seq<Section>) returns (issues: seq<Issue>)
    ensures forall issue :: issue in issues <==>
              issue.MissingRequired? && issue.section in REQUIRED && !Present(sections, issue.section)
  {
    var present := set i | 0 <= i < |sections| :: sections[i].name;
    issues := [];
    for k := 0 to |REQUIRED|
      invariant forall issue :: issue in issues <==>
                  issue.MissingRequired? && issue.section in REQUIRED[..k] && !Present(sections, issue.section)
    {
      assert REQUIRED[..k + 1] == REQUIRED[..k] + [REQUIRED[k]];
      if REQUIRED[k] !in present {
        issues := issues + [MissingRequired(REQUIRED[k])];
      }
    }
  }

  /** The identifier occurs again after some earlier place. */
  ghost predicate Repeats(ids: seq<string>, id: string) {
    exists i, j :: 0 <= i < j < |ids| && ids[i] == id && ids[j] == id
  }

  ghost predicate RepeatsInSome(sections: seq<Section>, id: string) {
    exists i :: 0 <= i < |sections| && sections[i].name == ExamplesName && Repeats(sections[i].exampleIds, id)
  }

  lemma RepeatsSnoc(ids: seq<string>, id: string, last: string)
    ensures Repeats(ids + [last], id) <==> Repeats(ids, id) || (id == last && last in ids)
  {
    var longer := ids + [last];
    if Repeats(ids, id) {
      var i, j :| 0 <= i < j < |ids| && ids[i] == id && ids[j] == id;
      assert longer[i] == id && longer[j] == id;
    } else if id == last && last in ids {
      var i :| 0 <= i < |ids| && ids[i] == last;
      assert longer[i] == id && longer[|ids|] == id;
    }
  }

  lemma RepeatsInSomeSnoc(sections: seq<Section>, id: string, last: Section)
    ensures RepeatsInSome(sections + [last], id) <==>
              RepeatsInSome(sections, id) || (last.name == ExamplesName && Repeats(last.exampleIds, id))
  {
    hide Repeats;
    var longer := sections + [last];
    if RepeatsInSome(sections, id) {
      var i :| 0 <= i < |sections| && sections[i].name == ExamplesName && Repeats(sections[i].exampleIds, id);
      assert longer[i] == sections[i];
    } else if last.name == ExamplesName && Repeats(last.exampleIds, id) {
      assert longer[|sections|] == last;
    }
  }

  /** One pass over a section's identifiers, remembering those seen. */
  method RepeatedIds(ids: seq<string>) returns (issues: seq<Issue>)
    ensures forall issue :: issue in issues <==> issue.DuplicateExample? && Repeats(ids, issue.id)
  {
    var seen: set<string> := {};
    issues := [];
    for j := 0 to |ids|
      invariant forall id :: id in seen <==> id in ids[..j]
      invariant forall issue :: issue in issues <==> issue.DuplicateExample? && Repeats(ids[..j], issue.id)
    {
      assert ids[..j + 1] == ids[..j] + [ids[j]];
      forall id: string {
        RepeatsSnoc(ids[..j], id, ids[j]);
      }
      if ids[j] in seen {
        issues := issues + [DuplicateExample(ids[j])];
      }
      seen := seen + {ids[j]};
    }
    assert ids[..|ids|] == ids;
  }

  method CheckNoDuplicateExamples(sections: seq<Section>) returns (issues: seq<Issue>)
    ensures forall issue :: issue in issues <==> issue.DuplicateExample? && RepeatsInSome(sections, issue.id)
  {
    issues := [];
    for k := 0 to |sections|
      invariant forall issue :: issue in issues <==> issue.DuplicateExample? && RepeatsInSome(sections[..k], issue.id)
    {
      assert sections[..k + 1] == sections[..k] + [sections[k]];
      forall id: string {
        RepeatsInSomeSnoc(sections[..k], id, sections[k]);
      }
      if sections[k].name == ExamplesName {
        var repeated := RepeatedIds(sections[k].exampleIds);
        issues := issues + repeated;
      }
    }
    assert sections[..|sections|] == sections;
  }

  method CheckTokenBudget(sections: seq<Section>, maxTokens: nat) returns (issues: seq<Issue>)
    ensures issues == if Total(sections) <= maxTokens then [] else [TokenBudget(Total(sections))]
  {
    issues := if Total(sections) <= maxTokens then [] else [TokenBudget(Total(sections))];
  }

  ghost predicate EmptyRequiredAmong(sections: seq<Section>, name: SectionName) {
    exists i :: 0 <= i < |sections| && sections[i].required && Blank(sections[i].content) && sections[i].name == name
  }

  method CheckNoEmptyRequiredSection(sections: seq<Section>) returns (issues: seq<Issue>)
    ensures forall issue :: issue in issues <==> issue.EmptyRequired? && EmptyRequiredAmong(sections, issue.section)
  {
    issues := [];
    for k := 0 to |sections|
      invariant forall issue :: issue in issues <==>
                  && issue.EmptyRequired?
                  && exists i :: 0 <= i < k && sections[i].required && Blank(sections[i].content) &&
                                 sections[i].name == issue.section
    {
      if sections[k].required && Blank(sections[k].content) {
        issues := issues + [EmptyRequired(sections[k].name)];
      }
    }
  }

  /** Exactly the issues a prompt has. */
  ghost predicate IsIssue(sections: seq<Section>, maxTokens: nat, issue: Issue) {
    match issue
    case NotEmpty => forall i :: 0 <= i < |sections| ==> Blank(sections[i].content)
    case MissingRequired(name) => name in {SystemName, ConstraintName, OutputName} && !Present(sections, name)
    case DuplicateExample(id) => RepeatsInSome(sections, id)
    case TokenBudget(total) => total == Total(sections) > maxTokens
    case EmptyRequired(name) => EmptyRequiredAmong(sections, name)
  }

  /** Every issue is an error, so a prompt is valid exactly when no check reports any. */
  method Validate(sections: seq<Section>, maxTokens: nat) returns (issues: seq<Issue>)
    ensures forall issue :: issue in issues <==> IsIssue(sections, maxTokens, issue)
    ensures issues == [] <==> ValidPrompt(sections, maxTokens)
  {
    hide Blank, Total, RepeatsInSome, EmptyRequiredAmong, Present;
    issues := CheckNotEmpty(sections);
    var missing := CheckRequiredSectionsExist(sections);
    var duplicates := CheckNoDuplicateExamples(sections);
    var budget := CheckTokenBudget(sections, maxTokens);
    var empty := CheckNoEmptyRequiredSection(sections);
    issues := issues + missing + duplicates + budget + empty;
    ValidMeansNoIssue(sections, maxTokens);
    assert issues == [] <==> forall issue :: issue !in issues by {
      if issues != [] {
        assert issues[0] in issues;
      }
    }
  }

  lemma ValidMeansNoIssue(sections: seq<Section>, maxTokens: nat)
    ensures ValidPrompt(sections, maxTokens) <==> forall issue :: !IsIssue(sections, maxTokens, issue)
  {
    hide Blank, Total;
    if forall issue :: !IsIssue(sections, maxTokens, issue) {
      assert !IsIssue(sections, maxTokens, NotEmpty) && !IsIssue(sections, maxTokens, TokenBudget(Total(sections)));
      forall k | 0 <= k < |REQUIRED|
        ensures Present(sections, REQUIRED[k])
      {
        assert !IsIssue(sections, maxTokens, MissingRequired(REQUIRED[k]));
      }
      forall i | 0 <= i < |sections| && sections[i].required
        ensures !Blank(sections[i].content)
      {
        assert !IsIssue(sections, maxTokens, EmptyRequired(sections[i].name));
      }
      forall i | 0 <= i < |sections| && sections[i].name == ExamplesName
        ensures Distinct(sections[i].exampleIds)
      {
        var ids := sections[i].exampleIds;
        forall a, b | 0 <= a < b < |ids|
          ensures ids[a] != ids[b]
        {
          assert !IsIssue(sections, maxTokens, DuplicateExample(ids[b]));
          assert ids[a] == ids[b] ==> Repeats(ids, ids[b]);
        }
      }
    }
    if ValidPrompt(sections, maxTokens) {
      assert Present(sections, REQUIRED[0]) && Present(sections, REQUIRED[1]) && Present(sections, REQUIRED[2]);
    }
  }
}
