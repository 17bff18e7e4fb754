/**
  The prompt compiler and its cache (`prompt_compiler/compiler.py`, `cache.py`). Section builders are given functions;
  the content hash is modelled as what it hashes, and the measured latency of a compilation is an input.
 */
module PromptCompiler {
  import opened PromptSections
  import opened PromptValidator
  import Budget
  import BudgetFit

  type Dialect = string

  /** Retrieval statistics vary from run to run and are left out of the cache key. */
  datatype Bundle = Bundle(context: string, examples: seq<string>, statistics: int)

  type Builder = (Bundle, Dialect) -> Section

  datatype Key = Key(context: string, examples: seq<string>, version: string, dialect: Dialect)

  datatype Statistics = Statistics(
    totalTokens: nat,
    usage: seq<(SectionName, nat)>,
    exampleCount: nat,
    schemaObjectCount: nat,
    latency: int)

  datatype Prompt = Prompt(sections: seq<Section>, statistics: Statistics, version: string, dialect: Dialect)

  datatype Settings = Settings(builders: seq<Builder>, maxTokens: nat, version: string) {

    /** Each of the seven builders produces its own section type, whatever the retrieval statistics say. */
    ghost predicate Valid() {
      && |builders| == 7
      && (forall b: Bundle, d: Dialect :: DistinctNames(Built(b, d)))
      && (forall b: Bundle, b': Bundle, d: Dialect ::
            b.context == b'.context && b.examples == b'.examples ==> Built(b, d) == Built(b', d))
    }

    function Built(b: Bundle, d: Dialect): seq<Section> {
      seq(|builders|, i requires 0 <= i < |builders| => builders[i](b, d))
    }

    function KeyOf(b: Bundle, d: Dialect): Key {
      Key(b.context, b.examples, version, d)
    }

    /** What compiling from scratch gives. */
    function Fresh(b: Bundle, d: Dialect, latency: int): Prompt {
      var sections := Budget.Enforced(Built(b, d), maxTokens);
      Prompt(sections, StatisticsOf(sections, latency), version, d)
    }

    ghost predicate Cacheable(p: Prompt) {
      ValidPrompt(p.sections, maxTokens)
    }
  }

  function CountExamples(sections: seq<Section>): nat {
    if sections == [] then 0
    else if sections[0].name == ExamplesName then |sections[0].exampleIds| else CountExamples(sections[1..])
  }

  function CountSchemaObjects(sections: seq<Section>): nat {
    if sections == [] then 0
    else if sections[0].name == SchemaName then |sections[0].schemaObjects| else CountSchemaObjects(sections[1..])
  }

  function StatisticsOf(sections: seq<Section>, latency: int): Statistics {
    Statistics(
      Total(sections),
      seq(|sections|, i requires 0 <= i < |sections| => (sections[i].name, sections[i].tokens)),
      CountExamples(sections),
      CountSchemaObjects(sections),
      latency)
  }

  predicate SameExceptLatency(p: Prompt, q: Prompt) {
    p.(statistics := p.statistics.(latency := 0)) == q.(statistics := q.statistics.(latency := 0))
  }

  type Cache = map<Key, Prompt>

  // ----- what one call does

  /** A request: the inputs of one call and how long it would take to compile. */
  datatype Request = Request(bundle: Bundle, dialect: Dialect, latency: int)

  ghost function Answer(s: Settings, cache: Cache, r: Request): Prompt {
    var key := s.KeyOf(r.bundle, r.dialect);
    if key in cache then cache[key] else s.Fresh(r.bundle, r.dialect, r.latency)
  }

  ghost function CacheAfter(s: Settings, cache: Cache, r: Request): Cache {
    var key := s.KeyOf(r.bundle, r.dialect);
    var compiled := s.Fresh(r.bundle, r.dialect, r.latency);
    if key !in cache && s.Cacheable(compiled) then cache[key := compiled] else cache
  }

  class Compiler {
    const settings: Settings
    var cache: Cache

    constructor (settings: Settings)
      requires settings.Valid()
      ensures this.settings == settings && cache == map[]
    {
      this.settings := settings;
      cache := map[];
    }

    method Compile(bundle: Bundle, dialect: Dialect, latency: int) returns (prompt: Prompt)
      modifies this
      ensures prompt == Answer(settings, old(cache), Request(bundle, dialect, latency))
      ensures cache == CacheAfter(settings, old(cache), Request(bundle, dialect, latency))
    {
      var key := settings.KeyOf(bundle, dialect);
      if key in cache {
        return cache[key];
      }
      var built := settings.Built(bundle, dialect);
      var _ := Validate(built, settings.maxTokens);
      var trimmed := Budget.Enforce(built, settings.maxTokens);
      prompt := Prompt(trimmed, StatisticsOf(trimmed, latency), settings.version, dialect);
      var issues := Validate(prompt.sections, settings.maxTokens);
      if issues == [] {
        cache := cache[key := prompt];
      }
    }
  }

  // ----- what every sequence of calls keeps

  ghost function CacheAfterAll(s: Settings, requests: seq<Request>): Cache {
    if requests == [] then map[]
    else CacheAfter(s, CacheAfterAll(s, requests[..|requests| - 1]), requests[|requests| - 1])
  }

  /** Every entry is valid and is what compiling some bundle with that key gave. */
  ghost predicate Sound(s: Settings, cache: Cache) {
    forall key :: key in cache ==> s.Cacheable(cache[key]) && Explained(s, key, cache[key])
  }

  ghost predicate Explained(s: Settings, key: Key, p: Prompt) {
    exists b, d, latency :: s.KeyOf(b, d) == key && p == s.Fresh(b, d, latency)
  }

  lemma {:induction false} CacheStaysSound(s: Settings, requests: seq<Request>)
    requires s.Valid()
    ensures Sound(s, CacheAfterAll(s, requests))
    decreases |requests|
  {
    if requests != [] {
      var before, r := CacheAfterAll(s, requests[..|requests| - 1]), requests[|requests| - 1];
      CacheStaysSound(s, requests[..|requests| - 1]);
      var key := s.KeyOf(r.bundle, r.dialect);
      assert Explained(s, key, s.Fresh(r.bundle, r.dialect, r.latency));
      assert forall k :: k in CacheAfter(s, before, r) ==> k in before || k == key;
    }
  }

  lemma FreshIgnoresStatistics(s: Settings, b: Bundle, b': Bundle, d: Dialect, l: int, l': int)
    requires s.Valid() && b.context == b'.context && b.examples == b'.examples
    ensures SameExceptLatency(s.Fresh(b, d, l), s.Fresh(b', d, l'))
  {
    assert s.Built(b, d) == s.Built(b', d);
  }

  /** After any calls whatever, the next answer equals a fresh compile except for the latency it reports. */
  lemma AnswersEqualFresh(s: Settings, requests: seq<Request>, r: Request)
    requires s.Valid()
    ensures SameExceptLatency(Answer(s, CacheAfterAll(s, requests), r), s.Fresh(r.bundle, r.dialect, r.latency))
  {
    CacheStaysSound(s, requests);
    var cache, key := CacheAfterAll(s, requests), s.KeyOf(r.bundle, r.dialect);
    if key in cache {
      assert Explained(s, key, cache[key]);
      var b, d, latency :| s.KeyOf(b, d) == key && cache[key] == s.Fresh(b, d, latency);
      FreshIgnoresStatistics(s, b, r.bundle, d, latency, r.latency);
    }
  }

  /** What is stored fits the budget, has its required sections filled in and repeats no example. */
  lemma StoredPromptsAreValid(s: Settings, requests: seq<Request>, key: Key)
    requires s.Valid() && key in CacheAfterAll(s, requests)
    ensures var p := CacheAfterAll(s, requests)[key];
            && Total(p.sections) == p.statistics.totalTokens <= s.maxTokens
            && (forall i :: 0 <= i < |p.sections| && p.sections[i].required ==> !Blank(p.sections[i].content))
            && Present(p.sections, SystemName) && Present(p.sections, ConstraintName) && Present(p.sections, OutputName)
            && (forall i :: 0 <= i < |p.sections| && p.sections[i].name == ExamplesName ==>
                  Distinct(p.sections[i].exampleIds))
  {
    CacheStaysSound(s, requests);
    var p := CacheAfterAll(s, requests)[key];
    assert Explained(s, key, p);
    assert Present(p.sections, REQUIRED[0]) && Present(p.sections, REQUIRED[1]) && Present(p.sections, REQUIRED[2]);
  }

  /** A prompt is stored exactly when it is valid, and once stored its key is answered from the cache for good. */
  lemma {:induction false} StoredForGood(s: Settings, requests: seq<Request>, n: nat, key: Key)
    requires n <= |requests| && key in CacheAfterAll(s, requests[..n])
    ensures key in CacheAfterAll(s, requests)
    ensures CacheAfterAll(s, requests)[key] == CacheAfterAll(s, requests[..n])[key]
    decreases |requests|
  {
    if n == |requests| {
      assert requests[..n] == requests;
    } else {
      assert requests[..|requests| - 1][..n] == requests[..n];
      StoredForGood(s, requests[..|requests| - 1], n, key);
    }
  }

  // ----- what an answer contains, cacheable or not

  lemma {:induction false} CountsAreOfTheirSection(sections: seq<Section>, i: nat)
    requires DistinctNames(sections) && i < |sections|
    ensures sections[i].name == ExamplesName ==> CountExamples(sections) == |sections[i].exampleIds|
    ensures sections[i].name == SchemaName ==> CountSchemaObjects(sections) == |sections[i].schemaObjects|
    decreases |sections|
  {
    if i > 0 {
      CountsAreOfTheirSection(sections[1..], i - 1);
    }
  }

  lemma {:induction false} CountsNeedTheirSection(sections: seq<Section>)
    ensures !Present(sections, ExamplesName) ==> CountExamples(sections) == 0
    ensures !Present(sections, SchemaName) ==> CountSchemaObjects(sections) == 0
    decreases |sections|
  {
    if sections != [] {
      CountsNeedTheirSection(sections[1..]);
      forall name | Present(sections[1..], name)
        ensures Present(sections, name)
      {
        var i :| 0 <= i < |sections[1..]| && sections[1..][i].name == name;
        assert sections[i + 1].name == name;
      }
    }
  }

  /** The statistics count what the sections hold: all tokens, the examples shown, the schema objects described. */
  ghost predicate Reports(sections: seq<Section>, t: Statistics) {
    && t.totalTokens == Total(sections)
    && |t.usage| == |sections|
    && (forall i :: 0 <= i < |sections| ==>
          && t.usage[i] == (sections[i].name, sections[i].tokens)
          && (sections[i].name == ExamplesName ==> t.exampleCount == |sections[i].exampleIds|)
          && (sections[i].name == SchemaName ==> t.schemaObjectCount == |sections[i].schemaObjects|))
    && (!Present(sections, ExamplesName) ==> t.exampleCount == 0)
    && (!Present(sections, SchemaName) ==> t.schemaObjectCount == 0)
  }

  lemma StatisticsReport(sections: seq<Section>, latency: int)
    requires DistinctNames(sections)
    ensures Reports(sections, StatisticsOf(sections, latency))
    ensures StatisticsOf(sections, latency).latency == latency
  {
    CountsNeedTheirSection(sections);
    forall i | 0 <= i < |sections| {
      CountsAreOfTheirSection(sections, i);
    }
    hide Total, CountExamples, CountSchemaObjects;
  }

  /** The section that a builder's one has become: the same section, untouched if required or if nothing was over. */
  ghost predicate Trims(before: Section, after: Section, untouched: bool) {
    && after.name == before.name && after.priority == before.priority && after.required == before.required
    && (before.required || untouched ==> after == before)
  }

  /**
    A fresh compile, cacheable or not: what the builders gave, in order, trimmed only when over budget, of exactly the
    size that trimming leaves, with statistics that report it.
   */
  lemma FreshContents(s: Settings, b: Bundle, d: Dialect, latency: int)
    requires s.Valid()
    ensures var p, built := s.Fresh(b, d, latency), s.Built(b, d);
            && |p.sections| == |s.builders|
            && (forall i :: 0 <= i < |s.builders| ==>
                  Trims(s.builders[i](b, d), p.sections[i], Total(built) <= s.maxTokens))
            && Total(p.sections) ==
               s.maxTokens + BudgetFit.Overrun(Budget.TrimOrder(built), Total(built) - s.maxTokens)
            && Reports(p.sections, p.statistics) && p.statistics.latency == latency
            && p.version == s.version && p.dialect == d
  {
    hide *;
    var built := s.Built(b, d);
    BuiltSections(s, b, d);
    FreshIsEnforced(s, b, d, latency);
    BudgetFit.EnforcedTotalIs(built, s.maxTokens);
    EnforcedTrims(built, s.maxTokens);
    StatisticsReport(Budget.Enforced(built, s.maxTokens), latency);
  }

  lemma BuiltSections(s: Settings, b: Bundle, d: Dialect)
    requires s.Valid()
    ensures DistinctNames(s.Built(b, d)) && |s.Built(b, d)| == |s.builders|
    ensures forall i :: 0 <= i < |s.builders| ==> s.Built(b, d)[i] == s.builders[i](b, d)
  {
  }

  lemma FreshIsEnforced(s: Settings, b: Bundle, d: Dialect, latency: int)
    ensures var sections := Budget.Enforced(s.Built(b, d), s.maxTokens);
            s.Fresh(b, d, latency) == Prompt(sections, StatisticsOf(sections, latency), s.version, d)
  {
  }

  lemma EnforcedTrims(built: seq<Section>, maxTokens: nat)
    requires DistinctNames(built)
    ensures |Budget.Enforced(built, maxTokens)| == |built| && DistinctNames(Budget.Enforced(built, maxTokens))
    ensures forall i :: 0 <= i < |built| ==>
              Trims(built[i], Budget.Enforced(built, maxTokens)[i], Total(built) <= maxTokens)
  {
    hide Budget.Enforced, Budget.TrimOrder, Budget.Touched, Total;
    Budget.TouchesPrefixOfTrimOrder(built, maxTokens);
  }

  /** A call whose key is not stored is answered by a fresh compile, stored only if it is valid. */
  lemma MissIsFresh(s: Settings, requests: seq<Request>, r: Request)
    requires s.KeyOf(r.bundle, r.dialect) !in CacheAfterAll(s, requests)
    ensures var cache, key := CacheAfterAll(s, requests), s.KeyOf(r.bundle, r.dialect);
            && Answer(s, cache, r) == s.Fresh(r.bundle, r.dialect, r.latency)
            && (key in CacheAfterAll(s, requests + [r]) <==> ValidPrompt(Answer(s, cache, r).sections, s.maxTokens))
            && (key in CacheAfterAll(s, requests + [r]) ==>
                  CacheAfterAll(s, requests + [r])[key] == Answer(s, cache, r))
            && (forall other :: other in cache ==>
                  other in CacheAfterAll(s, requests + [r]) && CacheAfterAll(s, requests + [r])[other] == cache[other])
  {
    assert (requests + [r])[..|requests|] == requests;
    hide ValidPrompt;
  }
}
