/** The stage-by-stage execution of a run, with its events published as it goes. */
module PipelineRun {
  import opened Wrappers
  import opened Pipeline

  method PrepareStages(s: Stages, question: string, p: Publisher?)
    returns (r: Result<(string, string, seq<Timing>), PipelineError>)
    modifies p
    ensures r == Prepare(s, question)
    ensures r.Ok? ==> Published(p, if p != null then old(p.events) else [], r.value.2)
    ensures r.Err? && p != null ==> p.events == old(p.events) + Rest(Err(r.error))
  {
    ghost var before := if p != null then p.events else [];
    var timings: seq<Timing> := [];
    assert Published(p, before, timings);

    NotifyStarted(p, before, timings, Nlu);
    var parsed := s.parse(question);
    if parsed.Raises? {
      r := Err(Early(Nlu, parsed.error, parsed.ms, timings));
      NotifyFailed(p, before, r.error);
      return;
    }
    timings := NotifyCompleted(p, before, timings, Nlu, parsed.ms);
    assert timings == [Timing(Nlu, parsed.ms)];

    NotifyStarted(p, before, timings, SchemaLinking);
    var linked := s.link(parsed.value);
    if linked.Raises? {
      r := Err(Early(SchemaLinking, linked.error, linked.ms, timings));
      NotifyFailed(p, before, r.error);
      return;
    }
    timings := NotifyCompleted(p, before, timings, SchemaLinking, linked.ms);

    NotifyStarted(p, before, timings, BusinessKnowledge);
    var loaded := s.loadKnowledge();
    if loaded.Raises? {
      r := Err(Early(BusinessKnowledge, loaded.error, loaded.ms, timings));
      NotifyFailed(p, before, r.error);
      return;
    }
    timings := NotifyCompleted(p, before, timings, BusinessKnowledge, loaded.ms);

    NotifyStarted(p, before, timings, Retrieval);
    var bundle := s.retrieve(linked.value);
    if bundle.Raises? {
      r := Err(Early(Retrieval, bundle.error, bundle.ms, timings));
      NotifyFailed(p, before, r.error);
      return;
    }
    timings := NotifyCompleted(p, before, timings, Retrieval, bundle.ms);

    NotifyStarted(p, before, timings, PromptCompilation);
    var prompt := s.compile(bundle.value);
    if prompt.Raises? {
      r := Err(Early(PromptCompilation, prompt.error, prompt.ms, timings));
      NotifyFailed(p, before, r.error);
      return;
    }
    timings := NotifyCompleted(p, before, timings, PromptCompilation, prompt.ms);
    r := Ok((bundle.value, prompt.value, timings));
  }

  method GenerateAndValidate(s: Stages, question: string, p: Publisher?) returns (r: Result<Generated, PipelineError>)
    modifies p
    ensures r == GenerateOutcome(s, question)
    ensures r.Ok? ==> Published(p, if p != null then old(p.events) else [], r.value.timings)
    ensures r.Err? && p != null ==> p.events == old(p.events) + Rest(Err(r.error))
  {
    ghost var before := if p != null then p.events else [];
    var prepared := PrepareStages(s, question, p);
    if prepared.Err? {
      return Err(prepared.error);
    }
    var (bundle, prompt, timings) := prepared.value;

    NotifyStarted(p, before, timings, SqlGeneration);
    var generated := s.generate(prompt);
    if generated.Raises? {
      r := Err(Early(SqlGeneration, generated.error, generated.ms, timings));
      NotifyFailed(p, before, r.error);
      return;
    }
    timings := NotifyCompleted(p, before, timings, SqlGeneration, generated.ms);
    NotifyStarted(p, before, timings, Llm);
    timings := NotifyCompleted(p, before, timings, Llm, generated.value.llmMs);

    NotifyStarted(p, before, timings, SqlValidation);
    var validated := s.validate(generated.value);
    if validated.Raises? {
      r := Err(Early(SqlValidation, validated.error, validated.ms, timings).(sql := Some(generated.value)));
      NotifyFailed(p, before, r.error);
      return;
    }
    timings := NotifyCompleted(p, before, timings, SqlValidation, validated.ms);

    if validated.value.isValid {
      return Ok(Generated(generated.value, validated.value, None, false, false, timings));
    }
    NotifyStarted(p, before, timings, SqlRepair);
    var repaired := s.repair(generated.value, validated.value, bundle);
    if repaired.Raises? {
      r := Err(PipelineError(SqlRepair, repaired.error, repaired.ms, timings, true, false,
                             Some(generated.value), Some(validated.value), None));
      NotifyFailed(p, before, r.error);
      return;
    }
    timings := NotifyCompleted(p, before, timings, SqlRepair, repaired.ms);
    var repair := repaired.value;
    r := Ok(Generated(repair.finalSql, repair.finalValidation, Some(repair), true, repair.repaired, timings));
  }

  method ExecuteAndFormat(s: Stages, question: string, g: Generated, p: Publisher?, ghost before: seq<Event>)
    returns (r: Result<Response, PipelineError>)
    requires Published(p, before, g.timings)
    modifies p
    ensures r == ExecuteOutcome(s, question, g)
    ensures p != null ==> p.events == before + Rest(r)
  {
    var timings := g.timings;
    NotifyStarted(p, before, timings, SqlExecution);
    var executed := s.execute(g.sql, g.validation);
    if executed.Raises? {
      r := Err(RunFailure(g, SqlExecution, executed.error, executed.ms, timings));
      NotifyFailed(p, before, r.error);
      return;
    }
    timings := NotifyCompleted(p, before, timings, SqlExecution, executed.ms);
    var execution := executed.value;
    if !execution.success {
      var response := Response(question, None, g.sql, g.validation, g.repair, execution, timings,
                               g.repairAttempted, g.repairPerformed, Failed, Some(execution.message));
      NotifyPipelineCompleted(p, before, response);
      return Ok(response);
    }

    NotifyStarted(p, before, timings, ResultFormatting);
    var formatted := s.format(execution);
    if formatted.Raises? {
      r := Err(RunFailure(g, ResultFormatting, formatted.error, formatted.ms, timings));
      NotifyFailed(p, before, r.error);
      return;
    }
    timings := NotifyCompleted(p, before, timings, ResultFormatting, formatted.ms);
    var response := Response(question, Some(formatted.value), g.sql, g.validation, g.repair, execution, timings,
                             g.repairAttempted, g.repairPerformed, Success, None);
    NotifyPipelineCompleted(p, before, response);
    r := Ok(response);
  }

  /** The result does not depend on whether anyone listens; what a listener hears is the trace of that result. */
  method Run(s: Stages, question: string, p: Publisher?) returns (r: Result<Response, PipelineError>)
    modifies p
    ensures r == RunOutcome(s, question)
    ensures p != null ==> p.events == old(p.events) + Trace(question, r)
  {
    hide GenerateOutcome, ExecuteOutcome, Rest, Pairs;
    ghost var start := if p != null then p.events else [];
    if p != null {
      p.Publish(PipelineStarted(question));
    }
    ghost var before := start + [PipelineStarted(question)];
    var outcome := GenerateAndValidate(s, question, p);
    if outcome.Err? {
      r := Err(outcome.error);
    } else {
      r := ExecuteAndFormat(s, question, outcome.value, p, before);
    }
    assert start + Trace(question, r) == before + Rest(r);
  }

  // ----- the trace language

  /** The fixed order of the stages, with repair exactly when validation found the SQL invalid. */
  function StageOrder(repair: bool): seq<Stage> {
    [Nlu, SchemaLinking, BusinessKnowledge, Retrieval, PromptCompilation, SqlGeneration, Llm, SqlValidation] +
    (if repair then [SqlRepair] else []) +
    [SqlExecution, ResultFormatting]
  }

  function StagesOf(timings: seq<Timing>): seq<Stage> {
    seq(|timings|, i requires 0 <= i < |timings| => timings[i].stage)
  }

  /** The stages that completed, and the one that failed if the run raised. */
  function Attempted(outcome: Result<Response, PipelineError>): seq<Stage> {
    match outcome
    case Ok(r) => StagesOf(r.timings)
    case Err(e) => StagesOf(e.timings) + [e.stage]
  }

  predicate RepairAttempted(outcome: Result<Response, PipelineError>) {
    match outcome
    case Ok(r) => r.repairAttempted
    case Err(e) => e.repairAttempted
  }

  lemma PrepareOrder(s: Stages, question: string)
    ensures var first := [Nlu, SchemaLinking, BusinessKnowledge, Retrieval, PromptCompilation];
            match Prepare(s, question)
            case Ok((_, _, timings)) => StagesOf(timings) == first
            case Err(e) => StagesOf(e.timings) + [e.stage] <= first && !e.repairAttempted
  {
  }

  lemma GenerateOrder(s: Stages, question: string)
    ensures match GenerateOutcome(s, question)
            case Ok(g) => StagesOf(g.timings) + [SqlExecution, ResultFormatting] == StageOrder(g.repairAttempted)
            case Err(e) => StagesOf(e.timings) + [e.stage] <= StageOrder(e.repairAttempted)
  {
    PrepareOrder(s, question);
  }

  /** Stages run in the fixed order, repair among them exactly when validation found the SQL invalid. */
  lemma StagesRunInOrder(s: Stages, question: string)
    ensures var outcome := RunOutcome(s, question);
            && Attempted(outcome) <= StageOrder(RepairAttempted(outcome))
            && (outcome.Ok? && outcome.value.status == Success ==>
                  Attempted(outcome) == StageOrder(RepairAttempted(outcome)))
            && (outcome.Ok? && outcome.value.status == Failed ==>
                  Attempted(outcome) + [ResultFormatting] == StageOrder(RepairAttempted(outcome)))
  {
    GenerateOrder(s, question);
    hide GenerateOutcome;
  }

  /** A repair that is attempted is the ninth stage. */
  lemma RepairComesNinth(s: Stages, question: string)
    ensures RepairAttempted(RunOutcome(s, question)) ==> |Attempted(RunOutcome(s, question))| >= 9
  {
    GenerateOrder(s, question);
    EarlyTimings(s, question);
    hide Prepare;
    match GenerateOutcome(s, question)
    case Ok(g) => assert |StagesOf(g.timings) + [SqlExecution, ResultFormatting]| >= 10;
    case Err(_) =>
  }

  lemma EarlyTimings(s: Stages, question: string)
    ensures Prepare(s, question).Ok? ==> |Prepare(s, question).value.2| == 5
    ensures Prepare(s, question).Err? ==> !Prepare(s, question).error.repairAttempted
  {
  }

  /** Once validation has answered, repair is attempted if and only if it found the SQL invalid. */
  lemma RepairIffInvalid(s: Stages, question: string)
    requires Prepare(s, question).Ok?
    requires s.generate(Prepare(s, question).value.1).Returns?
    requires s.validate(s.generate(Prepare(s, question).value.1).value).Returns?
    ensures var invalid := !s.validate(s.generate(Prepare(s, question).value.1).value).value.isValid;
            && (RepairAttempted(RunOutcome(s, question)) <==> invalid)
            && (SqlRepair in Attempted(RunOutcome(s, question)) <==> invalid)
  {
    StagesRunInOrder(s, question);
    var outcome := RunOutcome(s, question);
    var order := StageOrder(RepairAttempted(outcome));
    assert forall i :: 0 <= i < |Attempted(outcome)| ==> Attempted(outcome)[i] == order[i];
    PrepareOrder(s, question);
    assert |StagesOf(Prepare(s, question).value.2)| == 5;
    if RepairAttempted(outcome) {
      assert Attempted(outcome)[8] == SqlRepair;
    } else {
      assert SqlRepair !in order;
    }
  }

  predicate Terminal(e: Event) {
    e.PipelineCompleted? || e.PipelineFailed?
  }

  lemma {:induction false} PairsAreStageEvents(timings: seq<Timing>)
    ensures |Pairs(timings)| == 2 * |timings|
    ensures forall i :: 0 <= i < |timings| ==>
              && Pairs(timings)[2 * i] == StageStarted(timings[i].stage)
              && Pairs(timings)[2 * i + 1] == StageCompleted(timings[i].stage, timings[i].ms)
    ensures forall e :: e in Pairs(timings) ==> !Terminal(e) && !e.StageFailed? && !e.PipelineStarted?
    decreases |timings|
  {
    if timings != [] {
      PairsAreStageEvents(timings[..|timings| - 1]);
    }
  }

  /** Every run's trace opens with the start event and has exactly one terminal event, its last. */
  lemma TraceHasOneTerminalEvent(question: string, outcome: Result<Response, PipelineError>)
    ensures var trace := Trace(question, outcome);
            && |trace| >= 2 && trace[0] == PipelineStarted(question)
            && (forall i :: 0 <= i < |trace| ==> (Terminal(trace[i]) <==> i == |trace| - 1))
            && (trace[|trace| - 1].PipelineCompleted? <==> outcome.Ok?)
            && ((exists e :: e in trace && e.StageFailed?) <==> outcome.Err?)
  {
    hide Pairs;
    var trace := Trace(question, outcome);
    match outcome
    case Ok(r) =>
      PairsAreStageEvents(r.timings);
      forall e | e in trace
        ensures !e.StageFailed?
      {
        assert e in Pairs(r.timings) || e == trace[0] || e == trace[|trace| - 1];
      }
    case Err(e) =>
      PairsAreStageEvents(e.timings);
      assert trace[|trace| - 2] == StageFailed(e.stage, e.ms, e.error);
  }

  /** The SQL that was executed and answered for is the SQL last validated: the repaired one when repair ran. */
  lemma ExecutedSqlIsTheFinalSql(s: Stages, question: string)
    requires RunOutcome(s, question).Ok?
    ensures var r := RunOutcome(s, question).value;
            && s.execute(r.sql, r.validation).Returns? && s.execute(r.sql, r.validation).value == r.execution
            && (r.repairAttempted <==> r.repair.Some?)
            && (r.repair.Some? ==> r.sql == r.repair.value.finalSql && r.validation == r.repair.value.finalValidation)
            && (r.repair.None? ==>
                  r.validation.isValid && s.validate(r.sql).Returns? && s.validate(r.sql).value == r.validation)
            && (r.repairPerformed <==> r.repair.Some? && r.repair.value.repaired)
            && (r.answer.Some? <==> r.execution.success) && (r.status == Success <==> r.execution.success)
  {
  }
}
