/**
  The end-to-end run of `orchestrator/pipeline.py`. Each stage is a given function of its inputs that returns or raises
  and takes some time; the publisher records the events it is sent.
 */
module Pipeline {
  import opened Wrappers

  datatype Stage =
    | Nlu
    | SchemaLinking
    | BusinessKnowledge
    | Retrieval
    | PromptCompilation
    | SqlGeneration
    | Llm
    | SqlValidation
    | SqlRepair
    | SqlExecution
    | ResultFormatting

  datatype Call<+T> = Returns(value: T, ms: int) | Raises(error: string, ms: int)

  datatype GeneratedSql = GeneratedSql(sql: string, llmMs: int)

  datatype Validation = Validation(sql: string, isValid: bool)

  datatype Repair = Repair(repaired: bool, finalSql: GeneratedSql, finalValidation: Validation)

  datatype Execution = Execution(success: bool, message: string)

  /** The ten collaborators; text stands for the contexts, bundles, prompts and answers they exchange. */
  datatype Stages = Stages(
    parse: string -> Call<string>,
    link: string -> Call<string>,
    loadKnowledge: () -> Call<()>,
    retrieve: string -> Call<string>,
    compile: string -> Call<string>,
    generate: string -> Call<GeneratedSql>,
    validate: GeneratedSql -> Call<Validation>,
    repair: (GeneratedSql, Validation, string) -> Call<Repair>,
    execute: (GeneratedSql, Validation) -> Call<Execution>,
    format: Execution -> Call<string>)

  datatype Timing = Timing(stage: Stage, ms: int)

  datatype Status = Success | Failed

  datatype Response = Response(
    question: string,
    answer: Option<string>,
    sql: GeneratedSql,
    validation: Validation,
    repair: Option<Repair>,
    execution: Execution,
    timings: seq<Timing>,
    repairAttempted: bool,
    repairPerformed: bool,
    status: Status,
    error: Option<string>)

  /** What `run` raises; `ms` is the duration reported with the failing stage. */
  datatype PipelineError = PipelineError(
    stage: Stage,
    error: string,
    ms: int,
    timings: seq<Timing>,
    repairAttempted: bool,
    repairPerformed: bool,
    sql: Option<GeneratedSql>,
    validation: Option<Validation>,
    repair: Option<Repair>)

  /** Everything up to and including conditional repair. */
  datatype Generated = Generated(
    sql: GeneratedSql,
    validation: Validation,
    repair: Option<Repair>,
    repairAttempted: bool,
    repairPerformed: bool,
    timings: seq<Timing>)

  datatype Event =
    | PipelineStarted(question: string)
    | StageStarted(stage: Stage)
    | StageCompleted(stage: Stage, ms: int)
    | StageFailed(stage: Stage, ms: int, reason: string)
    | PipelineCompleted(status: Status, error: Option<string>, answer: Option<string>)
    | PipelineFailed(failure: PipelineError)

  class Publisher {
    var events: seq<Event>

    constructor ()
      ensures events == []
    {
      events := [];
    }

    method Publish(e: Event)
      modifies this
      ensures events == old(events) + [e]
    {
      events := events + [e];
    }
  }

  // ----- what a run gives

  function Early(stage: Stage, error: string, ms: int, timings: seq<Timing>): PipelineError {
    PipelineError(stage, error, ms, timings, false, false, None, None, None)
  }

  /** The five stages before any SQL exists: the bundle and the compiled prompt. */
  function Prepare(s: Stages, question: string): Result<(string, string, seq<Timing>), PipelineError> {
    match s.parse(question)
    case Raises(e, ms) => Err(Early(Nlu, e, ms, []))
    case Returns(query, ms1) =>
      var one := [Timing(Nlu, ms1)];
      match s.link(query)
      case Raises(e, ms) => Err(Early(SchemaLinking, e, ms, one))
      case Returns(linked, ms2) =>
        var two := one + [Timing(SchemaLinking, ms2)];
        match s.loadKnowledge()
        case Raises(e, ms) => Err(Early(BusinessKnowledge, e, ms, two))
        case Returns(_, ms3) =>
          var three := two + [Timing(BusinessKnowledge, ms3)];
          match s.retrieve(linked)
          case Raises(e, ms) => Err(Early(Retrieval, e, ms, three))
          case Returns(bundle, ms4) =>
            var four := three + [Timing(Retrieval, ms4)];
            match s.compile(bundle)
            case Raises(e, ms) => Err(Early(PromptCompilation, e, ms, four))
            case Returns(prompt, ms5) => Ok((bundle, prompt, four + [Timing(PromptCompilation, ms5)]))
  }

  function GenerateOutcome(s: Stages, question: string): Result<Generated, PipelineError> {
    match Prepare(s, question)
    case Err(e) => Err(e)
    case Ok((bundle, prompt, five)) =>
      match s.generate(prompt)
      case Raises(e, ms) => Err(Early(SqlGeneration, e, ms, five))
      case Returns(sql, ms6) =>
        var seven := five + [Timing(SqlGeneration, ms6)] + [Timing(Llm, sql.llmMs)];
        match s.validate(sql)
        case Raises(e, ms) => Err(Early(SqlValidation, e, ms, seven).(sql := Some(sql)))
        case Returns(validation, ms8) =>
          var eight := seven + [Timing(SqlValidation, ms8)];
          if validation.isValid then Ok(Generated(sql, validation, None, false, false, eight))
          else
            match s.repair(sql, validation, bundle)
            case Raises(e, ms) =>
              Err(PipelineError(SqlRepair, e, ms, eight, true, false, Some(sql), Some(validation), None))
            case Returns(repair, ms9) =>
              Ok(Generated(repair.finalSql, repair.finalValidation, Some(repair), true, repair.repaired,
                           eight + [Timing(SqlRepair, ms9)]))
  }

  function RunFailure(g: Generated, stage: Stage, error: string, ms: int, timings: seq<Timing>): PipelineError {
    PipelineError(stage, error, ms, timings, g.repairAttempted, g.repairPerformed,
                  Some(g.sql), Some(g.validation), g.repair)
  }

  function ExecuteOutcome(s: Stages, question: string, g: Generated): Result<Response, PipelineError> {
    match s.execute(g.sql, g.validation)
    case Raises(e, ms) => Err(RunFailure(g, SqlExecution, e, ms, g.timings))
    case Returns(execution, ms) =>
      var executed := g.timings + [Timing(SqlExecution, ms)];
      if !execution.success then
        Ok(Response(question, None, g.sql, g.validation, g.repair, execution, executed,
                    g.repairAttempted, g.repairPerformed, Failed, Some(execution.message)))
      else
        match s.format(execution)
        case Raises(e, ms) => Err(RunFailure(g, ResultFormatting, e, ms, executed))
        case Returns(answer, ms) =>
          Ok(Response(question, Some(answer), g.sql, g.validation, g.repair, execution,
                      executed + [Timing(ResultFormatting, ms)],
                      g.repairAttempted, g.repairPerformed, Success, None))
  }

  function RunOutcome(s: Stages, question: string): Result<Response, PipelineError> {
    match GenerateOutcome(s, question)
    case Err(e) => Err(e)
    case Ok(g) => ExecuteOutcome(s, question, g)
  }

  // ----- the event trace, as a function of the outcome alone

  function Pairs(timings: seq<Timing>): seq<Event> {
    if timings == [] then []
    else
      var last := timings[|timings| - 1];
      Pairs(timings[..|timings| - 1]) + [StageStarted(last.stage), StageCompleted(last.stage, last.ms)]
  }

  function FailureTail(e: PipelineError): seq<Event> {
    [StageStarted(e.stage), StageFailed(e.stage, e.ms, e.error), PipelineFailed(e)]
  }

  /** One start/complete pair per stage timed, between the opening event and the one terminal event. */
  function Trace(question: string, outcome: Result<Response, PipelineError>): seq<Event> {
    [PipelineStarted(question)] + Rest(outcome)
  }

  function Rest(outcome: Result<Response, PipelineError>): seq<Event> {
    match outcome
    case Ok(r) => Pairs(r.timings) + [PipelineCompleted(r.status, r.error, r.answer)]
    case Err(e) => Pairs(e.timings) + FailureTail(e)
  }

  lemma PairsSnoc(timings: seq<Timing>, t: Timing)
    ensures Pairs(timings + [t]) == Pairs(timings) + [StageStarted(t.stage), StageCompleted(t.stage, t.ms)]
  {
    assert (timings + [t])[..|timings|] == timings;
  }

  // ----- the run itself

  ghost predicate Published(p: Publisher?, before: seq<Event>, timings: seq<Timing>)
    reads p
  {
    p != null ==> p.events == before + Pairs(timings)
  }

  ghost predicate Running(p: Publisher?, before: seq<Event>, timings: seq<Timing>, stage: Stage)
    reads p
  {
    p != null ==> p.events == before + Pairs(timings) + [StageStarted(stage)]
  }

  method NotifyStarted(p: Publisher?, ghost before: seq<Event>, ghost timings: seq<Timing>, stage: Stage)
    requires Published(p, before, timings)
    modifies p
    ensures Running(p, before, timings, stage)
  {
    if p != null {
      p.Publish(StageStarted(stage));
    }
  }

  method NotifyCompleted(p: Publisher?, ghost before: seq<Event>, timings: seq<Timing>, stage: Stage, ms: int)
    returns (timings': seq<Timing>)
    requires Running(p, before, timings, stage)
    modifies p
    ensures timings' == timings + [Timing(stage, ms)]
    ensures Published(p, before, timings')
  {
    timings' := timings + [Timing(stage, ms)];
    PairsSnoc(timings, Timing(stage, ms));
    if p != null {
      p.Publish(StageCompleted(stage, ms));
    }
  }

  /** The except branch: report the failing stage, then the failed pipeline. */
  method NotifyFailed(p: Publisher?, ghost before: seq<Event>, e: PipelineError)
    requires Running(p, before, e.timings, e.stage)
    modifies p
    ensures p != null ==> p.events == before + Rest(Err(e))
  {
    if p != null {
      p.Publish(StageFailed(e.stage, e.ms, e.error));
      p.Publish(PipelineFailed(e));
      assert p.events == before + (Pairs(e.timings) + FailureTail(e));
    }
  }

  method NotifyPipelineCompleted(p: Publisher?, ghost before: seq<Event>, r: Response)
    requires Published(p, before, r.timings)
    modifies p
    ensures p != null ==> p.events == before + Rest(Ok(r))
  {
    if p != null {
      p.Publish(PipelineCompleted(r.status, r.error, r.answer));
    }
  }
}
