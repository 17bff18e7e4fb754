/**
  What a run feeds to each stage, told from the stages alone (`orchestrator/pipeline.py`): on success every stage got
  what the stage before it gave, and a run that raises names the stage whose call on those inputs raised.
 */
module PipelineFlow {
  import opened Wrappers
  import opened Pipeline
  import opened PipelineRun

  /** The values that went from stage to stage. */
  datatype Flow = Flow(
    query: string,
    context: string,
    bundle: string,
    prompt: string,
    generated: GeneratedSql,
    validation: Validation,
    sql: GeneratedSql,
    final: Validation)

  predicate Gave<T(==)>(call: Call<T>, value: T) {
    call.Returns? && call.value == value
  }

  predicate Failing<T>(call: Call<T>, e: PipelineError) {
    call == Raises(e.error, e.ms)
  }

  /** The stages up to the compiled prompt. */
  predicate Compiled(s: Stages, question: string, f: Flow) {
    && Gave(s.parse(question), f.query)
    && Gave(s.link(f.query), f.context)
    && s.loadKnowledge().Returns?
    && Gave(s.retrieve(f.context), f.bundle)
    && Gave(s.compile(f.bundle), f.prompt)
  }

  predicate ValidatedOnce(s: Stages, question: string, f: Flow) {
    && Compiled(s, question, f)
    && Gave(s.generate(f.prompt), f.generated)
    && Gave(s.validate(f.generated), f.validation)
  }

  /** The SQL to execute: the one generated if it is valid, else the one the repair of it came back with. */
  predicate Finalised(s: Stages, question: string, f: Flow, repair: Option<Repair>) {
    && ValidatedOnce(s, question, f)
    && if f.validation.isValid then repair.None? && f.sql == f.generated && f.final == f.validation
       else
         && repair.Some? && Gave(s.repair(f.generated, f.validation, f.bundle), repair.value)
         && f.sql == repair.value.finalSql && f.final == repair.value.finalValidation
  }

  /** How long each stage took, in order, up to validation and conditional repair. */
  function TimesSoFar(s: Stages, question: string, f: Flow): seq<Timing> {
    [Timing(Nlu, s.parse(question).ms), Timing(SchemaLinking, s.link(f.query).ms),
     Timing(BusinessKnowledge, s.loadKnowledge().ms), Timing(Retrieval, s.retrieve(f.context).ms),
     Timing(PromptCompilation, s.compile(f.bundle).ms), Timing(SqlGeneration, s.generate(f.prompt).ms),
     Timing(Llm, f.generated.llmMs), Timing(SqlValidation, s.validate(f.generated).ms)] +
    if f.validation.isValid then [] else [Timing(SqlRepair, s.repair(f.generated, f.validation, f.bundle).ms)]
  }

  lemma PrepareFlows(s: Stages, question: string) returns (f: Flow)
    requires Prepare(s, question).Ok?
    ensures Compiled(s, question, f)
    ensures Prepare(s, question).value.0 == f.bundle && Prepare(s, question).value.1 == f.prompt
    ensures Prepare(s, question).value.2 ==
            [Timing(Nlu, s.parse(question).ms), Timing(SchemaLinking, s.link(f.query).ms),
             Timing(BusinessKnowledge, s.loadKnowledge().ms), Timing(Retrieval, s.retrieve(f.context).ms),
             Timing(PromptCompilation, s.compile(f.bundle).ms)]
  {
    var query := s.parse(question).value;
    var context := s.link(query).value;
    var bundle := s.retrieve(context).value;
    var sql := GeneratedSql("", 0);
    f := Flow(query, context, bundle, s.compile(bundle).value, sql, Validation("", true), sql, Validation("", true));
  }

  lemma GenerateFlows(s: Stages, question: string) returns (f: Flow)
    requires GenerateOutcome(s, question).Ok?
    ensures var g := GenerateOutcome(s, question).value;
            && Finalised(s, question, f, g.repair) && g.sql == f.sql && g.validation == f.final
            && g.timings == TimesSoFar(s, question, f)
            && (g.repairAttempted <==> !f.validation.isValid)
            && (g.repairPerformed <==> g.repair.Some? && g.repair.value.repaired)
  {
    f := PrepareFlows(s, question);
    hide Prepare, Compiled;
    var generated := s.generate(f.prompt).value;
    var validation := s.validate(generated).value;
    f := f.(generated := generated, validation := validation, sql := generated, final := validation);
    if !validation.isValid {
      var repair := s.repair(generated, validation, f.bundle).value;
      f := f.(sql := repair.finalSql, final := repair.finalValidation);
    }
  }

  /**
    On a run that does not raise: each stage was given what came before, the answer is what formatting made of the
    execution, and where the execution failed there is none and the error is the execution's own message.
   */
  lemma ResponseFlows(s: Stages, question: string) returns (f: Flow)
    requires RunOutcome(s, question).Ok?
    ensures var r := RunOutcome(s, question).value;
            && r.question == question
            && Finalised(s, question, f, r.repair) && r.sql == f.sql && r.validation == f.final
            && (r.repairAttempted <==> !f.validation.isValid)
            && (r.repairPerformed <==> r.repair.Some? && r.repair.value.repaired)
            && Gave(s.execute(f.sql, f.final), r.execution)
            && if r.execution.success then
                 && r.status == Success && r.error == None
                 && r.answer.Some? && Gave(s.format(r.execution), r.answer.value)
                 && r.timings == TimesSoFar(s, question, f) +
                                 [Timing(SqlExecution, s.execute(f.sql, f.final).ms),
                                  Timing(ResultFormatting, s.format(r.execution).ms)]
               else
                 && r.status == Failed && r.error == Some(r.execution.message) && r.answer == None
                 && r.timings == TimesSoFar(s, question, f) + [Timing(SqlExecution, s.execute(f.sql, f.final).ms)]
  {
    f := GenerateFlows(s, question);
    hide GenerateOutcome, Finalised, TimesSoFar;
  }

  // ----- runs that raise

  /** The failing stage is the one whose call, on what the stages before it gave, raised this error after this time. */
  predicate RaisedEarly(s: Stages, question: string, f: Flow, e: PipelineError) {
    match e.stage
    case Nlu => Failing(s.parse(question), e)
    case SchemaLinking => Gave(s.parse(question), f.query) && Failing(s.link(f.query), e)
    case BusinessKnowledge =>
      && Gave(s.parse(question), f.query) && Gave(s.link(f.query), f.context)
      && Failing(s.loadKnowledge(), e)
    case Retrieval =>
      && Gave(s.parse(question), f.query) && Gave(s.link(f.query), f.context) && s.loadKnowledge().Returns?
      && Failing(s.retrieve(f.context), e)
    case PromptCompilation =>
      && Gave(s.parse(question), f.query) && Gave(s.link(f.query), f.context) && s.loadKnowledge().Returns?
      && Gave(s.retrieve(f.context), f.bundle)
      && Failing(s.compile(f.bundle), e)
    case SqlGeneration => Compiled(s, question, f) && Failing(s.generate(f.prompt), e)
    case SqlValidation =>
      Compiled(s, question, f) && Gave(s.generate(f.prompt), f.generated) && Failing(s.validate(f.generated), e)
    case SqlRepair =>
      && ValidatedOnce(s, question, f) && !f.validation.isValid
      && Failing(s.repair(f.generated, f.validation, f.bundle), e)
    case _ => false
  }

  predicate RaisedLate(s: Stages, question: string, f: Flow, e: PipelineError) {
    && Finalised(s, question, f, e.repair)
    && match e.stage
       case SqlExecution => Failing(s.execute(f.sql, f.final), e)
       case ResultFormatting =>
         && s.execute(f.sql, f.final).Returns? && s.execute(f.sql, f.final).value.success
         && Failing(s.format(s.execute(f.sql, f.final).value), e)
       case _ => false
  }

  /** What the error carries of the SQL, its validation and its repair is what had been computed by then. */
  predicate Carries(f: Flow, e: PipelineError) {
    match e.stage
    case SqlValidation => e.sql == Some(f.generated) && e.validation == None && e.repair == None
    case SqlRepair => e.sql == Some(f.generated) && e.validation == Some(f.validation) && e.repair == None
    case SqlExecution => e.sql == Some(f.sql) && e.validation == Some(f.final)
    case ResultFormatting => e.sql == Some(f.sql) && e.validation == Some(f.final)
    case _ => e.sql == None && e.validation == None && e.repair == None
  }

  lemma PrepareRaises(s: Stages, question: string) returns (f: Flow)
    requires Prepare(s, question).Err?
    ensures var e := Prepare(s, question).error;
            && RaisedEarly(s, question, f, e) && Carries(f, e)
            && e.stage in {Nlu, SchemaLinking, BusinessKnowledge, Retrieval, PromptCompilation}
  {
    var query := if s.parse(question).Returns? then s.parse(question).value else "";
    var context := if s.link(query).Returns? then s.link(query).value else "";
    var bundle := if s.retrieve(context).Returns? then s.retrieve(context).value else "";
    var sql := GeneratedSql("", 0);
    f := Flow(query, context, bundle, "", sql, Validation("", true), sql, Validation("", true));
  }

  lemma GenerateRaises(s: Stages, question: string) returns (f: Flow)
    requires GenerateOutcome(s, question).Err?
    ensures RaisedEarly(s, question, f, GenerateOutcome(s, question).error)
    ensures Carries(f, GenerateOutcome(s, question).error)
  {
    if Prepare(s, question).Err? {
      f := PrepareRaises(s, question);
      hide Prepare, RaisedEarly, Carries;
    } else {
      f := PrepareFlows(s, question);
      hide Prepare, Compiled;
      if s.generate(f.prompt).Returns? {
        f := f.(generated := s.generate(f.prompt).value);
        if s.validate(f.generated).Returns? {
          f := f.(validation := s.validate(f.generated).value);
        }
      }
    }
  }

  lemma FailureFlows(s: Stages, question: string) returns (f: Flow)
    requires RunOutcome(s, question).Err?
    ensures var e := RunOutcome(s, question).error;
            && (RaisedEarly(s, question, f, e) || RaisedLate(s, question, f, e))
            && Carries(f, e)
  {
    if GenerateOutcome(s, question).Err? {
      f := GenerateRaises(s, question);
      hide GenerateOutcome, RaisedEarly, Carries;
    } else {
      f := GenerateFlows(s, question);
      hide GenerateOutcome, Finalised, TimesSoFar, RaisedEarly;
    }
  }
}
