/**
  What the client rebuilds from the events of a run (`utils/streamingDerivation.ts`, `utils/pipelineTimeline.ts`),
  compared with what the server itself reported.
 */
module Timeline {
  import opened Wrappers
  import opened Pipeline
  import opened PipelineRun

  // ----- statistics from events

  datatype Statistics = Statistics(timings: seq<Timing>, repairAttempted: bool, repairPerformed: bool)

  function CompletedTimings(events: seq<Event>): seq<Timing> {
    if events == [] then []
    else
      CompletedTimings(events[..|events| - 1]) +
      match events[|events| - 1] case StageCompleted(stage, ms) => [Timing(stage, ms)] case _ => []
  }

  function DeriveStatistics(events: seq<Event>): Statistics {
    var timings := CompletedTimings(events);
    var repair := exists t :: t in timings && t.stage == SqlRepair;
    Statistics(timings, repair, repair)
  }

  lemma {:induction false} CompletedAppend(a: seq<Event>, b: seq<Event>)
    ensures CompletedTimings(a + b) == CompletedTimings(a) + CompletedTimings(b)
    decreases |b|
  {
    if b == [] {
      assert a + b == a;
    } else {
      assert (a + b)[..|a + b| - 1] == a + b[..|b| - 1];
      CompletedAppend(a, b[..|b| - 1]);
    }
  }

  lemma {:induction false} CompletedPairs(timings: seq<Timing>)
    ensures CompletedTimings(Pairs(timings)) == timings
    decreases |timings|
  {
    if timings != [] {
      var front, last := timings[..|timings| - 1], timings[|timings| - 1];
      CompletedPairs(front);
      var started, completed := StageStarted(last.stage), StageCompleted(last.stage, last.ms);
      CompletedAppend([started], [completed]);
      CompletedSingle(started);
      CompletedSingle(completed);
      CompletedAppend(Pairs(front), [started] + [completed]);
      assert Pairs(timings) == Pairs(front) + ([started] + [completed]);
    }
  }

  lemma CompletedSingle(e: Event)
    ensures CompletedTimings([e]) == match e case StageCompleted(stage, ms) => [Timing(stage, ms)] case _ => []
  {
    assert [e][..0] == [];
  }

  /** The events after the pairs complete no stage. */
  lemma CompletedTail(outcome: Result<Response, PipelineError>)
    ensures CompletedTimings(Rest(outcome)) == TimingsOf(outcome)
  {
    match outcome
    case Ok(r) =>
      var last := PipelineCompleted(r.status, r.error, r.answer);
      CompletedAppend(Pairs(r.timings), [last]);
      CompletedPairs(r.timings);
      CompletedSingle(last);
    case Err(e) =>
      var tail := FailureTail(e);
      assert tail == [tail[0]] + ([tail[1]] + [tail[2]]);
      CompletedAppend([tail[1]], [tail[2]]);
      CompletedAppend([tail[0]], [tail[1]] + [tail[2]]);
      CompletedSingle(tail[0]);
      CompletedSingle(tail[1]);
      CompletedSingle(tail[2]);
      CompletedAppend(Pairs(e.timings), tail);
      CompletedPairs(e.timings);
  }

  function TimingsOf(outcome: Result<Response, PipelineError>): seq<Timing> {
    match outcome case Ok(r) => r.timings case Err(e) => e.timings
  }

  /** The client's stage timings are the server's: same stages, durations and order, whether or not the run raised. */
  lemma DerivedTimingsAgree(question: string, outcome: Result<Response, PipelineError>)
    ensures DeriveStatistics(Trace(question, outcome)).timings == TimingsOf(outcome)
  {
    CompletedAppend([PipelineStarted(question)], Rest(outcome));
    CompletedSingle(PipelineStarted(question));
    CompletedTail(outcome);
  }

  /**
    On a run that does not raise the client's `repair_attempted` is right; its `repair_performed` is right
    exactly when repair was not attempted or succeeded.
   */
  lemma DerivedRepairFlags(s: Stages, question: string)
    requires RunOutcome(s, question).Ok?
    ensures var r, d := RunOutcome(s, question).value, DeriveStatistics(Trace(question, RunOutcome(s, question)));
            && d.repairAttempted == r.repairAttempted
            && (d.repairPerformed == r.repairPerformed <==> !r.repairAttempted || r.repair.value.repaired)
  {
    DerivedTimingsAgree(question, RunOutcome(s, question));
    ExecutedSqlIsTheFinalSql(s, question);
    RepairTimed(s, question);
  }

  /**
    On a run that raises the client's `repair_attempted` is wrong exactly when repair itself raised, for it then
    leaves no completion event; its `repair_performed` is wrong exactly when repair came back without success.
   */
  lemma FailedRunRepairFlags(s: Stages, question: string)
    requires RunOutcome(s, question).Err?
    ensures var e, d := RunOutcome(s, question).error, DeriveStatistics(Trace(question, RunOutcome(s, question)));
            && (d.repairAttempted == e.repairAttempted <==> e.stage != SqlRepair)
            && (d.repairPerformed == e.repairPerformed <==>
                  !e.repairAttempted || e.stage == SqlRepair || e.repairPerformed)
  {
    DerivedTimingsAgree(question, RunOutcome(s, question));
    RepairTimed(s, question);
    NotPerformedEarly(s, question);
    hide RunOutcome;
    StagesRunInOrder(s, question);
  }

  lemma NotPerformedEarly(s: Stages, question: string)
    requires RunOutcome(s, question).Err?
    ensures var e := RunOutcome(s, question).error;
            && (e.stage == SqlRepair ==> e.repairAttempted && !e.repairPerformed)
            && (e.repairPerformed ==> e.repairAttempted)
  {
  }

  /** A repair entry among the timings is the mark of a repair that was attempted and did not raise. */
  lemma RepairTimed(s: Stages, question: string)
    ensures (exists t :: t in TimingsOf(RunOutcome(s, question)) && t.stage == SqlRepair) <==>
              && RepairAttempted(RunOutcome(s, question))
              && (RunOutcome(s, question).Err? ==> RunOutcome(s, question).error.stage != SqlRepair)
  {
    hide *;
    StagesRunInOrder(s, question);
    RepairComesNinth(s, question);
    RepairEntry(RunOutcome(s, question));
  }

  lemma RepairEntry(outcome: Result<Response, PipelineError>)
    requires Attempted(outcome) <= StageOrder(RepairAttempted(outcome))
    requires RepairAttempted(outcome) ==> |Attempted(outcome)| >= 9
    ensures (exists t :: t in TimingsOf(outcome) && t.stage == SqlRepair) <==>
              RepairAttempted(outcome) && (outcome.Err? ==> outcome.error.stage != SqlRepair)
  {
    var timings, attempted := TimingsOf(outcome), Attempted(outcome);
    OnlyNinthIsRepair(attempted, RepairAttempted(outcome));
    assert |timings| <= |attempted| && forall i :: 0 <= i < |timings| ==> attempted[i] == timings[i].stage;
    assert outcome.Err? ==> |timings| == |attempted| - 1 && attempted[|timings|] == outcome.error.stage;
    hide StageOrder, Attempted, StagesOf;
    if |timings| > 8 {
      assert timings[8] in timings;
    }
    forall t | t in timings && t.stage == SqlRepair
      ensures RepairAttempted(outcome) && |timings| > 8
    {
      var i :| 0 <= i < |timings| && timings[i] == t;
      assert attempted[i] == SqlRepair;
    }
  }

  lemma OnlyNinthIsRepair(stages: seq<Stage>, repair: bool)
    requires stages <= StageOrder(repair)
    ensures forall i :: 0 <= i < |stages| ==> (stages[i] == SqlRepair <==> repair && i == 8)
  {
    assert forall i :: 0 <= i < |stages| ==> stages[i] == StageOrder(repair)[i];
  }

  /** The response object the client shows for a streamed run; the SQL, validation and repair details stay absent. */
  datatype ClientResponse = ClientResponse(
    question: string,
    answer: Option<string>,
    statistics: Statistics,
    status: Status,
    error: Option<string>)

  function BuildResponse(question: string, events: seq<Event>, last: Event): ClientResponse
    requires Terminal(last)
  {
    match last
    case PipelineCompleted(status, error, answer) =>
      ClientResponse(question, answer, DeriveStatistics(events), status, error)
    case PipelineFailed(e) => ClientResponse(question, None, DeriveStatistics(events), Failed, Some(e.error))
  }

  /** Built from a whole trace and its terminal event, the client's response agrees with what `run` gave. */
  lemma ClientResponseAgrees(s: Stages, question: string)
    ensures var outcome := RunOutcome(s, question);
            var trace := Trace(question, outcome);
            && Terminal(trace[|trace| - 1])
            && var c := BuildResponse(question, trace, trace[|trace| - 1]);
            && c.statistics.timings == TimingsOf(outcome)
            && (outcome.Ok? ==>
                  && (c.answer, c.status, c.error) == (outcome.value.answer, outcome.value.status, outcome.value.error)
                  && c.question == outcome.value.question
                  && c.statistics.repairAttempted == outcome.value.repairAttempted)
            && (outcome.Err? ==> c.answer == None && c.status == Failed && c.error == Some(outcome.error.error))
  {
    var outcome := RunOutcome(s, question);
    TraceHasOneTerminalEvent(question, outcome);
    DerivedTimingsAgree(question, outcome);
    if outcome.Ok? {
      DerivedRepairFlags(s, question);
    }
  }

  // ----- timeline rows

  datatype RowStatus = Pending | RunningNow | Completed | FailedStage | Skipped

  datatype Row = Row(stage: Stage, status: RowStatus, ms: Option<int>)

  const PIPELINE_STAGES: seq<Stage> :=
    [Nlu, SchemaLinking, BusinessKnowledge, Retrieval, PromptCompilation, SqlGeneration, Llm, SqlValidation,
     SqlRepair, SqlExecution, ResultFormatting]

  /** `events.find(...)`. */
  function FindFirst<T>(xs: seq<T>, p: T -> bool): Option<T> {
    if xs == [] then None
    else
      match FindFirst(xs[..|xs| - 1], p)
      case Some(x) => Some(x)
      case None => if p(xs[|xs| - 1]) then Some(xs[|xs| - 1]) else None
  }

  predicate IsFailed(stage: Stage, e: Event) {
    e.StageFailed? && e.stage == stage
  }

  predicate IsCompleted(stage: Stage, e: Event) {
    e.StageCompleted? && e.stage == stage
  }

  predicate IsStarted(stage: Stage, e: Event) {
    e.StageStarted? && e.stage == stage
  }

  function RowFromEvents(stage: Stage, events: seq<Event>, isTerminal: bool): Row {
    match FindFirst<Event>(events, (e: Event) => IsFailed(stage, e))
    case Some(StageFailed(_, ms, _)) => Row(stage, FailedStage, Some(ms))
    case _ =>
      match FindFirst<Event>(events, (e: Event) => IsCompleted(stage, e))
      case Some(StageCompleted(_, ms)) => Row(stage, Completed, Some(ms))
      case _ =>
        if FindFirst(events, (e: Event) => IsStarted(stage, e)).Some? then Row(stage, RunningNow, None)
        else Row(stage, if isTerminal then Skipped else Pending, None)
  }

  function RowFromTimings(stage: Stage, timings: seq<Timing>): Row {
    match FindFirst(timings, (t: Timing) => t.stage == stage)
    case Some(t) => Row(stage, Completed, Some(t.ms))
    case None => Row(stage, Skipped, None)
  }

  function RowsFromEvents(events: seq<Event>, isTerminal: bool): seq<Row> {
    seq(|PIPELINE_STAGES|,
        i requires 0 <= i < |PIPELINE_STAGES| => RowFromEvents(PIPELINE_STAGES[i], events, isTerminal))
  }

  function RowsFromTimings(timings: seq<Timing>): seq<Row> {
    seq(|PIPELINE_STAGES|, i requires 0 <= i < |PIPELINE_STAGES| => RowFromTimings(PIPELINE_STAGES[i], timings))
  }

  lemma {:induction false} FindAppend<T>(a: seq<T>, b: seq<T>, p: T -> bool)
    ensures FindFirst(a + b, p) == if FindFirst(a, p).Some? then FindFirst(a, p) else FindFirst(b, p)
    decreases |b|
  {
    if b == [] {
      assert a + b == a;
    } else {
      assert (a + b)[..|a + b| - 1] == a + b[..|b| - 1];
      FindAppend(a, b[..|b| - 1], p);
    }
  }

  lemma {:induction false} FindNothing<T>(xs: seq<T>, p: T -> bool)
    requires forall x :: x in xs ==> !p(x)
    ensures FindFirst(xs, p).None?
    decreases |xs|
  {
    if xs != [] {
      FindNothing(xs[..|xs| - 1], p);
    }
  }

  lemma FindSingle<T>(x: T, p: T -> bool)
    ensures FindFirst([x], p) == if p(x) then Some(x) else None
  {
    assert [x][..0] == [];
  }

  lemma FindThree<T>(x: T, y: T, z: T, p: T -> bool)
    ensures FindFirst([x, y, z], p) ==
            if p(x) then Some(x) else if p(y) then Some(y) else if p(z) then Some(z) else None
  {
    assert [x, y, z] == [x] + ([y] + [z]);
    FindAppend([y], [z], p);
    FindAppend([x], [y] + [z], p);
    FindSingle(x, p);
    FindSingle(y, p);
    FindSingle(z, p);
  }

  /** In a list of start/complete pairs the first completion of a stage carries its first timing. */
  lemma {:induction false} FindInPairs(stage: Stage, timings: seq<Timing>)
    ensures var found := FindFirst(timings, (t: Timing) => t.stage == stage);
            && FindFirst(Pairs(timings), (e: Event) => IsCompleted(stage, e)) ==
                 (match found case Some(t) => Some(StageCompleted(stage, t.ms)) case None => None)
            && (FindFirst(Pairs(timings), (e: Event) => IsStarted(stage, e)).Some? <==> found.Some?)
    decreases |timings|
  {
    if timings != [] {
      var front, last := timings[..|timings| - 1], timings[|timings| - 1];
      FindInPairs(stage, front);
      var started, completed := StageStarted(last.stage), StageCompleted(last.stage, last.ms);
      var isCompleted, isStarted := (e: Event) => IsCompleted(stage, e), (e: Event) => IsStarted(stage, e);
      assert [started, completed] == [started] + [completed];
      FindAppend([started], [completed], isCompleted);
      FindAppend([started], [completed], isStarted);
      FindSingle(started, isCompleted);
      FindSingle(completed, isCompleted);
      FindSingle(started, isStarted);
      FindSingle(completed, isStarted);
      FindAppend(Pairs(front), [started, completed], isCompleted);
      FindAppend(Pairs(front), [started, completed], isStarted);
    }
  }

  /** A whole trace answers a search that its first event and its tail cannot satisfy from its pairs. */
  lemma FindInTrace(question: string, pairs: seq<Event>, tail: seq<Event>, p: Event -> bool)
    requires !p(PipelineStarted(question))
    ensures FindFirst([PipelineStarted(question)] + (pairs + tail), p) ==
            if FindFirst(pairs, p).Some? then FindFirst(pairs, p) else FindFirst(tail, p)
  {
    FindAppend([PipelineStarted(question)], pairs + tail, p);
    FindSingle(PipelineStarted(question), p);
    FindAppend(pairs, tail, p);
  }

  lemma RowAgrees(question: string, r: Response, stage: Stage)
    ensures RowFromEvents(stage, Trace(question, Ok(r)), true) == RowFromTimings(stage, r.timings)
  {
    hide FindFirst, Pairs;
    var last := PipelineCompleted(r.status, r.error, r.answer);
    var isFailed := (e: Event) => IsFailed(stage, e);
    var isCompleted, isStarted := (e: Event) => IsCompleted(stage, e), (e: Event) => IsStarted(stage, e);
    PairsAreStageEvents(r.timings);
    FindNothing(Pairs(r.timings), isFailed);
    FindInPairs(stage, r.timings);
    FindInTrace(question, Pairs(r.timings), [last], isFailed);
    FindInTrace(question, Pairs(r.timings), [last], isCompleted);
    FindInTrace(question, Pairs(r.timings), [last], isStarted);
    FindSingle(last, isFailed);
    FindSingle(last, isCompleted);
    FindSingle(last, isStarted);
  }

  /** When a run ends without raising, the live timeline equals the one drawn from the server's own timings. */
  lemma RowsAgree(question: string, r: Response)
    ensures RowsFromEvents(Trace(question, Ok(r)), true) == RowsFromTimings(r.timings)
  {
    forall i | 0 <= i < |PIPELINE_STAGES|
      ensures RowFromEvents(PIPELINE_STAGES[i], Trace(question, Ok(r)), true) ==
              RowFromTimings(PIPELINE_STAGES[i], r.timings)
    {
      RowAgrees(question, r, PIPELINE_STAGES[i]);
    }
  }

  lemma FindInTail(stage: Stage, e: PipelineError)
    ensures FindFirst<Event>(FailureTail(e), (x: Event) => IsFailed(stage, x)) ==
            if stage == e.stage then Some(StageFailed(e.stage, e.ms, e.error)) else None
    ensures FindFirst<Event>(FailureTail(e), (x: Event) => IsCompleted(stage, x)) == None
    ensures stage != e.stage ==> FindFirst<Event>(FailureTail(e), (x: Event) => IsStarted(stage, x)) == None
  {
    var tail := FailureTail(e);
    FindThree(tail[0], tail[1], tail[2], (x: Event) => IsFailed(stage, x));
    FindThree(tail[0], tail[1], tail[2], (x: Event) => IsCompleted(stage, x));
    FindThree(tail[0], tail[1], tail[2], (x: Event) => IsStarted(stage, x));
  }

  /** When a run raises, the live timeline shows the failing stage as failed and is right about every other. */
  lemma RowsAgreeUpToFailure(question: string, e: PipelineError, stage: Stage)
    ensures RowFromEvents(stage, Trace(question, Err(e)), true) ==
            if stage == e.stage then Row(stage, FailedStage, Some(e.ms)) else RowFromTimings(stage, e.timings)
  {
    hide FindFirst, Pairs, FailureTail;
    var isFailed := (x: Event) => IsFailed(stage, x);
    var isCompleted, isStarted := (x: Event) => IsCompleted(stage, x), (x: Event) => IsStarted(stage, x);
    PairsAreStageEvents(e.timings);
    FindNothing(Pairs(e.timings), isFailed);
    FindInPairs(stage, e.timings);
    FindInTail(stage, e);
    FindInTrace(question, Pairs(e.timings), FailureTail(e), isFailed);
    FindInTrace(question, Pairs(e.timings), FailureTail(e), isCompleted);
    FindInTrace(question, Pairs(e.timings), FailureTail(e), isStarted);
  }
}
