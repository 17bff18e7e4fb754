/**
  The live timeline at every moment of a run (`utils/pipelineTimeline.ts`): what its rows say of each stage after any
  part of the run's events has arrived.
 */
module LiveTimeline {
  import opened Wrappers
  import opened Pipeline
  import opened PipelineRun
  import opened Timeline

  /** The first timing recorded for the stage. */
  ghost predicate TimedFirst(timings: seq<Timing>, stage: Stage, ms: int) {
    exists i ::
      0 <= i < |timings| && timings[i] == Timing(stage, ms) && forall j :: 0 <= j < i ==> timings[j].stage != stage
  }

  ghost predicate Untimed(timings: seq<Timing>, stage: Stage) {
    forall i :: 0 <= i < |timings| ==> timings[i].stage != stage
  }

  lemma {:induction false} FindTiming(timings: seq<Timing>, stage: Stage)
    ensures match FindFirst(timings, (t: Timing) => t.stage == stage)
            case Some(t) => t.stage == stage && TimedFirst(timings, stage, t.ms)
            case None => Untimed(timings, stage)
    decreases |timings|
  {
    if timings != [] {
      var front, last := timings[..|timings| - 1], timings[|timings| - 1];
      FindTiming(front, stage);
      match FindFirst(front, (t: Timing) => t.stage == stage)
      case Some(t) =>
        var i :|
          0 <= i < |front| && front[i] == Timing(stage, t.ms) && forall j :: 0 <= j < i ==> front[j].stage != stage;
        assert timings[i] == front[i] && forall j :: 0 <= j < i ==> timings[j] == front[j];
      case None =>
        assert forall i :: 0 <= i < |front| ==> timings[i] == front[i];
        assert last.stage == stage ==> timings[|front|] == Timing(stage, last.ms);
    }
  }

  /** A row drawn from timings: completed with the time first recorded, skipped without one. */
  lemma RowFromTimingsIs(timings: seq<Timing>, stage: Stage)
    ensures match RowFromTimings(stage, timings)
            case Row(s, Completed, Some(ms)) => s == stage && TimedFirst(timings, stage, ms)
            case Row(s, Skipped, None) => s == stage && Untimed(timings, stage)
            case _ => false
  {
    FindTiming(timings, stage);
  }

  /** The stage under way after `done` stages have completed: the next to complete, or the one that fails. */
  function UnderWay(outcome: Result<Response, PipelineError>, done: nat): Option<Stage> {
    if done < |TimingsOf(outcome)| then Some(TimingsOf(outcome)[done].stage)
    else match outcome case Ok(_) => None case Err(e) => Some(e.stage)
  }

  /** The events when `done` stages have completed and, if given, one more has begun. */
  function EventsSoFar(question: string, done: seq<Timing>, running: Option<Stage>): seq<Event> {
    [PipelineStarted(question)] +
    (Pairs(done) + match running case Some(stage) => [StageStarted(stage)] case None => [])
  }

  lemma {:induction false} PairsPrefix(timings: seq<Timing>, done: nat)
    requires done <= |timings|
    ensures |Pairs(timings)| == 2 * |timings| && Pairs(timings)[..2 * done] == Pairs(timings[..done])
    ensures done < |timings| ==> Pairs(timings)[2 * done] == StageStarted(timings[done].stage)
    decreases |timings|
  {
    PairsAreStageEvents(timings);
    if done == |timings| {
      assert timings[..done] == timings;
    } else {
      var front := timings[..|timings| - 1];
      PairsPrefix(front, done);
      assert front[..done] == timings[..done];
      assert Pairs(timings)[..2 * done] == Pairs(front)[..2 * done];
    }
  }

  lemma PrefixOfThree(x: Event, a: seq<Event>, b: seq<Event>, m: nat)
    requires m <= |a|
    ensures ([x] + (a + b))[..1 + m] == [x] + (a[..m] + [])
    ensures m < |a| ==> ([x] + (a + b))[..2 + m] == [x] + (a[..m] + [a[m]])
    ensures m == |a| && b != [] ==> ([x] + (a + b))[..2 + m] == [x] + (a[..m] + [b[0]])
  {
  }

  /** Every part of a trace that ends before a failure or the end is of that form. */
  lemma PrefixIsSoFar(question: string, outcome: Result<Response, PipelineError>, done: nat, started: bool)
    requires done <= |TimingsOf(outcome)| && (started ==> UnderWay(outcome, done).Some?)
    ensures var n := 1 + 2 * done + if started then 1 else 0;
            && n < |Trace(question, outcome)|
            && Trace(question, outcome)[..n] ==
               EventsSoFar(question, TimingsOf(outcome)[..done], if started then UnderWay(outcome, done) else None)
  {
    var timings := TimingsOf(outcome);
    var tail := match outcome
                case Ok(r) => [PipelineCompleted(r.status, r.error, r.answer)]
                case Err(e) => FailureTail(e);
    assert Trace(question, outcome) == [PipelineStarted(question)] + (Pairs(timings) + tail);
    assert outcome.Err? ==> |tail| == 3 && tail[0] == StageStarted(outcome.error.stage);
    PairsPrefix(timings, done);
    hide Pairs, Trace;
    PrefixOfThree(PipelineStarted(question), Pairs(timings), tail, 2 * done);
  }

  /** What a row shows while the run goes on: how long the stage took, that it is running, or nothing yet. */
  ghost predicate ShowsLive(row: Row, stage: Stage, done: seq<Timing>, running: Option<Stage>) {
    && row.stage == stage
    && match row.status
       case Completed => row.ms.Some? && TimedFirst(done, stage, row.ms.value)
       case RunningNow => row.ms == None && Untimed(done, stage) && running == Some(stage)
       case Pending => row.ms == None && Untimed(done, stage) && running != Some(stage)
       case _ => false
  }

  function Running(running: Option<Stage>): seq<Event> {
    match running case Some(stage) => [StageStarted(stage)] case None => []
  }

  /** What the three searches find in the events so far. */
  lemma FindSoFar(question: string, done: seq<Timing>, running: Option<Stage>, stage: Stage)
    ensures var events := EventsSoFar(question, done, running);
            && FindFirst(events, (e: Event) => IsFailed(stage, e)) == None
            && FindFirst(events, (e: Event) => IsCompleted(stage, e)) ==
                 (match FindFirst(done, (t: Timing) => t.stage == stage)
                  case Some(t) => Some(StageCompleted(stage, t.ms))
                  case None => None)
            && (FindFirst(events, (e: Event) => IsStarted(stage, e)).Some? <==>
                  FindFirst(done, (t: Timing) => t.stage == stage).Some? || running == Some(stage))
  {
    var tail := Running(running);
    var isFailed := (e: Event) => IsFailed(stage, e);
    var isCompleted, isStarted := (e: Event) => IsCompleted(stage, e), (e: Event) => IsStarted(stage, e);
    FindInPairs(stage, done);
    PairsAreStageEvents(done);
    FindNothing(Pairs(done), isFailed);
    FindNothing(tail, isFailed);
    FindNothing(tail, isCompleted);
    assert FindFirst(tail, isStarted).Some? <==> running == Some(stage) by {
      if running.Some? {
        FindSingle(StageStarted(running.value), isStarted);
      }
    }
    hide FindFirst, Pairs;
    FindInTrace(question, Pairs(done), tail, isFailed);
    FindInTrace(question, Pairs(done), tail, isCompleted);
    FindInTrace(question, Pairs(done), tail, isStarted);
  }

  lemma RowSoFar(question: string, done: seq<Timing>, running: Option<Stage>, stage: Stage)
    ensures ShowsLive(RowFromEvents(stage, EventsSoFar(question, done, running), false), stage, done, running)
  {
    FindTiming(done, stage);
    FindSoFar(question, done, running, stage);
    hide FindFirst, EventsSoFar, TimedFirst, Untimed;
  }

  /**
    The row of a stage after the first `n` events of a run, before any failure and before the end: completed stages
    with their times, the one under way as running, the others as pending.
   */
  lemma LiveRow(question: string, outcome: Result<Response, PipelineError>, n: nat, stage: Stage)
    requires 0 < n < |Trace(question, outcome)| - if outcome.Err? then 1 else 0
    ensures (n - 1) / 2 <= |TimingsOf(outcome)|
    ensures var done := (n - 1) / 2;
            ShowsLive(RowFromEvents(stage, Trace(question, outcome)[..n], false), stage, TimingsOf(outcome)[..done],
                      if n % 2 == 0 then UnderWay(outcome, done) else None)
  {
    TraceLength(question, outcome);
    hide *;
    var timings, done := TimingsOf(outcome), (n - 1) / 2;
    UnderWayIs(outcome, done);
    PrefixIsSoFar(question, outcome, done, n % 2 == 0);
    RowSoFar(question, timings[..done], if n % 2 == 0 then UnderWay(outcome, done) else None, stage);
  }

  lemma TraceLength(question: string, outcome: Result<Response, PipelineError>)
    ensures |Trace(question, outcome)| == 2 * |TimingsOf(outcome)| + if outcome.Ok? then 2 else 4
  {
    PairsAreStageEvents(TimingsOf(outcome));
    hide Pairs;
  }

  lemma UnderWayIs(outcome: Result<Response, PipelineError>, done: nat)
    ensures UnderWay(outcome, done).Some? <==> done < |TimingsOf(outcome)| || outcome.Err?
  {
  }

  /** Before the first event every row is pending. */
  lemma NothingYet(stage: Stage)
    ensures RowFromEvents(stage, [], false) == Row(stage, Pending, None)
  {
  }

  /** What the three searches find once the failing stage has been reported. */
  lemma FindAfterFailure(question: string, e: PipelineError, stage: Stage)
    ensures var trace := Trace(question, Err(e));
            var events := trace[..|trace| - 1];
            && FindFirst<Event>(events, (x: Event) => IsFailed(stage, x)) ==
               (if stage == e.stage then Some(StageFailed(e.stage, e.ms, e.error)) else None)
            && FindFirst<Event>(events, (x: Event) => IsCompleted(stage, x)) ==
                 (match FindFirst(e.timings, (t: Timing) => t.stage == stage)
                  case Some(t) => Some(StageCompleted(stage, t.ms))
                  case None => None)
            && (stage != e.stage ==>
                  (FindFirst<Event>(events, (x: Event) => IsStarted(stage, x)).Some? <==>
                     FindFirst(e.timings, (t: Timing) => t.stage == stage).Some?))
  {
    var tail := [StageStarted(e.stage), StageFailed(e.stage, e.ms, e.error)];
    var isFailed := (x: Event) => IsFailed(stage, x);
    var isCompleted, isStarted := (x: Event) => IsCompleted(stage, x), (x: Event) => IsStarted(stage, x);
    FindTwo(tail[0], tail[1], isFailed);
    FindTwo(tail[0], tail[1], isCompleted);
    FindTwo(tail[0], tail[1], isStarted);
    FindInPairs(stage, e.timings);
    PairsAreStageEvents(e.timings);
    FindNothing(Pairs(e.timings), isFailed);
    AllButLast(question, e);
    hide FindFirst, Pairs, Trace;
    FindInTrace(question, Pairs(e.timings), tail, isFailed);
    FindInTrace(question, Pairs(e.timings), tail, isCompleted);
    FindInTrace(question, Pairs(e.timings), tail, isStarted);
  }

  lemma AllButLast(question: string, e: PipelineError)
    ensures var trace := Trace(question, Err(e));
            trace[..|trace| - 1] ==
            [PipelineStarted(question)] +
            (Pairs(e.timings) + [StageStarted(e.stage), StageFailed(e.stage, e.ms, e.error)])
  {
  }

  lemma FindTwo(x: Event, y: Event, p: Event -> bool)
    ensures FindFirst([x, y], p) == if p(x) then Some(x) else if p(y) then Some(y) else None
  {
    assert [x, y] == [x] + [y];
    FindAppend([x], [y], p);
    FindSingle(x, p);
    FindSingle(y, p);
  }

  /** Once the failing stage has been reported, and until the run is, only the stages not reached are still pending. */
  lemma FailedRow(question: string, e: PipelineError, stage: Stage)
    ensures var trace := Trace(question, Err(e));
            var row := RowFromEvents(stage, trace[..|trace| - 1], false);
            if stage == e.stage then row == Row(stage, FailedStage, Some(e.ms))
            else ShowsLive(row, stage, e.timings, None)
  {
    FindTiming(e.timings, stage);
    FindAfterFailure(question, e, stage);
    hide FindFirst, Trace, TimedFirst, Untimed;
  }

  /** There is one row for each stage that can run, in the order in which they run. */
  lemma RowsAreInStageOrder(events: seq<Event>, isTerminal: bool, timings: seq<Timing>)
    ensures |RowsFromEvents(events, isTerminal)| == |RowsFromTimings(timings)| == |StageOrder(true)|
    ensures forall i :: 0 <= i < |StageOrder(true)| ==>
              && RowsFromEvents(events, isTerminal)[i] == RowFromEvents(StageOrder(true)[i], events, isTerminal)
              && RowsFromTimings(timings)[i] == RowFromTimings(StageOrder(true)[i], timings)
  {
    assert PIPELINE_STAGES == StageOrder(true);
    hide RowFromEvents, RowFromTimings;
  }

  // ----- the trace itself, event by event

  /** Every run's events, one by one. */
  lemma TraceEventByEvent(question: string, outcome: Result<Response, PipelineError>)
    ensures var trace, timings := Trace(question, outcome), TimingsOf(outcome);
            var n := |timings|;
            && |trace| == 2 * n + (if outcome.Ok? then 2 else 4)
            && trace[0] == PipelineStarted(question)
            && (forall i :: 0 <= i < n ==>
                  && trace[2 * i + 1] == StageStarted(timings[i].stage)
                  && trace[2 * i + 2] == StageCompleted(timings[i].stage, timings[i].ms))
            && match outcome
               case Ok(r) => trace[2 * n + 1] == PipelineCompleted(r.status, r.error, r.answer)
               case Err(e) =>
                 && trace[2 * n + 1] == StageStarted(e.stage)
                 && trace[2 * n + 2] == StageFailed(e.stage, e.ms, e.error)
                 && trace[2 * n + 3] == PipelineFailed(e)
  {
    PairsAreStageEvents(TimingsOf(outcome));
    hide Pairs;
  }
}
