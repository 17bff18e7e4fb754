/** What becomes of a request answered 401: whether it is sent again, and with what outcome (`services/api.ts`). */
module ClientRetries {
  import opened Wrappers
  import opened TokenStore
  import TP = TokenProtocol
  import opened ClientSession
  import ClientSafety

  /** The refresh has ended and its promise resolved to this. */
  predicate Brought(w: World, leader: TaskId, granted: Option<Jti>) {
    leader in w.tasks && w.tasks[leader].Refreshing? && w.tasks[leader].refresh == Closed(granted)
  }

  /** Sent once until a refresh it waited for has brought a token, twice from then on; failed if it brought none. */
  ghost predicate RequestOk(w: World, t: Task)
    requires t.Request?
  {
    match t.request
    case FirstSent => t.sends == 1
    case AwaitingRefresh(leader) => t.sends == 1 && t.retries && leader in w.tasks && w.tasks[leader].Refreshing?
    case SecondSent(leader) => t.sends == 2 && t.retries && exists pair :: Brought(w, leader, Some(pair))
    case Finished(ok, None) => t.sends == 1
    case Finished(ok, Some(leader)) =>
      && t.retries
      && ((t.sends == 2 && exists pair :: Brought(w, leader, Some(pair))) ||
          (t.sends == 1 && !ok && Brought(w, leader, None)))
  }

  ghost predicate RetriesOk(w: World) {
    forall t :: t in w.tasks && w.tasks[t].Request? ==> RequestOk(w, w.tasks[t])
  }

  /** A refresh of some token by the server, answered with this pair. */
  ghost predicate GrantedBy(s: TP.System, call: CallId, pair: Jti) {
    call in s.calls && s.calls[call].kind.Refresh? && s.calls[call].progress == TP.Issued(pair)
  }

  /** A task awaits the kind of call it made, or its own request; what a refresh brought was granted by the server. */
  ghost predicate TaskOk(w: World, t: Task) {
    match t
    case Refreshing(Exchanging(call)) => call in w.server.calls && w.server.calls[call].kind.Refresh?
    case Refreshing(Settled(granted)) => granted.Some? ==> exists call :: GrantedBy(w.server, call, granted.value)
    case Refreshing(Closed(granted)) => granted.Some? ==> exists call :: GrantedBy(w.server, call, granted.value)
    case LoggingIn(AwaitingTokens(call)) => call in w.server.calls && w.server.calls[call].kind.Login?
    case Restoring(AwaitingTokens(call)) => call in w.server.calls && w.server.calls[call].kind.Refresh?
    case LoggingIn(LoadingUser(request)) => request in w.tasks && w.tasks[request].Request?
    case Restoring(LoadingUser(request)) => request in w.tasks && w.tasks[request].Request?
    case _ => true
  }

  ghost predicate TasksOk(w: World) {
    forall t :: t in w.tasks ==> TaskOk(w, w.tasks[t])
  }

  // ----- what an action leaves alone

  /** Calls keep their kind and what they issued. */
  ghost predicate CallsContinue(s: TP.System, s': TP.System) {
    forall c :: c in s.calls ==>
      && c in s'.calls && s'.calls[c].kind == s.calls[c].kind
      && (s.calls[c].progress.Issued? ==> s'.calls[c].progress == s.calls[c].progress)
  }

  /** Tasks stay what they are, and a refresh once closed for good. */
  ghost predicate TasksContinue(w: World, w': World) {
    forall t :: t in w.tasks ==>
      && t in w'.tasks
      && (w.tasks[t].Request? ==> w'.tasks[t].Request?)
      && (w.tasks[t].Refreshing? ==>
            w'.tasks[t].Refreshing? && (w.tasks[t].refresh.Closed? ==> w'.tasks[t] == w.tasks[t]))
  }

  ghost predicate Continues(w: World, w': World) {
    CallsContinue(w.server, w'.server) && TasksContinue(w, w')
  }

  lemma ServerContinues(s: TP.System, step: TP.Step)
    requires TP.Enabled(s, step)
    ensures CallsContinue(s, TP.Next(s, step))
  {
    hide TP.NextRows;
  }

  lemma TasksGoOn(w: World, a: Action)
    requires Enabled(w, a) && !a.Reload?
    ensures TasksContinue(w, Apply(w, a))
  {
    hide TP.Next, TP.Enabled;
  }

  lemma CallsGoOn(w: World, a: Action)
    requires Enabled(w, a)
    ensures CallsContinue(w.server, Apply(w, a).server)
  {
    assert CallsContinue(w.server, w.server);
    forall step | TP.Enabled(w.server, step)
      ensures CallsContinue(w.server, TP.Next(w.server, step))
    {
      ServerContinues(w.server, step);
    }
    hide TP.Next, CallsContinue;
  }

  lemma ActionContinues(w: World, a: Action)
    requires Enabled(w, a) && !a.Reload?
    ensures Continues(w, Apply(w, a))
  {
    hide Apply, Enabled;
    TasksGoOn(w, a);
    CallsGoOn(w, a);
  }

  lemma RequestStaysOk(w: World, w': World, t: Task)
    requires Continues(w, w') && t.Request? && RequestOk(w, t)
    ensures RequestOk(w', t)
  {
  }

  lemma TaskStaysOk(w: World, w': World, t: Task)
    requires Continues(w, w') && TaskOk(w, t)
    ensures TaskOk(w', t)
  {
    forall call, pair | GrantedBy(w.server, call, pair)
      ensures GrantedBy(w'.server, call, pair)
    {
    }
  }

  // ----- one action

  ghost predicate PromiseIsRefresh(w: World) {
    w.refreshPromise.Some? ==> w.refreshPromise.value in w.tasks && w.tasks[w.refreshPromise.value].Refreshing?
  }

  ghost predicate AllOk(w: World) {
    Inv(w) && RetriesOk(w) && TasksOk(w) && PromiseIsRefresh(w)
  }

  lemma AnsweredRequestOk(w: World, task: TaskId, reply: Reply, newTask: TaskId, newCall: CallId)
    requires AllOk(w) && Enabled(w, Answer(task, reply, newTask, newCall))
    ensures var w' := OnAnswer(w, task, reply, newTask, newCall);
            w'.tasks[task].Request? && RequestOk(w', w'.tasks[task])
  {
    hide TP.Next, Inv, TasksOk;
    var w' := OnAnswer(w, task, reply, newTask, newCall);
    assert RequestOk(w, w.tasks[task]);
    if w.tasks[task].request.SecondSent? {
      var pair :| Brought(w, w.tasks[task].request.leader, Some(pair));
      assert Brought(w', w.tasks[task].request.leader, Some(pair));
    }
  }

  lemma ResumedRequestOk(w: World, task: TaskId)
    requires AllOk(w) && Enabled(w, Resume(task))
    ensures var w' := OnResume(w, task); w'.tasks[task].Request? && RequestOk(w', w'.tasks[task])
  {
    hide TP.Next, Inv, TasksOk;
    var w', leader := OnResume(w, task), w.tasks[task].request.leader;
    assert RequestOk(w, w.tasks[task]);
    assert Brought(w', leader, w.tasks[leader].refresh.granted);
  }

  lemma RetriesStep(w: World, a: Action)
    requires AllOk(w) && Enabled(w, a) && !a.Reload?
    ensures RetriesOk(Apply(w, a))
  {
    var w' := Apply(w, a);
    ActionContinues(w, a);
    hide TP.Next, Inv, TasksOk, RequestOk, Continues;
    forall t | t in w'.tasks && w'.tasks[t].Request?
      ensures RequestOk(w', w'.tasks[t])
    {
      if t in w.tasks && w'.tasks[t] == w.tasks[t] {
        RequestStaysOk(w, w', w.tasks[t]);
      } else {
        ChangedRequestOk(w, a, t);
      }
    }
  }

  lemma ChangedRequestOk(w: World, a: Action, t: TaskId)
    requires AllOk(w) && Enabled(w, a) && !a.Reload?
    requires t in Apply(w, a).tasks && Apply(w, a).tasks[t].Request?
    requires t in w.tasks ==> Apply(w, a).tasks[t] != w.tasks[t]
    ensures RequestOk(Apply(w, a), Apply(w, a).tasks[t])
  {
    hide TP.Next, Inv, TasksOk;
    match a
    case Answer(task, reply, newTask, newCall) => AnsweredRequestOk(w, task, reply, newTask, newCall);
    case Resume(task) => ResumedRequestOk(w, task);
    case _ =>
  }

  lemma TasksStep(w: World, a: Action)
    requires AllOk(w) && Enabled(w, a) && !a.Reload?
    ensures TasksOk(Apply(w, a))
  {
    var w' := Apply(w, a);
    ActionContinues(w, a);
    hide TP.Next, Inv, RetriesOk, TaskOk, Continues;
    forall t | t in w'.tasks
      ensures TaskOk(w', w'.tasks[t])
    {
      if t in w.tasks && w'.tasks[t] == w.tasks[t] {
        TaskStaysOk(w, w', w.tasks[t]);
      } else {
        ChangedTaskOk(w, a, t);
      }
    }
  }

  lemma BegunCall(s: TP.System, call: CallId, kind: TP.Kind)
    requires call !in s.calls
    ensures call in TP.Next(s, TP.Begin(call, kind)).calls && TP.Next(s, TP.Begin(call, kind)).calls[call].kind == kind
  {
  }

  lemma ChangedTaskOk(w: World, a: Action, t: TaskId)
    requires AllOk(w) && Enabled(w, a) && !a.Reload?
    requires t in Apply(w, a).tasks && (t in w.tasks ==> Apply(w, a).tasks[t] != w.tasks[t])
    ensures TaskOk(Apply(w, a), Apply(w, a).tasks[t])
  {
    hide TP.Next, Inv, RetriesOk;
    match a
    case Answer(task, reply, newTask, newCall) => AnsweredTaskOk(w, task, reply, newTask, newCall, t);
    case RefreshAnswered(task) => RefreshAnsweredOk(w, task);
    case ClosePromise(task) => assert TaskOk(w, w.tasks[task]);
    case BeginLogin(_, newCall, userId) => BegunCall(w.server, newCall, TP.Login(userId));
    case BeginRestore(task, newCall) =>
      if w.store.refresh.Some? {
        BegunCall(w.server, newCall, TP.Refresh(w.store.refresh.value));
      }
    case _ =>
  }

  lemma RefreshAnsweredOk(w: World, task: TaskId)
    requires AllOk(w) && Enabled(w, RefreshAnswered(task))
    ensures TaskOk(OnRefreshAnswered(w, task), OnRefreshAnswered(w, task).tasks[task])
  {
    hide Inv, RetriesOk;
    assert TaskOk(w, w.tasks[task]);
    var call := w.tasks[task].refresh.call;
    if w.server.calls[call].progress.Issued? {
      assert GrantedBy(OnRefreshAnswered(w, task).server, call, w.server.calls[call].progress.newJti);
    }
  }

  lemma AnsweredTaskOk(w: World, task: TaskId, reply: Reply, newTask: TaskId, newCall: CallId, t: TaskId)
    requires AllOk(w) && Enabled(w, Answer(task, reply, newTask, newCall))
    requires t in OnAnswer(w, task, reply, newTask, newCall).tasks && (t == task || t !in w.tasks)
    ensures TaskOk(OnAnswer(w, task, reply, newTask, newCall), OnAnswer(w, task, reply, newTask, newCall).tasks[t])
  {
    hide TP.Next, Inv, RetriesOk, TasksOk;
    if w.store.refresh.Some? {
      BegunCall(w.server, newCall, TP.Refresh(w.store.refresh.value));
    }
  }

  lemma {:induction false} AllOkRun(actions: seq<Action>)
    requires Run(actions).Some?
    ensures AllOk(Run(actions).value)
  {
    ClientSafety.InvRun(actions);
    if actions != [] {
      var w, a := Run(actions[..|actions| - 1]).value, actions[|actions| - 1];
      AllOkRun(actions[..|actions| - 1]);
      if !a.Reload? {
        hide Run, Inv, RetriesOk, TasksOk;
        RetriesStep(w, a);
        TasksStep(w, a);
        PromiseStep(w, a);
      }
    }
  }

  lemma PromiseStep(w: World, a: Action)
    requires PromiseIsRefresh(w) && Enabled(w, a) && !a.Reload?
    ensures PromiseIsRefresh(Apply(w, a))
  {
    ActionContinues(w, a);
    hide TP.Next;
  }

  // ----- theorems over every run

  /** The refresh that the request waited for, once it has gone on. */
  function WaitedFor(t: Task): Option<TaskId>
    requires t.Request?
  {
    match t.request
    case SecondSent(leader) => Some(leader)
    case Finished(_, waitedFor) => waitedFor
    case _ => None
  }

  ghost predicate BroughtGrantedPair(w: World, leader: TaskId) {
    exists call, pair :: Brought(w, leader, Some(pair)) && GrantedBy(w.server, call, pair)
  }

  /**
    A request is sent a second time exactly when the refresh it waited for brought a pair that the server had issued
    for a refresh; when that brought none, it ends failed after one send.
   */
  lemma SentAgainIffGranted(actions: seq<Action>, t: TaskId)
    requires Run(actions).Some? && t in Run(actions).value.tasks && Run(actions).value.tasks[t].Request?
    ensures var w := Run(actions).value;
            var r := w.tasks[t];
            && 1 <= r.sends <= 2
            && (r.sends == 2 <==> WaitedFor(r).Some? && BroughtGrantedPair(w, WaitedFor(r).value))
            && (WaitedFor(r).Some? && r.sends == 1 ==>
                  Brought(w, WaitedFor(r).value, None) && r.request.Finished? && !r.request.ok)
            && (!r.retries ==> r.request.FirstSent? || (r.request.Finished? && r.request.waitedFor.None?))
  {
    AllOkRun(actions);
    hide Run, Inv;
    var w := Run(actions).value;
    var r := w.tasks[t];
    assert RequestOk(w, r);
    if r.sends == 2 {
      var leader := WaitedFor(r).value;
      var pair :| Brought(w, leader, Some(pair));
      assert TaskOk(w, w.tasks[leader]);
      var call :| GrantedBy(w.server, call, pair);
    }
  }

  lemma RunSnoc(actions: seq<Action>, a: Action)
    requires Run(actions).Some? && Enabled(Run(actions).value, a)
    ensures Run(actions + [a]) == Some(Apply(Run(actions).value, a))
  {
    assert (actions + [a])[..|actions|] == actions;
  }

  lemma {:induction false} FreshNat(used: set<nat>) returns (n: nat)
    ensures forall m :: m in used ==> m < n
    decreases |used|
  {
    n := 0;
    if used != {} {
      var m :| m in used;
      var k := FreshNat(used - {m});
      n := k + m + 1;
      assert forall other :: other in used ==> other == m || other in used - {m};
    }
  }

  predicate WaitsFor(w: World, t: TaskId, leader: TaskId) {
    t in w.tasks && w.tasks[t].Request? && w.tasks[t].request == AwaitingRefresh(leader)
  }

  /** The refresh has brought a token, or the server has granted one and the client has yet to hear of it. */
  predicate Granting(w: World, leader: TaskId) {
    && leader in w.tasks && w.tasks[leader].Refreshing?
    && match w.tasks[leader].refresh
       case Exchanging(call) => call in w.server.calls && w.server.calls[call].progress.Issued?
       case Settled(granted) => granted.Some?
       case Closed(granted) => granted.Some?
  }

  predicate Succeeds(w: World, t: TaskId) {
    && t in w.tasks && w.tasks[t].Request?
    && w.tasks[t].request.Finished? && w.tasks[t].request.ok && w.tasks[t].sends == 2
  }

  lemma ResumeAndSucceed(actions: seq<Action>, t: TaskId, leader: TaskId, pair: Jti) returns (longer: seq<Action>)
    requires Run(actions).Some? && WaitsFor(Run(actions).value, t, leader)
    requires Brought(Run(actions).value, leader, Some(pair))
    ensures actions <= longer && Run(longer).Some? && Succeeds(Run(longer).value, t)
  {
    AllOkRun(actions);
    var w := Run(actions).value;
    assert RequestOk(w, w.tasks[t]);
    var newTask := FreshNat(w.tasks.Keys);
    var newCall := FreshNat(w.server.calls.Keys);
    RunSnoc(actions, Resume(t));
    longer := actions + [Resume(t)];
    RunSnoc(longer, Answer(t, Accepted, newTask, newCall));
    longer := longer + [Answer(t, Accepted, newTask, newCall)];
  }

  /** A waiting request whose refresh is granted can still succeed, whatever has happened before. */
  lemma GrantedRequestCanSucceed(actions: seq<Action>, t: TaskId, leader: TaskId) returns (longer: seq<Action>)
    requires Run(actions).Some? && WaitsFor(Run(actions).value, t, leader) && Granting(Run(actions).value, leader)
    ensures actions <= longer && Run(longer).Some? && Succeeds(Run(longer).value, t)
  {
    var w := Run(actions).value;
    longer := actions;
    if w.tasks[leader].refresh.Exchanging? {
      RunSnoc(actions, RefreshAnswered(leader));
      longer := actions + [RefreshAnswered(leader)];
    }
    hide Run;
    if Run(longer).value.tasks[leader].refresh.Settled? {
      RunSnoc(longer, ClosePromise(leader));
      longer := longer + [ClosePromise(leader)];
    }
    longer := ResumeAndSucceed(longer, t, leader, Run(longer).value.tasks[leader].refresh.granted.value);
  }
}
