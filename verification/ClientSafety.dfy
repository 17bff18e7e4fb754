/** What every reachable state of client and server together keeps, and what that means for the stored token. */
module ClientSafety {
  import opened Wrappers
  import opened TokenStore
  import TP = TokenProtocol
  import opened ClientSession

  /** A transaction changes no call's kind, and begins at most one call. */
  lemma CallsStayCalls(s: TP.System, step: TP.Step)
    requires TP.Enabled(s, step)
    ensures s.rows.Keys <= TP.Next(s, step).rows.Keys
    ensures forall c :: c in s.calls ==>
              c in TP.Next(s, step).calls && TP.Next(s, step).calls[c].kind == s.calls[c].kind
    ensures forall c :: c in TP.Next(s, step).calls ==> c in s.calls || (step.Begin? && c == step.id)
  {
  }

  /** A token once issued stays the call's answer, and one newly issued was not stored before. */
  lemma IssuedTokens(s: TP.System, step: TP.Step, c: CallId)
    requires TP.Enabled(s, step) && c in s.calls
    ensures var before, after := s.calls[c].progress, TP.Next(s, step).calls[c].progress;
            if before.Issued? then after == before
            else after.Issued? ==> after.newJti !in s.rows
  {
    if c == step.id {
      hide TP.NextRows;
    }
  }

  /** All that the client needs to know about a transaction. */
  ghost predicate Extends(before: TP.System, after: TP.System) {
    && before.rows.Keys <= after.rows.Keys
    && (forall c :: c in before.calls ==>
          && c in after.calls
          && after.calls[c].kind == before.calls[c].kind
          && (before.calls[c].progress.Issued? ==> after.calls[c].progress == before.calls[c].progress)
          && (after.calls[c].progress.Issued? && !before.calls[c].progress.Issued?
              ==> after.calls[c].progress.newJti !in before.rows))
  }

  lemma ServerFacts(s: TP.System, step: TP.Step)
    requires TP.Inv(s) && TP.Enabled(s, step)
    ensures TP.Inv(TP.Next(s, step))
    ensures Extends(s, TP.Next(s, step))
    ensures forall c :: c in TP.Next(s, step).calls ==> c in s.calls || (step.Begin? && c == step.id)
  {
    hide TP.Next, TP.Inv, TP.Enabled;
    TP.InvStep(s, step);
    CallsStayCalls(s, step);
    forall c | c in s.calls
      ensures var before, after := s.calls[c].progress, TP.Next(s, step).calls[c].progress;
              if before.Issued? then after == before else after.Issued? ==> after.newJti !in s.rows
    {
      IssuedTokens(s, step, c);
    }
  }

  lemma ServerStepKeeps(w: World, step: TP.Step)
    requires Inv(w) && Enabled(w, Server(step))
    ensures Inv(Apply(w, Server(step)))
  {
    hide TP.Next, TP.Inv, TP.Enabled;
    ServerFacts(w.server, step);
    var w' := Apply(w, Server(step));
    forall c, jti | c in w'.server.calls && Presents(w'.server.calls[c], jti)
      ensures jti in w'.delivered
    {
      assert Presents(w.server.calls[c], jti);
    }
    if w'.store.refresh.Some? {
      forall c | c in w'.server.calls && Presents(w'.server.calls[c], w'.store.refresh.value)
        ensures Awaited(w', c)
      {
        assert Presents(w.server.calls[c], w.store.refresh.value);
        var t :| t in w.tasks && InFlight(w.tasks[t]) && Awaits(w.tasks[t]) == Some(c);
        assert t in w'.tasks && InFlight(w'.tasks[t]);
      }
    }
  }

  /** Replacing a task by one that awaits nothing, once the store holds no token that task was exchanging. */
  lemma QuietTaskKeeps(w: World, id: TaskId, t: Task)
    requires Inv(w) && Awaits(t).None?
    requires id in w.tasks && InFlight(w.tasks[id]) ==> w.store.refresh.None?
    requires t.Request? ==> t.sends <= 2 && (t.request.FirstSent? || t.request.AwaitingRefresh? ==> t.sends == 1)
    requires t.Refreshing? && !t.refresh.Closed? ==> w.refreshPromise == Some(id)
    ensures Inv(SetTask(w, id, t))
  {
    var w' := SetTask(w, id, t);
    StoredSurvives(w, w');
  }

  lemma StoredSurvives(w: World, w': World)
    requires StoredOk(w) && w'.server == w.server && w'.store.refresh == w.store.refresh
    requires w.store.refresh.Some? ==>
               forall t :: t in w.tasks && InFlight(w.tasks[t]) ==> t in w'.tasks && w'.tasks[t] == w.tasks[t]
    ensures StoredOk(w')
  {
    if w'.store.refresh.Some? {
      forall c | c in w'.server.calls && Presents(w'.server.calls[c], w'.store.refresh.value)
        ensures Awaited(w', c)
      {
        var t :| t in w.tasks && InFlight(w.tasks[t]) && Awaits(w.tasks[t]) == Some(c);
        assert t in w'.tasks && InFlight(w'.tasks[t]) && Awaits(w'.tasks[t]) == Some(c);
      }
    }
  }

  lemma ClearingKeeps(w: World)
    requires Inv(w)
    ensures Inv(w.(store := w.store.Clear()))
  {
  }

  lemma RelabellingKeeps(w: World, status: Status, user: bool)
    requires Inv(w)
    ensures Inv(w.(store := w.store.(status := status, user := user)))
  {
    StoredSurvives(w, w.(store := w.store.(status := status, user := user)));
  }

  lemma IssuedIsStored(s: TP.System, call: CallId, pair: Jti)
    requires TP.Inv(s) && call in s.calls && s.calls[call].progress == TP.Issued(pair)
    ensures pair in s.rows
    ensures forall other :: other in s.calls && s.calls[other].progress == TP.Issued(pair) ==> other == call
  {
    assert TP.CallOk(s, s.calls[call]);
  }

  ghost predicate CanReceive(w: World, id: TaskId, call: CallId, pair: Jti, t: Task) {
    && Inv(w) && id in w.tasks && Awaits(w.tasks[id]) == Some(call)
    && w.server.calls[call].progress == TP.Issued(pair)
    && Awaits(t).None? && !t.Request?
    && (t.Refreshing? && !t.refresh.Closed? ==> w.refreshPromise == Some(id))
  }

  lemma ReceivingKeepsAwaits(w: World, id: TaskId, call: CallId, pair: Jti, t: Task)
    requires CanReceive(w, id, call, pair, t)
    ensures AwaitsOk(SetTask(Receive(w, pair), id, t))
  {
    IssuedIsStored(w.server, call, pair);
    hide TP.Inv, DeliveredOk, StoredOk, PromiseOk, SendsOk;
  }

  /** A pair arrives: its token is new to the client, so nothing has presented it. */
  lemma ReceivingKeepsTokens(w: World, id: TaskId, call: CallId, pair: Jti, t: Task)
    requires CanReceive(w, id, call, pair, t)
    ensures DeliveredOk(SetTask(Receive(w, pair), id, t)) && StoredOk(SetTask(Receive(w, pair), id, t))
  {
    IssuedIsStored(w.server, call, pair);
    hide TP.Inv, AwaitsDistinct, StoredOk, PromiseOk, SendsOk;
    assert pair !in w.delivered;
    NothingPresents(SetTask(Receive(w, pair), id, t), pair);
  }

  lemma NothingPresents(w: World, jti: Jti)
    requires w.store.refresh == Some(jti)
    requires forall c :: c in w.server.calls ==> !Presents(w.server.calls[c], jti)
    ensures StoredOk(w)
  {
  }

  lemma ReceivingKeepsTasks(w: World, id: TaskId, call: CallId, pair: Jti, t: Task)
    requires CanReceive(w, id, call, pair, t)
    ensures var w' := SetTask(Receive(w, pair), id, t);
            AwaitsDistinct(w') && PromiseOk(w') && SendsOk(w')
  {
    hide TP.Inv, AwaitsOk, DeliveredOk, StoredOk;
  }

  lemma ReceivingKeeps(w: World, id: TaskId, call: CallId, pair: Jti, t: Task)
    requires CanReceive(w, id, call, pair, t)
    ensures Inv(SetTask(Receive(w, pair), id, t))
  {
    ReceivingKeepsAwaits(w, id, call, pair, t);
    ReceivingKeepsTokens(w, id, call, pair, t);
    ReceivingKeepsTasks(w, id, call, pair, t);
    hide TP.Inv, AwaitsOk, AwaitsDistinct, DeliveredOk, StoredOk, PromiseOk, SendsOk;
  }

  /** A new call on the server, awaited by a new refresh of the stored token or by a new login. */
  function Called(w: World, id: TaskId, call: CallId, kind: TP.Kind, t: Task): World
    requires call !in w.server.calls
  {
    SetTask(CallServer(if t.Refreshing? then w.(refreshPromise := Some(id)) else w, call, kind), id, t)
  }

  ghost predicate CanCall(w: World, id: TaskId, call: CallId, kind: TP.Kind, t: Task) {
    && Inv(w) && id !in w.tasks && call !in w.server.calls
    && Awaits(t) == Some(call)
    && (kind.Login? || (kind.Refresh? && w.store.refresh == Some(kind.jti) && InFlight(t)))
    && (t.Refreshing? ==> w.refreshPromise.None?)
  }

  lemma CallingKeepsStored(w: World, id: TaskId, call: CallId, kind: TP.Kind, t: Task)
    requires CanCall(w, id, call, kind, t)
    ensures StoredOk(Called(w, id, call, kind, t))
  {
    var w' := Called(w, id, call, kind, t);
    if w'.store.refresh.Some? {
      forall c | c in w'.server.calls && Presents(w'.server.calls[c], w'.store.refresh.value)
        ensures Awaited(w', c)
      {
        if c == call {
          assert id in w'.tasks && InFlight(w'.tasks[id]);
        } else {
          assert Presents(w.server.calls[c], w.store.refresh.value);
          var u :| u in w.tasks && InFlight(w.tasks[u]) && Awaits(w.tasks[u]) == Some(c);
          assert u in w'.tasks && InFlight(w'.tasks[u]);
        }
      }
    }
  }

  lemma CallingKeepsDelivered(w: World, id: TaskId, call: CallId, kind: TP.Kind, t: Task)
    requires CanCall(w, id, call, kind, t)
    ensures DeliveredOk(Called(w, id, call, kind, t))
  {
    var w' := Called(w, id, call, kind, t);
    forall c, jti | c in w'.server.calls && Presents(w'.server.calls[c], jti)
      ensures jti in w'.delivered
    {
      if c != call {
        assert Presents(w.server.calls[c], jti);
      }
    }
  }

  lemma CallingKeepsTasks(w: World, id: TaskId, call: CallId, kind: TP.Kind, t: Task)
    requires CanCall(w, id, call, kind, t)
    ensures var w' := Called(w, id, call, kind, t);
            AwaitsOk(w') && AwaitsDistinct(w') && PromiseOk(w') && SendsOk(w')
  {
    hide TP.Inv, TP.NextRows, StoredOk, DeliveredOk;
  }

  lemma CallingKeeps(w: World, id: TaskId, call: CallId, kind: TP.Kind, t: Task)
    requires CanCall(w, id, call, kind, t)
    ensures Inv(Called(w, id, call, kind, t))
  {
    CallingKeepsStored(w, id, call, kind, t);
    CallingKeepsDelivered(w, id, call, kind, t);
    CallingKeepsTasks(w, id, call, kind, t);
    TP.InvStep(w.server, TP.Begin(call, kind));
    hide TP.Inv, AwaitsOk, AwaitsDistinct, PromiseOk, SendsOk, StoredOk, DeliveredOk;
  }

  // ----- one action at a time

  lemma JoinRefreshKeeps(w: World, task: TaskId, newTask: TaskId, newCall: CallId)
    requires Inv(w)
    requires task in w.tasks && w.tasks[task].Request? && w.tasks[task].request.FirstSent?
    requires newTask !in w.tasks && newCall !in w.server.calls
    ensures Inv(JoinRefresh(w, task, newTask, newCall))
  {
    hide TP.Inv, TP.Next, TP.Enabled;
    var w' := JoinRefresh(w, task, newTask, newCall);
    if w.refreshPromise.Some? {
      QuietTaskKeeps(w, task, w.tasks[task].(request := AwaitingRefresh(w.refreshPromise.value)));
    } else {
      var waiting := w.tasks[task].(request := AwaitingRefresh(newTask));
      var started;
      if w.store.refresh.Some? {
        var kind, t := TP.Refresh(w.store.refresh.value), Refreshing(Exchanging(newCall));
        CallingKeeps(w, newTask, newCall, kind, t);
        started := Called(w, newTask, newCall, kind, t);
      } else {
        started := SetTask(w, newTask, Refreshing(Settled(None))).(refreshPromise := Some(newTask));
        assert Inv(started);
      }
      QuietTaskKeeps(started, task, waiting);
      assert w'.tasks == SetTask(started, task, waiting).tasks;
    }
  }

  lemma EndSessionKeeps(w: World, task: TaskId)
    requires Inv(w) && task in w.tasks && (w.tasks[task].LoggingIn? || w.tasks[task].Restoring?)
    ensures Inv(EndSession(w, task))
  {
    ClearingKeeps(w);
    QuietTaskKeeps(w.(store := w.store.Clear()), task, w.tasks[task].(session := Over));
  }

  lemma RefreshLostKeeps(w: World, task: TaskId)
    requires Inv(w) && Enabled(w, RefreshLost(task))
    ensures Inv(OnRefreshLost(w, task))
  {
    ClearingKeeps(w);
    QuietTaskKeeps(w.(store := w.store.Clear()), task, Refreshing(Settled(None)));
  }

  lemma TokensAnsweredKeeps(w: World, task: TaskId, newTask: TaskId)
    requires Inv(w) && Enabled(w, TokensAnswered(task, newTask))
    ensures Inv(OnTokensAnswered(w, task, newTask))
  {
    hide TP.Inv;
    var call := w.tasks[task].session.call;
    match w.server.calls[call].progress
    case Issued(pair) =>
      var loading := w.tasks[task].(session := LoadingUser(newTask));
      ReceivingKeeps(w, task, call, pair, loading);
      QuietTaskKeeps(SetTask(Receive(w, pair), task, loading), newTask, Request(true, FirstSent, 1));
    case _ => EndSessionKeeps(w, task);
  }

  lemma BeginRestoreKeeps(w: World, task: TaskId, newCall: CallId)
    requires Inv(w) && Enabled(w, BeginRestore(task, newCall))
    ensures Inv(OnBeginRestore(w, task, newCall))
  {
    if w.store.refresh.Some? {
      RelabellingKeeps(w, Authenticating, w.store.user);
      CallingKeeps(w.(store := w.store.(status := Authenticating)), task, newCall,
                   TP.Refresh(w.store.refresh.value), Restoring(AwaitingTokens(newCall)));
    } else {
      RelabellingKeeps(w, Unauthenticated, w.store.user);
      QuietTaskKeeps(w.(store := w.store.(status := Unauthenticated)), task, Restoring(Over));
    }
  }

  lemma BeginLogoutKeeps(w: World, newCall: CallId)
    requires Inv(w) && newCall !in w.server.calls
    ensures Inv(OnBeginLogout(w, newCall))
  {
    ClearingKeeps(w);
    if w.store.refresh.Some? {
      ServerFacts(w.server, TP.Begin(newCall, TP.Logout(w.store.refresh.value)));
      var w' := OnBeginLogout(w, newCall);
      forall c, jti | c in w'.server.calls && Presents(w'.server.calls[c], jti)
        ensures jti in w'.delivered
      {
        if c != newCall {
          assert Presents(w.server.calls[c], jti);
        }
      }
    }
  }

  lemma ReloadKeeps(w: World)
    requires Inv(w) && Enabled(w, Reload)
    ensures Inv(Apply(w, Reload))
  {
    StoredSurvives(w, Apply(w, Reload));
  }

  lemma ClosePromiseKeeps(w: World, task: TaskId)
    requires Inv(w) && Enabled(w, ClosePromise(task))
    ensures Inv(Apply(w, ClosePromise(task)))
  {
    StoredSurvives(w, Apply(w, ClosePromise(task)));
  }

  lemma AnswerKeeps(w: World, task: TaskId, reply: Reply, newTask: TaskId, newCall: CallId)
    requires Inv(w) && Enabled(w, Answer(task, reply, newTask, newCall))
    ensures Inv(OnAnswer(w, task, reply, newTask, newCall))
  {
    if reply == Unauthorized && w.tasks[task].retries && w.tasks[task].request == FirstSent {
      JoinRefreshKeeps(w, task, newTask, newCall);
    } else {
      var t := w.tasks[task];
      var waitedFor := if t.request.SecondSent? then Some(t.request.leader) else None;
      QuietTaskKeeps(w, task, t.(request := Finished(reply == Accepted, waitedFor)));
    }
  }

  lemma RefreshAnsweredKeeps(w: World, task: TaskId)
    requires Inv(w) && Enabled(w, RefreshAnswered(task))
    ensures Inv(OnRefreshAnswered(w, task))
  {
    hide TP.Inv;
    var call := w.tasks[task].refresh.call;
    match w.server.calls[call].progress
    case Issued(pair) => ReceivingKeeps(w, task, call, pair, Refreshing(Settled(Some(pair))));
    case _ => RefreshLostKeeps(w, task);
  }

  lemma ResumeKeeps(w: World, task: TaskId)
    requires Inv(w) && Enabled(w, Resume(task))
    ensures Inv(OnResume(w, task))
  {
    var t := w.tasks[task];
    if w.tasks[t.request.leader].refresh.granted.Some? {
      QuietTaskKeeps(w, task, t.(request := SecondSent(t.request.leader), sends := t.sends + 1));
    } else {
      QuietTaskKeeps(w, task, t.(request := Finished(false, Some(t.request.leader))));
    }
  }

  lemma UserAnsweredKeeps(w: World, task: TaskId)
    requires Inv(w) && Enabled(w, UserAnswered(task))
    ensures Inv(OnUserAnswered(w, task))
  {
    if w.tasks[w.tasks[task].session.request].request.ok {
      RelabellingKeeps(w, Authenticated, true);
      var labelled := w.(store := w.store.(status := Authenticated, user := true));
      QuietTaskKeeps(labelled, task, w.tasks[task].(session := Over));
    } else {
      EndSessionKeeps(w, task);
    }
  }

  lemma InvStep(w: World, a: Action)
    requires Inv(w) && Enabled(w, a)
    ensures Inv(Apply(w, a))
  {
    match a
    case Server(step) => ServerStepKeeps(w, step);
    case SendRequest(task, retries) => QuietTaskKeeps(w, task, Request(retries, FirstSent, 1));
    case Answer(task, reply, newTask, newCall) => AnswerKeeps(w, task, reply, newTask, newCall);
    case RefreshAnswered(task) => RefreshAnsweredKeeps(w, task);
    case RefreshLost(task) => RefreshLostKeeps(w, task);
    case ClosePromise(task) => ClosePromiseKeeps(w, task);
    case Resume(task) => ResumeKeeps(w, task);
    case BeginLogin(task, newCall, userId) =>
      RelabellingKeeps(w, Authenticating, w.store.user);
      CallingKeeps(w.(store := w.store.(status := Authenticating)), task, newCall,
                   TP.Login(userId), LoggingIn(AwaitingTokens(newCall)));
    case BeginRestore(task, newCall) => BeginRestoreKeeps(w, task, newCall);
    case TokensAnswered(task, newTask) => TokensAnsweredKeeps(w, task, newTask);
    case TokensLost(task) => EndSessionKeeps(w, task);
    case UserAnswered(task) => UserAnsweredKeeps(w, task);
    case BeginLogout(newCall) => BeginLogoutKeeps(w, newCall);
    case Reload => ReloadKeeps(w);
  }

  lemma {:induction false} InvRun(actions: seq<Action>)
    requires Run(actions).Some?
    ensures Inv(Run(actions).value)
  {
    if actions != [] {
      InvRun(actions[..|actions| - 1]);
      InvStep(Run(actions[..|actions| - 1]).value, actions[|actions| - 1]);
    }
  }

  // ----- theorems over every run

  /** Concurrent 401s share one refresh: no two refreshes started by `request` are ever in flight together. */
  lemma RefreshIsSingleFlight(actions: seq<Action>, t: TaskId, u: TaskId)
    requires Run(actions).Some?
    requires t in Run(actions).value.tasks && Run(actions).value.tasks[t].Refreshing?
    requires u in Run(actions).value.tasks && Run(actions).value.tasks[u].Refreshing?
    requires InFlight(Run(actions).value.tasks[t]) && InFlight(Run(actions).value.tasks[u])
    ensures t == u && Run(actions).value.refreshPromise == Some(t)
  {
    InvRun(actions);
  }

  lemma EachRequestIsSentAtMostTwice(actions: seq<Action>, t: TaskId)
    requires Run(actions).Some? && t in Run(actions).value.tasks && Run(actions).value.tasks[t].Request?
    ensures Run(actions).value.tasks[t].sends <= 2
  {
    InvRun(actions);
  }

  /** With no refresh in flight, the token in the store was issued by the server and is not revoked. */
  lemma StoredTokenIsLive(actions: seq<Action>)
    requires Run(actions).Some? && Run(actions).value.store.refresh.Some?
    requires forall t :: t in Run(actions).value.tasks ==> !InFlight(Run(actions).value.tasks[t])
    ensures var w := Run(actions).value;
            var jti := w.store.refresh.value;
            && jti in w.server.rows && !w.server.rows[jti].revoked
            && forall c :: c in w.server.calls ==> !Presents(w.server.calls[c], jti)
  {
    InvRun(actions);
    var w := Run(actions).value;
    var jti := w.store.refresh.value;
    if w.server.rows[jti].revoked {
      var c :| c in w.server.calls && TP.RevokedFor(w.server.calls[c], jti);
      assert Presents(w.server.calls[c], jti);
    }
  }
}
