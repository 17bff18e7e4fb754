/** The client can always get somewhere: from every reachable state a login can succeed, and a logout signs out. */
module ClientProgress {
  import opened Wrappers
  import opened TokenStore
  import TP = TokenProtocol
  import TokenReuse
  import opened ClientSession
  import opened ClientRetries
  import opened ClientStore

  /** The login has been sent and the server has issued this pair for it. */
  predicate LoginGranted(w: World, task: TaskId, call: CallId, userId: UserId, pair: Jti) {
    && task in w.tasks && w.tasks[task] == LoggingIn(AwaitingTokens(call))
    && call in w.server.calls && w.server.calls[call].progress == TP.Issued(pair)
    && pair in w.server.rows && w.server.rows[pair].userId == userId && !w.server.rows[pair].revoked
  }

  lemma LoginIsGranted(actions: seq<Action>, userId: UserId)
    returns (longer: seq<Action>, task: TaskId, call: CallId, pair: Jti)
    requires Run(actions).Some?
    ensures actions <= longer && Run(longer).Some? && LoginGranted(Run(longer).value, task, call, userId, pair)
  {
    var w := Run(actions).value;
    task := FreshNat(w.tasks.Keys);
    call := FreshNat(w.server.calls.Keys);
    var n := TokenReuse.LongerThanAll(w.server.rows.Keys);
    pair := seq(n, _ => 'j');
    RunSnoc(actions, BeginLogin(task, call, userId));
    longer := actions + [BeginLogin(task, call, userId)];
    RunSnoc(longer, Server(TP.DoStore(call, pair, 9)));
    longer := longer + [Server(TP.DoStore(call, pair, 9))];
  }

  /** The pair has arrived and the user record is being fetched. */
  predicate LoadingWith(w: World, task: TaskId, request: TaskId, pair: Jti) {
    && task in w.tasks && w.tasks[task] == LoggingIn(LoadingUser(request))
    && request in w.tasks && w.tasks[request] == Request(true, FirstSent, 1)
    && w.store.access == Some(pair) && w.store.refresh == Some(pair)
  }

  lemma GrantedLoginLoads(actions: seq<Action>, task: TaskId, call: CallId, userId: UserId, pair: Jti)
    returns (longer: seq<Action>, request: TaskId)
    requires Run(actions).Some? && LoginGranted(Run(actions).value, task, call, userId, pair)
    ensures actions <= longer && Run(longer).Some? && LoadingWith(Run(longer).value, task, request, pair)
    ensures Run(longer).value.server == Run(actions).value.server
  {
    var w := Run(actions).value;
    request := FreshNat(w.tasks.Keys);
    RunSnoc(actions, TokensAnswered(task, request));
    longer := actions + [TokensAnswered(task, request)];
  }

  lemma LoadedLoginSucceeds(actions: seq<Action>, task: TaskId, request: TaskId, pair: Jti)
    returns (longer: seq<Action>)
    requires Run(actions).Some? && LoadingWith(Run(actions).value, task, request, pair)
    ensures actions <= longer && Run(longer).Some?
    ensures Run(longer).value.store == Session(Authenticated, Some(pair), Some(pair), true)
    ensures Run(longer).value.server == Run(actions).value.server
  {
    var w := Run(actions).value;
    var newTask := FreshNat(w.tasks.Keys);
    var newCall := FreshNat(w.server.calls.Keys);
    RunSnoc(actions, Answer(request, Accepted, newTask, newCall));
    longer := actions + [Answer(request, Accepted, newTask, newCall)];
    RunSnoc(longer, UserAnswered(task));
    longer := longer + [UserAnswered(task)];
  }

  /** Whatever has happened, a user can still log in: some continuation ends authenticated, with a live token. */
  lemma LoginCanSucceed(actions: seq<Action>, userId: UserId) returns (longer: seq<Action>, pair: Jti)
    requires Run(actions).Some?
    ensures actions <= longer && Run(longer).Some?
    ensures var w := Run(longer).value;
            && w.store == Session(Authenticated, Some(pair), Some(pair), true)
            && pair in w.server.rows && w.server.rows[pair].userId == userId && !w.server.rows[pair].revoked
  {
    hide Run;
    var granted, task, call, newPair := LoginIsGranted(actions, userId);
    var loading, request := GrantedLoginLoads(granted, task, call, userId, newPair);
    longer := LoadedLoginSucceeds(loading, task, request, newPair);
    pair := newPair;
  }

  /** A user can always log out: at once signed out, and some continuation has the token they held revoked. */
  lemma LogoutCanRevoke(actions: seq<Action>, jti: Jti) returns (longer: seq<Action>)
    requires Run(actions).Some? && Run(actions).value.store.refresh == Some(jti)
    requires jti in Run(actions).value.server.rows && !Run(actions).value.server.rows[jti].revoked
    ensures actions <= longer && Run(longer).Some?
    ensures SignedOut(Run(longer).value.store)
    ensures jti in Run(longer).value.server.rows && Run(longer).value.server.rows[jti].revoked
  {
    var w := Run(actions).value;
    var call := FreshNat(w.server.calls.Keys);
    var now := w.server.rows[jti].expiresAt;
    RunSnoc(actions, BeginLogout(call));
    longer := actions + [BeginLogout(call)];
    RunSnoc(longer, Server(TP.Validate(call, now)));
    longer := longer + [Server(TP.Validate(call, now))];
    RunSnoc(longer, Server(TP.DoRevoke(call)));
    longer := longer + [Server(TP.DoRevoke(call))];
  }

  // ----- no task is ever stuck

  predicate Ended(t: Task) {
    match t
    case Request(_, phase, _) => phase.Finished?
    case Refreshing(phase) => phase.Closed?
    case LoggingIn(phase) => phase.Over?
    case Restoring(phase) => phase.Over?
  }

  /** The other task whose end this one waits for. */
  function WaitsOn(t: Task): Option<TaskId> {
    match t
    case Request(_, AwaitingRefresh(leader), _) => Some(leader)
    case LoggingIn(LoadingUser(request)) => Some(request)
    case Restoring(LoadingUser(request)) => Some(request)
    case _ => None
  }

  /** The action moves this task on. */
  predicate Moves(a: Action, t: TaskId) {
    match a
    case Answer(task, _, _, _) => task == t
    case RefreshAnswered(task) => task == t
    case RefreshLost(task) => task == t
    case ClosePromise(task) => task == t
    case Resume(task) => task == t
    case TokensAnswered(task, _) => task == t
    case TokensLost(task) => task == t
    case UserAnswered(task) => task == t
    case _ => false
  }

  lemma RefreshOrAnswerMoves(w: World, t: TaskId) returns (a: Action)
    requires AllOk(w) && t in w.tasks && !Ended(w.tasks[t]) && WaitsOn(w.tasks[t]).None?
    ensures Enabled(w, a) && Moves(a, t)
  {
    hide Inv, RetriesOk, TP.Enabled;
    var newTask := FreshNat(w.tasks.Keys);
    var newCall := FreshNat(w.server.calls.Keys);
    match w.tasks[t]
    case Request(_, _, _) => a := Answer(t, Rejected, newTask, newCall);
    case Refreshing(Exchanging(_)) => a := RefreshLost(t);
    case Refreshing(_) => a := ClosePromise(t);
    case LoggingIn(_) => a := TokensLost(t);
    case Restoring(_) => a := TokensLost(t);
  }

  lemma WaitingMoves(w: World, t: TaskId) returns (a: Action)
    requires AllOk(w) && t in w.tasks && WaitsOn(w.tasks[t]).Some?
    ensures WaitsOn(w.tasks[t]).value in w.tasks
    ensures Ended(w.tasks[WaitsOn(w.tasks[t]).value]) ==> Enabled(w, a) && Moves(a, t)
  {
    hide Inv, TP.Enabled;
    assert TaskOk(w, w.tasks[t]);
    if w.tasks[t].Request? {
      assert RequestOk(w, w.tasks[t]);
      a := Resume(t);
    } else {
      a := UserAnswered(t);
    }
  }

  /** In every reachable state a task that has not ended, or one it waits for, has an action that moves it on. */
  lemma NoTaskIsStuck(actions: seq<Action>, t: TaskId) returns (u: TaskId, a: Action)
    requires Run(actions).Some? && t in Run(actions).value.tasks && !Ended(Run(actions).value.tasks[t])
    ensures var w := Run(actions).value;
            && Enabled(w, a) && Moves(a, u) && u in w.tasks
            && (u == t || WaitsOn(w.tasks[t]) == Some(u) ||
                (WaitsOn(w.tasks[t]).Some? && WaitsOn(w.tasks[t]).value in w.tasks &&
                 WaitsOn(w.tasks[WaitsOn(w.tasks[t]).value]) == Some(u)))
  {
    AllOkRun(actions);
    var w := Run(actions).value;
    hide Run, AllOk, Enabled, Moves, Ended;
    u := t;
    if WaitsOn(w.tasks[u]).Some? {
      a := WaitingMoves(w, u);
      if Ended(w.tasks[WaitsOn(w.tasks[u]).value]) {
        return;
      }
      u := WaitsOn(w.tasks[u]).value;
    }
    if WaitsOn(w.tasks[u]).Some? {
      a := WaitingMoves(w, u);
      if Ended(w.tasks[WaitsOn(w.tasks[u]).value]) {
        return;
      }
      u := WaitsOn(w.tasks[u]).value;
      WaitsAtMostTwice(w, t);
    }
    a := RefreshOrAnswerMoves(w, u);
  }

  /** A session waits for a request, a request for a refresh, and a refresh for no task. */
  lemma WaitsAtMostTwice(w: World, t: TaskId)
    requires AllOk(w) && t in w.tasks && WaitsOn(w.tasks[t]).Some?
    ensures var u := WaitsOn(w.tasks[t]).value;
            && u in w.tasks
            && (WaitsOn(w.tasks[u]).Some? ==>
                  WaitsOn(w.tasks[u]).value in w.tasks && WaitsOn(w.tasks[WaitsOn(w.tasks[u]).value]).None?)
  {
    hide Inv;
    assert TaskOk(w, w.tasks[t]);
    if w.tasks[t].Request? {
      assert RequestOk(w, w.tasks[t]);
    } else {
      var u := WaitsOn(w.tasks[t]).value;
      assert RequestOk(w, w.tasks[u]);
    }
  }
}
