/** What every action of the tab does to the session it shows and the tokens it holds (`store/authStore.ts`). */
module ClientStore {
  import opened Wrappers
  import opened TokenStore
  import TP = TokenProtocol
  import opened ClientSession
  import opened ClientRetries

  predicate SignedOut(s: Session) {
    s.status == Unauthenticated && s.access.None? && s.refresh.None? && !s.user
  }

  predicate SameTokens(s: Session, s': Session) {
    s'.access == s.access && s'.refresh == s.refresh
  }

  /** The answer to the call: the pair it was granted, if any. */
  function Granted(w: World, call: CallId): Option<Jti>
    requires call in w.server.calls
  {
    if w.server.calls[call].progress.Issued? then Some(w.server.calls[call].progress.newJti) else None
  }

  /** Both tokens of a granted pair are stored; a refused or lost exchange signs the user out. */
  predicate FollowsAnswer(before: Session, after: Session, granted: Option<Jti>) {
    match granted
    case Some(pair) => after == Session(before.status, Some(pair), Some(pair), before.user)
    case None => SignedOut(after)
  }

  lemma AnswersReachTheStore(w: World, a: Action)
    requires Enabled(w, a)
    ensures var s, s' := w.store, Apply(w, a).store;
            match a
            case RefreshAnswered(t) =>
              w.tasks[t].refresh.call in w.server.calls &&
              FollowsAnswer(s, s', Granted(w, w.tasks[t].refresh.call))
            case TokensAnswered(t, _) =>
              w.tasks[t].session.call in w.server.calls &&
              FollowsAnswer(s, s', Granted(w, w.tasks[t].session.call))
            case RefreshLost(_) => SignedOut(s')
            case TokensLost(_) => SignedOut(s')
            case BeginLogout(_) => SignedOut(s')
            case UserAnswered(t) =>
              if w.tasks[w.tasks[t].session.request].request.ok
              then SameTokens(s, s') && s'.status == Authenticated && s'.user
              else SignedOut(s')
            case BeginLogin(_, _, _) => s' == s.(status := Authenticating)
            case BeginRestore(_, _) => s' == s.(status := if s.refresh.Some? then Authenticating else Unauthenticated)
            case Reload => s' == Session(Idle, None, s.refresh, false)
            case _ => s' == s
  {
    hide TP.Next;
  }

  /** What an action may ask of the server: log in, exchange or revoke the token the store holds at that moment. */
  predicate Asks(w: World, a: Action, kind: TP.Kind) {
    match a
    case BeginLogin(_, _, userId) => kind == TP.Login(userId)
    case BeginLogout(_) => w.store.refresh.Some? && kind == TP.Logout(w.store.refresh.value)
    case BeginRestore(_, _) => w.store.refresh.Some? && kind == TP.Refresh(w.store.refresh.value)
    case Answer(_, _, _, _) => w.store.refresh.Some? && kind == TP.Refresh(w.store.refresh.value)
    case _ => false
  }

  lemma CallsPresentTheStoredToken(w: World, a: Action)
    requires Enabled(w, a) && !a.Server?
    ensures forall c :: c in w.server.calls ==>
              c in Apply(w, a).server.calls && Apply(w, a).server.calls[c] == w.server.calls[c]
    ensures Apply(w, a).server.rows == w.server.rows
    ensures forall c :: c in Apply(w, a).server.calls && c !in w.server.calls ==>
              Asks(w, a, Apply(w, a).server.calls[c].kind)
    ensures a.BeginLogin? || ((a.BeginLogout? || a.BeginRestore?) && w.store.refresh.Some?) ==>
              exists c :: c in Apply(w, a).server.calls && c !in w.server.calls
    ensures (a.BeginLogout? || a.BeginRestore? || a.Answer?) && w.store.refresh.None? ==>
              Apply(w, a).server == w.server
  {
    match a
    case BeginLogin(_, newCall, _) => assert newCall in Apply(w, a).server.calls;
    case BeginRestore(_, newCall) => assert w.store.refresh.Some? ==> newCall in Apply(w, a).server.calls;
    case BeginLogout(newCall) => assert w.store.refresh.Some? ==> newCall in Apply(w, a).server.calls;
    case _ =>
  }

  /** The first 401 on a call worth it waits for a refresh, the one in progress if there is one; all else ends it. */
  lemma AnswersDecideRequests(w: World, t: TaskId, reply: Reply, newTask: TaskId, newCall: CallId)
    requires Enabled(w, Answer(t, reply, newTask, newCall))
    ensures var w' := Apply(w, Answer(t, reply, newTask, newCall));
            && t in w'.tasks && w'.tasks[t].Request? && w'.tasks[t].sends == w.tasks[t].sends
            && if reply == Unauthorized && w.tasks[t].retries && w.tasks[t].request.FirstSent? then
                 && w'.refreshPromise.Some? && w'.tasks[t].request == AwaitingRefresh(w'.refreshPromise.value)
                 && (w.refreshPromise.Some? ==> w'.refreshPromise == w.refreshPromise && w'.server == w.server)
               else
                 && w'.tasks[t].request.Finished? && (w'.tasks[t].request.ok <==> reply == Accepted)
                 && w'.server == w.server
  {
    hide TP.Next;
  }

  ghost predicate TokensPaired(w: World) {
    w.store.access.Some? ==> w.store.access == w.store.refresh
  }

  /** The access token held, if any, is the one that came with the refresh token held. */
  lemma {:induction false} TokensStayPaired(actions: seq<Action>)
    requires Run(actions).Some?
    ensures TokensPaired(Run(actions).value)
    decreases |actions|
  {
    if actions != [] {
      TokensStayPaired(actions[..|actions| - 1]);
      AnswersReachTheStore(Run(actions[..|actions| - 1]).value, actions[|actions| - 1]);
      hide Apply, Enabled;
    }
  }
}
