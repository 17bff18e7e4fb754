/**
  One browser tab against the token server: the session store (`store/authStore.ts`), the request interceptor with its
  single-flight refresh (`services/api.ts`), and the server protocol they drive, all interleaved.
  A client coroutine is a task; a response may be answered, or lost while the server carries on.
 */
module ClientSession {
  import opened Wrappers
  import opened TokenStore
  import TP = TokenProtocol

  type TaskId = nat
  type CallId = TP.CallId

  datatype Status = Idle | Authenticating | Authenticated | Unauthenticated

  /** An access token is named by the refresh token it was issued with. */
  datatype Session = Session(status: Status, access: Option<Jti>, refresh: Option<Jti>, user: bool) {
    function SetTokens(pair: Jti): Session {
      this.(access := Some(pair), refresh := Some(pair))
    }

    function Clear(): Session {
      Session(Unauthenticated, None, None, false)
    }
  }

  /** The store object itself; its actions are the value functions above. */
  class AuthStore {
    var session: Session

    constructor ()
      ensures session == Session(Idle, None, None, false)
    {
      session := Session(Idle, None, None, false);
    }

    method SetTokens(pair: Jti)
      modifies this
      ensures session == old(session).SetTokens(pair)
      ensures session.status == old(session).status && session.user == old(session).user
    {
      session := Session(session.status, Some(pair), Some(pair), session.user);
    }

    method Clear()
      modifies this
      ensures session == old(session).Clear()
      ensures session.refresh.None? && session.access.None? && !session.user
    {
      session := Session(Unauthenticated, None, None, false);
    }
  }

  /** A request that has waited for a refresh remembers which. */
  datatype RequestPhase =
    | FirstSent
    | AwaitingRefresh(leader: TaskId)
    | SecondSent(leader: TaskId)
    | Finished(ok: bool, waitedFor: Option<TaskId>)

  datatype RefreshPhase = Exchanging(call: CallId) | Settled(granted: Option<Jti>) | Closed(granted: Option<Jti>)

  datatype SessionPhase = AwaitingTokens(call: CallId) | LoadingUser(request: TaskId) | Over

  datatype Task =
    | Request(retries: bool, request: RequestPhase, sends: nat)
    | Refreshing(refresh: RefreshPhase)
    | LoggingIn(session: SessionPhase)
    | Restoring(session: SessionPhase)

  datatype World = World(
    server: TP.System,
    store: Session,
    refreshPromise: Option<TaskId>,
    tasks: map<TaskId, Task>,
    delivered: set<Jti>)

  const Start: World := World(TP.Initial, Session(Idle, None, None, false), None, map[], {})

  datatype Reply = Accepted | Unauthorized | Rejected | NetworkFailure

  /** Fresh task and call identifiers are part of the action that needs them. */
  datatype Action =
    | Server(step: TP.Step)
    | SendRequest(task: TaskId, retries: bool)
    | Answer(task: TaskId, reply: Reply, newTask: TaskId, newCall: CallId)
    | RefreshAnswered(task: TaskId)
    | RefreshLost(task: TaskId)
    | ClosePromise(task: TaskId)
    | Resume(task: TaskId)
    | BeginLogin(task: TaskId, newCall: CallId, userId: UserId)
    | BeginRestore(task: TaskId, newCall: CallId)
    | TokensAnswered(task: TaskId, newTask: TaskId)
    | TokensLost(task: TaskId)
    | UserAnswered(task: TaskId)
    | BeginLogout(newCall: CallId)
    | Reload

  // ----- what each task waits for

  /** The server call whose response the task awaits. */
  function Awaits(t: Task): Option<CallId> {
    match t
    case Refreshing(Exchanging(call)) => Some(call)
    case LoggingIn(AwaitingTokens(call)) => Some(call)
    case Restoring(AwaitingTokens(call)) => Some(call)
    case _ => None
  }

  /** A refresh in flight, whether started by `request` or by `restoreSession`. */
  predicate InFlight(t: Task) {
    !t.LoggingIn? && Awaits(t).Some?
  }

  predicate Answered(w: World, call: CallId) {
    call in w.server.calls && (w.server.calls[call].progress.Issued? || w.server.calls[call].progress.Failed?)
  }

  predicate Enabled(w: World, a: Action) {
    match a
    case Server(step) => !step.Begin? && TP.Enabled(w.server, step)
    case SendRequest(task, _) => task !in w.tasks
    case Answer(task, _, newTask, newCall) =>
      && task in w.tasks && w.tasks[task].Request?
      && (w.tasks[task].request.FirstSent? || w.tasks[task].request.SecondSent?)
      && newTask !in w.tasks && newCall !in w.server.calls
    case RefreshAnswered(task) =>
      && task in w.tasks && w.tasks[task].Refreshing? && w.tasks[task].refresh.Exchanging?
      && Answered(w, w.tasks[task].refresh.call)
    case RefreshLost(task) => task in w.tasks && w.tasks[task].Refreshing? && w.tasks[task].refresh.Exchanging?
    case ClosePromise(task) => task in w.tasks && w.tasks[task].Refreshing? && w.tasks[task].refresh.Settled?
    case Resume(task) =>
      && task in w.tasks && w.tasks[task].Request? && w.tasks[task].request.AwaitingRefresh?
      && var leader := w.tasks[task].request.leader;
      && leader in w.tasks && w.tasks[leader].Refreshing? && w.tasks[leader].refresh.Closed?
    case BeginLogin(task, newCall, _) => task !in w.tasks && newCall !in w.server.calls
    case BeginRestore(task, newCall) => task !in w.tasks && newCall !in w.server.calls
    case TokensAnswered(task, newTask) =>
      && task in w.tasks && (w.tasks[task].LoggingIn? || w.tasks[task].Restoring?)
      && w.tasks[task].session.AwaitingTokens? && Answered(w, w.tasks[task].session.call)
      && newTask !in w.tasks
    case TokensLost(task) =>
      && task in w.tasks && (w.tasks[task].LoggingIn? || w.tasks[task].Restoring?)
      && w.tasks[task].session.AwaitingTokens?
    case UserAnswered(task) =>
      && task in w.tasks && (w.tasks[task].LoggingIn? || w.tasks[task].Restoring?)
      && w.tasks[task].session.LoadingUser?
      && var r := w.tasks[task].session.request;
      && r in w.tasks && w.tasks[r].Request? && w.tasks[r].request.Finished?
    case BeginLogout(newCall) => newCall !in w.server.calls
    case Reload => forall t :: t in w.tasks ==> !InFlight(w.tasks[t])
  }

  // ----- effects

  function SetTask(w: World, id: TaskId, t: Task): World {
    w.(tasks := w.tasks[id := t])
  }

  function CallServer(w: World, call: CallId, kind: TP.Kind): World
    requires call !in w.server.calls
  {
    w.(server := TP.Next(w.server, TP.Begin(call, kind)))
  }

  /** `setTokens` with a pair the server has just sent. */
  function Receive(w: World, pair: Jti): World {
    w.(store := w.store.SetTokens(pair), delivered := w.delivered + {pair})
  }

  /** A 401 on a call worth retrying: join the refresh in progress, or start one with the token in the store. */
  function JoinRefresh(w: World, task: TaskId, newTask: TaskId, newCall: CallId): World
    requires task in w.tasks && w.tasks[task].Request? && newTask !in w.tasks && newCall !in w.server.calls
  {
    var waiting := (leader: TaskId) => w.tasks[task].(request := AwaitingRefresh(leader));
    if w.refreshPromise.Some? then SetTask(w, task, waiting(w.refreshPromise.value))
    else
      var joined := SetTask(w, task, waiting(newTask)).(refreshPromise := Some(newTask));
      match w.store.refresh
      case None => SetTask(joined, newTask, Refreshing(Settled(None)))
      case Some(jti) => SetTask(CallServer(joined, newCall, TP.Refresh(jti)), newTask, Refreshing(Exchanging(newCall)))
  }

  function OnAnswer(w: World, task: TaskId, reply: Reply, newTask: TaskId, newCall: CallId): World
    requires Enabled(w, Answer(task, reply, newTask, newCall))
  {
    var t := w.tasks[task];
    if reply == Unauthorized && t.retries && t.request == FirstSent then JoinRefresh(w, task, newTask, newCall)
    else
      var waitedFor := if t.request.SecondSent? then Some(t.request.leader) else None;
      SetTask(w, task, t.(request := Finished(reply == Accepted, waitedFor)))
  }

  function OnRefreshAnswered(w: World, task: TaskId): World
    requires Enabled(w, RefreshAnswered(task))
  {
    match w.server.calls[w.tasks[task].refresh.call].progress
    case Issued(pair) => SetTask(Receive(w, pair), task, Refreshing(Settled(Some(pair))))
    case _ => OnRefreshLost(w, task)
  }

  function OnRefreshLost(w: World, task: TaskId): World {
    SetTask(w.(store := w.store.Clear()), task, Refreshing(Settled(None)))
  }

  function OnResume(w: World, task: TaskId): World
    requires Enabled(w, Resume(task))
  {
    var t := w.tasks[task];
    if w.tasks[t.request.leader].refresh.granted.Some? then
      SetTask(w, task, t.(request := SecondSent(t.request.leader), sends := t.sends + 1))
    else SetTask(w, task, t.(request := Finished(false, Some(t.request.leader))))
  }

  function OnBeginRestore(w: World, task: TaskId, newCall: CallId): World
    requires Enabled(w, BeginRestore(task, newCall))
  {
    match w.store.refresh
    case None => SetTask(w.(store := w.store.(status := Unauthenticated)), task, Restoring(Over))
    case Some(jti) =>
      SetTask(CallServer(w.(store := w.store.(status := Authenticating)), newCall, TP.Refresh(jti)),
              task, Restoring(AwaitingTokens(newCall)))
  }

  function OnTokensAnswered(w: World, task: TaskId, newTask: TaskId): World
    requires Enabled(w, TokensAnswered(task, newTask))
  {
    match w.server.calls[w.tasks[task].session.call].progress
    case Issued(pair) =>
      var loading := w.tasks[task].(session := LoadingUser(newTask));
      SetTask(SetTask(Receive(w, pair), task, loading), newTask, Request(true, FirstSent, 1))
    case _ => EndSession(w, task)
  }

  /** The catch branch of `login` and `restoreSession`. */
  function EndSession(w: World, task: TaskId): World
    requires task in w.tasks && (w.tasks[task].LoggingIn? || w.tasks[task].Restoring?)
  {
    SetTask(w.(store := w.store.Clear()), task, w.tasks[task].(session := Over))
  }

  function OnUserAnswered(w: World, task: TaskId): World
    requires Enabled(w, UserAnswered(task))
  {
    if w.tasks[w.tasks[task].session.request].request.ok then
      SetTask(w.(store := w.store.(status := Authenticated, user := true)), task, w.tasks[task].(session := Over))
    else EndSession(w, task)
  }

  function OnBeginLogout(w: World, newCall: CallId): World
    requires newCall !in w.server.calls
  {
    var cleared := w.(store := w.store.Clear());
    match w.store.refresh
    case None => cleared
    case Some(jti) => CallServer(cleared, newCall, TP.Logout(jti))
  }

  function Apply(w: World, a: Action): World
    requires Enabled(w, a)
  {
    match a
    case Server(step) => w.(server := TP.Next(w.server, step))
    case SendRequest(task, retries) => SetTask(w, task, Request(retries, FirstSent, 1))
    case Answer(task, reply, newTask, newCall) => OnAnswer(w, task, reply, newTask, newCall)
    case RefreshAnswered(task) => OnRefreshAnswered(w, task)
    case RefreshLost(task) => OnRefreshLost(w, task)
    case ClosePromise(task) =>
      SetTask(w.(refreshPromise := None), task, Refreshing(Closed(w.tasks[task].refresh.granted)))
    case Resume(task) => OnResume(w, task)
    case BeginLogin(task, newCall, userId) =>
      SetTask(CallServer(w.(store := w.store.(status := Authenticating)), newCall, TP.Login(userId)),
              task, LoggingIn(AwaitingTokens(newCall)))
    case BeginRestore(task, newCall) => OnBeginRestore(w, task, newCall)
    case TokensAnswered(task, newTask) => OnTokensAnswered(w, task, newTask)
    case TokensLost(task) => EndSession(w, task)
    case UserAnswered(task) => OnUserAnswered(w, task)
    case BeginLogout(newCall) => OnBeginLogout(w, newCall)
    case Reload => w.(store := Session(Idle, None, w.store.refresh, false), refreshPromise := None, tasks := map[])
  }

  function Run(actions: seq<Action>): Option<World> {
    if actions == [] then Some(Start)
    else
      match Run(actions[..|actions| - 1])
      case None => None
      case Some(w) =>
        var a := actions[|actions| - 1];
        if Enabled(w, a) then Some(Apply(w, a)) else None
  }

  // ----- the invariant

  /** The call presents `jti` to the server. */
  ghost predicate Presents(c: TP.Call, jti: Jti) {
    !c.kind.Login? && c.kind.jti == jti
  }

  /** What a task awaits exists, and a token on its way to the client has not arrived before. */
  ghost predicate AwaitsOk(w: World) {
    forall t :: t in w.tasks && Awaits(w.tasks[t]).Some? ==>
      var call := Awaits(w.tasks[t]).value;
      && call in w.server.calls
      && (w.server.calls[call].progress.Issued? ==> w.server.calls[call].progress.newJti !in w.delivered)
  }

  ghost predicate AwaitsDistinct(w: World) {
    forall t, u ::
      (t in w.tasks && u in w.tasks && Awaits(w.tasks[t]).Some? && Awaits(w.tasks[t]) == Awaits(w.tasks[u]))
      ==> t == u
  }

  /** Tokens held or presented by the client were delivered to it, and delivered tokens were issued. */
  ghost predicate DeliveredOk(w: World) {
    && w.delivered <= w.server.rows.Keys
    && (w.store.refresh.Some? ==> w.store.refresh.value in w.delivered)
    && (forall c, jti :: c in w.server.calls && Presents(w.server.calls[c], jti) ==> jti in w.delivered)
  }

  /** The token in the store has been presented only by refreshes whose response is still awaited. */
  ghost predicate StoredOk(w: World) {
    w.store.refresh.Some? ==>
      forall c :: c in w.server.calls && Presents(w.server.calls[c], w.store.refresh.value) ==> Awaited(w, c)
  }

  ghost predicate Awaited(w: World, c: CallId) {
    exists t :: t in w.tasks && InFlight(w.tasks[t]) && Awaits(w.tasks[t]) == Some(c)
  }

  ghost predicate PromiseOk(w: World) {
    && (forall t ::
          t in w.tasks && w.tasks[t].Refreshing? && !w.tasks[t].refresh.Closed? ==> w.refreshPromise == Some(t))
    && (w.refreshPromise.Some? ==> w.refreshPromise.value in w.tasks)
  }

  ghost predicate SendsOk(w: World) {
    forall t :: t in w.tasks && w.tasks[t].Request? ==>
      && w.tasks[t].sends <= 2
      && (w.tasks[t].request.FirstSent? || w.tasks[t].request.AwaitingRefresh? ==> w.tasks[t].sends == 1)
  }

  ghost predicate Inv(w: World) {
    && TP.Inv(w.server)
    && AwaitsOk(w) && AwaitsDistinct(w) && DeliveredOk(w) && StoredOk(w)
    && PromiseOk(w) && SendsOk(w)
  }
}
