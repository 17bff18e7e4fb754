/**
  The server side as a protocol. Each repository call is one transaction, a service call is several,
  and the transactions of concurrent service calls interleave freely. A call may also be abandoned at any point.
 */
module TokenProtocol {
  import opened Wrappers
  import opened TokenStore

  type CallId = nat

  datatype Kind = Login(userId: UserId) | Refresh(jti: Jti) | Logout(jti: Jti)

  /** Where a service call stands: the transaction it has just finished, or how it ended. */
  datatype Progress =
    | Begun
    | Validated
    | UserChecked
    | Revoked
    | Issued(newJti: Jti)
    | LoggedOut
    | Failed(error: AuthError)

  datatype Call = Call(
    kind: Kind,
    progress: Progress,
    begunAt: nat,
    validatedAt: Option<nat>,
    revokedAt: Option<nat>,
    endedAt: Option<nat>)

  datatype System = System(rows: Rows, calls: map<CallId, Call>, clock: nat)

  /** Steps carry what the model does not decide: the clock's verdict, the user table's answer, the new identifier. */
  datatype Step =
    | Begin(id: CallId, kind: Kind)
    | Validate(id: CallId, now: int)
    | CheckUser(id: CallId, active: bool)
    | DoRevoke(id: CallId)
    | DoStore(id: CallId, newJti: Jti, expiresAt: int)
    | Abandon(id: CallId, error: AuthError)

  const Initial: System := System(map[], map[], 0)

  predicate Open(c: Call) {
    c.progress in {Begun, Validated, UserChecked, Revoked}
  }

  predicate Enabled(s: System, step: Step) {
    match step
    case Begin(id, _) => id !in s.calls
    case Validate(id, _) => id in s.calls && !s.calls[id].kind.Login? && s.calls[id].progress == Begun
    case CheckUser(id, _) => id in s.calls && s.calls[id].kind.Refresh? && s.calls[id].progress == Validated
    case DoRevoke(id) =>
      && id in s.calls && !s.calls[id].kind.Login?
      && s.calls[id].progress == (if s.calls[id].kind.Refresh? then UserChecked else Validated)
    case DoStore(id, _, _) =>
      && id in s.calls && !s.calls[id].kind.Logout?
      && s.calls[id].progress == (if s.calls[id].kind.Login? then Begun else Revoked)
      && (s.calls[id].kind.Refresh? ==> s.calls[id].kind.jti in s.rows)
    case Abandon(id, _) => id in s.calls && Open(s.calls[id])
  }

  /** Whom a stored token belongs to: the user logging in, or the owner of the token being rotated. */
  function Owner(s: System, c: Call): UserId
    requires !c.kind.Logout? && (c.kind.Refresh? ==> c.kind.jti in s.rows)
  {
    if c.kind.Login? then c.kind.userId else s.rows[c.kind.jti].userId
  }

  function Fail(c: Call, error: AuthError, clock: nat): Call {
    c.(progress := Failed(error), endedAt := Some(clock))
  }

  /** What the step leaves of the call it belongs to. */
  function NextCall(s: System, step: Step): Call
    requires Enabled(s, step)
  {
    match step
    case Begin(id, kind) => Call(kind, Begun, s.clock, None, None, None)
    case Validate(id, now) =>
      var c := s.calls[id];
      if c.kind.jti !in s.rows then Fail(c, InvalidToken, s.clock)
      else if s.rows[c.kind.jti].revoked then Fail(c, TokenRevoked, s.clock)
      else if s.rows[c.kind.jti].expiresAt < now then Fail(c, TokenExpired, s.clock)
      else c.(progress := Validated, validatedAt := Some(s.clock))
    case CheckUser(id, active) =>
      if active then s.calls[id].(progress := UserChecked) else Fail(s.calls[id], InactiveUser, s.clock)
    case DoRevoke(id) =>
      var c := s.calls[id];
      if c.kind.Logout? then c.(progress := LoggedOut, revokedAt := Some(s.clock), endedAt := Some(s.clock))
      else c.(progress := Revoked, revokedAt := Some(s.clock))
    case DoStore(id, newJti, _) =>
      var c := s.calls[id];
      if newJti in s.rows then Fail(c, IntegrityError, s.clock)
      else c.(progress := Issued(newJti), endedAt := Some(s.clock))
    case Abandon(id, error) => Fail(s.calls[id], error, s.clock)
  }

  function NextRows(s: System, step: Step): Rows
    requires Enabled(s, step)
  {
    match step
    case DoRevoke(id) => Revoke(s.rows, s.calls[id].kind.jti)
    case DoStore(id, newJti, expiresAt) =>
      if newJti in s.rows then s.rows else Store(s.rows, newJti, Owner(s, s.calls[id]), expiresAt)
    case _ => s.rows
  }

  function Next(s: System, step: Step): System
    requires Enabled(s, step)
  {
    System(NextRows(s, step), s.calls[step.id := NextCall(s, step)], s.clock + 1)
  }

  /** The system after a whole schedule, or None if some step of it is not enabled. */
  function Run(steps: seq<Step>): Option<System> {
    if steps == [] then Some(Initial)
    else
      match Run(steps[..|steps| - 1])
      case None => None
      case Some(s) =>
        var step := steps[|steps| - 1];
        if Enabled(s, step) then Some(Next(s, step)) else None
  }

  // ----- the invariant

  /** The call found `jti` usable. */
  ghost predicate ValidatedFor(c: Call, jti: Jti) {
    !c.kind.Login? && c.kind.jti == jti && c.validatedAt.Some?
  }

  /** The call revoked `jti`. */
  ghost predicate RevokedFor(c: Call, jti: Jti) {
    !c.kind.Login? && c.kind.jti == jti && c.revokedAt.Some?
  }

  ghost predicate TimesOk(c: Call, clock: nat) {
    && c.begunAt < clock
    && (c.endedAt.None? <==> Open(c))
    && (c.endedAt.Some? ==> c.endedAt.value < clock)
    && (c.validatedAt.Some? ==> c.begunAt < c.validatedAt.value < clock)
    && (c.revokedAt.Some? ==> c.validatedAt.Some? && c.validatedAt.value < c.revokedAt.value < clock)
    && (c.revokedAt.Some? && c.endedAt.Some? ==> c.revokedAt.value <= c.endedAt.value)
  }

  ghost predicate ProgressOk(c: Call) {
    && (c.kind.Login? ==> c.validatedAt.None? && c.progress !in {Validated, UserChecked, Revoked, LoggedOut})
    && (c.kind.Refresh? ==> c.progress != LoggedOut)
    && (c.kind.Logout? ==> !c.progress.Issued?)
    && (c.progress == Begun ==> c.validatedAt.None?)
    && (c.progress in {Validated, UserChecked} ==> c.validatedAt.Some? && c.revokedAt.None?)
    && (c.progress in {Revoked, LoggedOut} || (c.progress.Issued? && c.kind.Refresh?) ==> c.revokedAt.Some?)
  }

  ghost predicate RowsOk(c: Call, rows: Rows) {
    && (forall jti :: ValidatedFor(c, jti) ==> jti in rows)
    && (forall jti :: RevokedFor(c, jti) ==> jti in rows && rows[jti].revoked)
    && (c.progress.Issued? ==> c.progress.newJti in rows)
  }

  ghost predicate CallOk(s: System, c: Call) {
    TimesOk(c, s.clock) && ProgressOk(c) && RowsOk(c, s.rows)
  }

  /** Every validation of a token that passed came before every revocation of that token. */
  ghost predicate ValidatedBeforeRevoked(s: System) {
    forall a, b, jti ::
      (a in s.calls && b in s.calls && ValidatedFor(s.calls[a], jti) && RevokedFor(s.calls[b], jti))
      ==> s.calls[a].validatedAt.value < s.calls[b].revokedAt.value
  }

  /** A token is revoked only because some call revoked it. */
  ghost predicate RevokedByCall(s: System) {
    forall jti :: jti in s.rows && s.rows[jti].revoked ==>
      exists id :: id in s.calls && RevokedFor(s.calls[id], jti)
  }

  /** No token is handed out twice. */
  ghost predicate IssuedOnce(s: System) {
    forall a, b ::
      (a in s.calls && b in s.calls && s.calls[a].progress.Issued? && s.calls[b].progress == s.calls[a].progress)
      ==> a == b
  }

  ghost predicate Inv(s: System) {
    && (forall id :: id in s.calls ==> CallOk(s, s.calls[id]))
    && ValidatedBeforeRevoked(s)
    && RevokedByCall(s)
    && IssuedOnce(s)
  }

  lemma RowsOnlyGrow(s: System, step: Step)
    requires Enabled(s, step)
    ensures Later(s.rows, NextRows(s, step))
  {
  }

  lemma OtherCallsOk(s: System, step: Step, c: Call)
    requires Enabled(s, step) && CallOk(s, c)
    ensures CallOk(Next(s, step), c)
  {
    RowsOnlyGrow(s, step);
  }

  /** The call that takes a step was in order before it. */
  ghost predicate CanStep(s: System, step: Step) {
    Enabled(s, step) && (step.id in s.calls ==> CallOk(s, s.calls[step.id]))
  }

  lemma SteppedTimesOk(s: System, step: Step)
    requires CanStep(s, step)
    ensures TimesOk(NextCall(s, step), s.clock + 1)
  {
    hide RowsOk, NextRows;
  }

  lemma SteppedProgressOk(s: System, step: Step)
    requires CanStep(s, step)
    ensures ProgressOk(NextCall(s, step))
  {
    hide RowsOk, NextRows;
  }

  lemma SteppedRowsOk(s: System, step: Step)
    requires CanStep(s, step)
    ensures RowsOk(NextCall(s, step), NextRows(s, step))
  {
    hide TimesOk;
  }

  lemma SteppedCallOk(s: System, step: Step)
    requires CanStep(s, step)
    ensures CallOk(Next(s, step), NextCall(s, step))
  {
    SteppedTimesOk(s, step);
    SteppedProgressOk(s, step);
    SteppedRowsOk(s, step);
    hide TimesOk, ProgressOk, RowsOk, NextCall, NextRows, Enabled;
  }

  lemma OrderPair(s: System, step: Step, a: CallId, b: CallId, jti: Jti)
    requires Inv(s) && Enabled(s, step)
    requires a in Next(s, step).calls && b in Next(s, step).calls
    requires ValidatedFor(Next(s, step).calls[a], jti) && RevokedFor(Next(s, step).calls[b], jti)
    requires Next(s, step).calls[a].validatedAt.Some? && Next(s, step).calls[b].revokedAt.Some?
    ensures Next(s, step).calls[a].validatedAt.value < Next(s, step).calls[b].revokedAt.value
  {
    hide RevokedByCall, IssuedOnce;
    var s' := Next(s, step);
    if b in s.calls && RevokedFor(s.calls[b], jti) {
      assert CallOk(s, s.calls[b]);
      assert s'.calls[b].revokedAt == s.calls[b].revokedAt;
      // a token that some call has revoked does not pass validation again
      assert a in s.calls && ValidatedFor(s.calls[a], jti);
      assert s'.calls[a].validatedAt == s.calls[a].validatedAt;
    } else {
      assert s'.calls[b].revokedAt.value == s.clock;
      assert a in s.calls && CallOk(s, s.calls[a]);
    }
  }

  lemma OrderStep(s: System, step: Step)
    requires Inv(s) && Enabled(s, step)
    ensures ValidatedBeforeRevoked(Next(s, step))
  {
    var s' := Next(s, step);
    forall a, b, jti | a in s'.calls && b in s'.calls && ValidatedFor(s'.calls[a], jti) && RevokedFor(s'.calls[b], jti)
      ensures s'.calls[a].validatedAt.value < s'.calls[b].revokedAt.value
    {
      OrderPair(s, step, a, b, jti);
    }
  }

  lemma RevokersStep(s: System, step: Step)
    requires RevokedByCall(s) && Enabled(s, step)
    ensures RevokedByCall(Next(s, step))
  {
    var s' := Next(s, step);
    forall jti | jti in s'.rows && s'.rows[jti].revoked
      ensures exists id :: id in s'.calls && RevokedFor(s'.calls[id], jti)
    {
      if jti in s.rows && s.rows[jti].revoked {
        var id :| id in s.calls && RevokedFor(s.calls[id], jti);
        assert id in s'.calls && RevokedFor(s'.calls[id], jti);
      } else {
        assert RevokedFor(s'.calls[step.id], jti);
      }
    }
  }

  lemma IssuersStep(s: System, step: Step)
    requires IssuedOnce(s) && Enabled(s, step)
    requires forall id :: id in s.calls ==> RowsOk(s.calls[id], s.rows)
    ensures IssuedOnce(Next(s, step))
  {
    hide NextRows;
    forall id | id in s.calls && s.calls[id].progress.Issued?
      ensures s.calls[id].progress.newJti in s.rows
    {
      assert RowsOk(s.calls[id], s.rows);
    }
  }

  lemma InvStep(s: System, step: Step)
    requires Inv(s) && Enabled(s, step)
    ensures Inv(Next(s, step)) && Later(s.rows, Next(s, step).rows)
  {
    var s' := Next(s, step);
    forall id | id in s'.calls
      ensures CallOk(s', s'.calls[id])
    {
      if id == step.id {
        SteppedCallOk(s, step);
      } else {
        OtherCallsOk(s, step, s.calls[id]);
      }
    }
    OrderStep(s, step);
    RevokersStep(s, step);
    IssuersStep(s, step);
    RowsOnlyGrow(s, step);
  }

  lemma {:induction false} InvRun(steps: seq<Step>)
    requires Run(steps).Some?
    ensures Inv(Run(steps).value) && Run(steps).value.clock == |steps|
  {
    if steps != [] {
      InvRun(steps[..|steps| - 1]);
      InvStep(Run(steps[..|steps| - 1]).value, steps[|steps| - 1]);
    }
  }

  // ----- theorems over every schedule

  /** What a longer schedule adds never undoes a revocation, loses a row or changes its owner. */
  lemma {:induction false} RevocationIsForever(steps: seq<Step>, n: nat)
    requires n <= |steps| && Run(steps).Some?
    ensures Run(steps[..n]).Some?
    ensures Later(Run(steps[..n]).value.rows, Run(steps).value.rows)
  {
    if n == |steps| {
      assert steps[..n] == steps;
    } else {
      var front := steps[..|steps| - 1];
      assert front[..n] == steps[..n];
      RevocationIsForever(front, n);
      RowsOnlyGrow(Run(front).value, steps[|steps| - 1]);
    }
  }

  predicate Refreshed(s: System, id: CallId, jti: Jti) {
    id in s.calls && s.calls[id].kind == Refresh(jti) && s.calls[id].progress.Issued?
  }

  /** Two successful refreshes of one token must each have validated it before the other revoked it. */
  lemma SuccessfulRefreshesOverlap(steps: seq<Step>, a: CallId, b: CallId, jti: Jti)
    requires Run(steps).Some?
    requires Refreshed(Run(steps).value, a, jti) && Refreshed(Run(steps).value, b, jti)
    ensures var s := Run(steps).value;
            && s.calls[a].validatedAt.Some? && s.calls[a].revokedAt.Some?
            && s.calls[b].validatedAt.Some? && s.calls[b].revokedAt.Some?
            && s.calls[a].validatedAt.value < s.calls[b].revokedAt.value
            && s.calls[b].validatedAt.value < s.calls[a].revokedAt.value
  {
    InvRun(steps);
    var s := Run(steps).value;
    assert CallOk(s, s.calls[a]) && CallOk(s, s.calls[b]);
    assert ValidatedFor(s.calls[a], jti) && RevokedFor(s.calls[a], jti);
    assert ValidatedFor(s.calls[b], jti) && RevokedFor(s.calls[b], jti);
  }

  /** The call was a refresh or a logout of `jti` and it went through. */
  predicate Spent(s: System, id: CallId, jti: Jti) {
    Refreshed(s, id, jti) || (id in s.calls && s.calls[id].kind == Logout(jti) && s.calls[id].progress.LoggedOut?)
  }

  /** A call that begins after another has spent the token can neither refresh it nor log out with it. */
  lemma SpentTokenStaysSpent(steps: seq<Step>, a: CallId, b: CallId, jti: Jti)
    requires Run(steps).Some?
    requires Spent(Run(steps).value, a, jti)
    requires b in Run(steps).value.calls && Run(steps).value.calls[a].endedAt.Some?
    requires Run(steps).value.calls[a].endedAt.value < Run(steps).value.calls[b].begunAt
    ensures !ValidatedFor(Run(steps).value.calls[b], jti) && !Spent(Run(steps).value, b, jti)
  {
    InvRun(steps);
    hide Run, RevokedByCall, IssuedOnce;
    var s := Run(steps).value;
    assert CallOk(s, s.calls[a]) && CallOk(s, s.calls[b]);
    assert RevokedFor(s.calls[a], jti);
  }

  /** A validation passes exactly when the token was issued, is in date, and no call has revoked it so far. */
  lemma ValidationPassesIff(steps: seq<Step>, id: CallId, now: int)
    requires Run(steps).Some? && Enabled(Run(steps).value, Validate(id, now))
    ensures var s := Run(steps).value;
            var jti := s.calls[id].kind.jti;
            Next(s, Validate(id, now)).calls[id].progress == Validated <==>
              && jti in s.rows && s.rows[jti].expiresAt >= now
              && !exists other :: other in s.calls && RevokedFor(s.calls[other], jti)
  {
    InvRun(steps);
    var s := Run(steps).value;
    forall other | other in s.calls
      ensures CallOk(s, s.calls[other])
    {
    }
  }
}
