/** Whether a refresh token can be used again once it has been revoked. */
module TokenReuse {
  import opened Wrappers
  import opened TokenStore
  import opened TokenProtocol

  lemma RunSnoc(steps: seq<Step>, step: Step)
    requires Run(steps).Some? && Enabled(Run(steps).value, step)
    ensures Run(steps + [step]) == Some(Next(Run(steps).value, step))
  {
    assert (steps + [step])[..|steps|] == steps;
  }

  lemma {:induction false} LongerThanAll(used: set<Jti>) returns (n: nat)
    ensures forall jti :: jti in used ==> |jti| < n
    decreases |used|
  {
    if used == {} {
      n := 0;
    } else {
      var jti :| jti in used;
      var m := LongerThanAll(used - {jti});
      n := m + |jti| + 1;
    }
  }

  // ----- a validated refresh can always go on to succeed

  lemma FinishFromRevoked(steps: seq<Step>, id: CallId, jti: Jti, newJti: Jti) returns (longer: seq<Step>)
    requires Run(steps).Some?
    requires var s := Run(steps).value;
             && id in s.calls && s.calls[id].kind == Refresh(jti) && s.calls[id].progress == Revoked
             && jti in s.rows && newJti !in s.rows
    ensures steps <= longer && Run(longer).Some? && Refreshed(Run(longer).value, id, jti)
    ensures var s, s' := Run(steps).value, Run(longer).value;
            && s'.rows == Store(s.rows, newJti, s.rows[jti].userId, 9)
            && s'.calls.Keys == s.calls.Keys
            && forall other :: other in s.calls && other != id ==> s'.calls[other] == s.calls[other]
  {
    RunSnoc(steps, DoStore(id, newJti, 9));
    longer := steps + [DoStore(id, newJti, 9)];
  }

  lemma FinishFromChecked(steps: seq<Step>, id: CallId, jti: Jti, newJti: Jti) returns (longer: seq<Step>)
    requires Run(steps).Some?
    requires var s := Run(steps).value;
             && id in s.calls && s.calls[id].kind == Refresh(jti) && s.calls[id].progress == UserChecked
             && jti in s.rows && newJti !in s.rows
    ensures steps <= longer && Run(longer).Some? && Refreshed(Run(longer).value, id, jti)
    ensures var s, s' := Run(steps).value, Run(longer).value;
            && s'.rows == Store(Revoke(s.rows, jti), newJti, s.rows[jti].userId, 9)
            && s'.calls.Keys == s.calls.Keys
            && forall other :: other in s.calls && other != id ==> s'.calls[other] == s.calls[other]
  {
    RunSnoc(steps, DoRevoke(id));
    longer := FinishFromRevoked(steps + [DoRevoke(id)], id, jti, newJti);
  }

  lemma FinishRefresh(steps: seq<Step>, id: CallId, jti: Jti, newJti: Jti) returns (longer: seq<Step>)
    requires Run(steps).Some?
    requires var s := Run(steps).value;
             && id in s.calls && s.calls[id].kind == Refresh(jti) && s.calls[id].progress == Validated
             && jti in s.rows && newJti !in s.rows
    ensures steps <= longer && Run(longer).Some? && Refreshed(Run(longer).value, id, jti)
    ensures var s, s' := Run(steps).value, Run(longer).value;
            && s'.rows == Store(Revoke(s.rows, jti), newJti, s.rows[jti].userId, 9)
            && s'.calls.Keys == s.calls.Keys
            && forall other :: other in s.calls && other != id ==> s'.calls[other] == s.calls[other]
  {
    RunSnoc(steps, CheckUser(id, true));
    longer := FinishFromChecked(steps + [CheckUser(id, true)], id, jti, newJti);
  }

  /** A logout that has found its token usable can always go on to revoke it. */
  lemma FinishLogout(steps: seq<Step>, id: CallId, jti: Jti) returns (longer: seq<Step>)
    requires Run(steps).Some?
    requires var s := Run(steps).value;
             id in s.calls && s.calls[id].kind == Logout(jti) && s.calls[id].progress == Validated
    ensures steps <= longer && Run(longer).Some?
    ensures var s, s' := Run(steps).value, Run(longer).value;
            && id in s'.calls && s'.calls[id].progress == LoggedOut
            && jti in s.rows && s'.rows == s.rows[jti := s.rows[jti].(revoked := true)]
  {
    InvRun(steps);
    var s := Run(steps).value;
    assert CallOk(s, s.calls[id]) && ValidatedFor(s.calls[id], jti);
    RunSnoc(steps, DoRevoke(id));
    longer := steps + [DoRevoke(id)];
  }

  // ----- when a refresh of a revoked token can still succeed

  /** A refresh of `jti` that passed validation and has not failed. */
  predicate Admitted(s: System, id: CallId, jti: Jti) {
    && id in s.calls && s.calls[id].kind == Refresh(jti)
    && s.calls[id].validatedAt.Some? && (Open(s.calls[id]) || s.calls[id].progress.Issued?)
  }

  /** Some way of going on ends with the call having refreshed the token. */
  ghost predicate CanRefresh(steps: seq<Step>, id: CallId, jti: Jti) {
    exists longer :: steps <= longer && Run(longer).Some? && Refreshed(Run(longer).value, id, jti)
  }

  lemma RefreshedIsAdmitted(steps: seq<Step>, id: CallId, jti: Jti)
    requires Run(steps).Some? && Refreshed(Run(steps).value, id, jti)
    ensures Admitted(Run(steps).value, id, jti)
  {
    InvRun(steps);
    assert CallOk(Run(steps).value, Run(steps).value.calls[id]);
  }

  lemma AdmittedCanFinish(steps: seq<Step>, id: CallId, jti: Jti)
    requires Run(steps).Some? && Admitted(Run(steps).value, id, jti)
    ensures CanRefresh(steps, id, jti)
  {
    InvRun(steps);
    var s := Run(steps).value;
    var c := s.calls[id];
    assert CallOk(s, c) && ValidatedFor(c, jti);
    var n := LongerThanAll(s.rows.Keys);
    var newJti := seq(n, _ => 'j');
    var longer := steps;
    if c.progress == Validated {
      longer := FinishRefresh(steps, id, jti, newJti);
    } else if c.progress == UserChecked {
      longer := FinishFromChecked(steps, id, jti, newJti);
    } else if c.progress == Revoked {
      longer := FinishFromRevoked(steps, id, jti, newJti);
    }
    assert Refreshed(Run(longer).value, id, jti);
  }

  /** Once the token is revoked no step admits a refresh of it. */
  lemma NotAdmittedLater(s: System, step: Step, id: CallId, jti: Jti)
    requires Inv(s) && Enabled(s, step)
    requires jti in s.rows && s.rows[jti].revoked && !Admitted(s, id, jti)
    ensures !Admitted(Next(s, step), id, jti)
  {
    if id == step.id && id in s.calls {
      assert CallOk(s, s.calls[id]);
    }
  }

  lemma {:induction false} NeverAdmitted(steps: seq<Step>, longer: seq<Step>, id: CallId, jti: Jti)
    requires steps <= longer && Run(steps).Some? && Run(longer).Some?
    requires var s := Run(steps).value; jti in s.rows && s.rows[jti].revoked && !Admitted(s, id, jti)
    ensures var s := Run(longer).value; jti in s.rows && s.rows[jti].revoked && !Admitted(s, id, jti)
    decreases |longer|
  {
    if steps != longer {
      var front, step := longer[..|longer| - 1], longer[|longer| - 1];
      NeverAdmitted(steps, front, id, jti);
      InvRun(front);
      NotAdmittedLater(Run(front).value, step, id, jti);
      RowsOnlyGrow(Run(front).value, step);
    }
  }

  /**
    A token once revoked can still be refreshed by exactly those calls that had passed validation before and are
    still running, or have succeeded already; by no other call, begun or yet to begin, in any continuation.
   */
  lemma RevokedTokenReusableIff(steps: seq<Step>, id: CallId, jti: Jti)
    requires Run(steps).Some? && jti in Run(steps).value.rows && Run(steps).value.rows[jti].revoked
    ensures CanRefresh(steps, id, jti) <==> Admitted(Run(steps).value, id, jti)
  {
    if Admitted(Run(steps).value, id, jti) {
      AdmittedCanFinish(steps, id, jti);
    }
    if CanRefresh(steps, id, jti) {
      var longer :| steps <= longer && Run(longer).Some? && Refreshed(Run(longer).value, id, jti);
      RefreshedIsAdmitted(longer, id, jti);
      if !Admitted(Run(steps).value, id, jti) {
        NeverAdmitted(steps, longer, id, jti);
      }
    }
  }

  // ----- a schedule that uses one token twice

  /** A schedule after which two concurrent refreshes of one token have both validated it. */
  lemma TwoValidated() returns (steps: seq<Step>)
    ensures Run(steps).Some?
    ensures Run(steps).value.rows == map["t0" := Row(7, 9, false)]
    ensures var calls := Run(steps).value.calls;
            && 1 in calls && calls[1].kind == Refresh("t0") && calls[1].progress == Validated
            && 2 in calls && calls[2].kind == Refresh("t0") && calls[2].progress == Validated
  {
    steps := [];
    RunSnoc(steps, Begin(0, Login(7)));
    steps := steps + [Begin(0, Login(7))];
    RunSnoc(steps, DoStore(0, "t0", 9));
    steps := steps + [DoStore(0, "t0", 9)];
    assert Run(steps).value.rows == map["t0" := Row(7, 9, false)];
    RunSnoc(steps, Begin(1, Refresh("t0")));
    steps := steps + [Begin(1, Refresh("t0"))];
    RunSnoc(steps, Begin(2, Refresh("t0")));
    steps := steps + [Begin(2, Refresh("t0"))];
    RunSnoc(steps, Validate(1, 5));
    steps := steps + [Validate(1, 5)];
    RunSnoc(steps, Validate(2, 5));
    steps := steps + [Validate(2, 5)];
  }

  /** Rotation alone does not stop a token being used twice: a schedule with two successful refreshes of one token. */
  lemma ConcurrentRefreshesCanBothSucceed() returns (steps: seq<Step>)
    ensures Run(steps).Some?
    ensures Refreshed(Run(steps).value, 1, "t0") && Refreshed(Run(steps).value, 2, "t0")
    ensures Active(Run(steps).value.rows, 7) == {"t1", "t2"}
  {
    var validated := TwoValidated();
    var once := FinishRefresh(validated, 1, "t0", "t1");
    steps := FinishRefresh(once, 2, "t0", "t2");
  }
}
