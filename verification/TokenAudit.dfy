/** What must have happened, transaction by transaction, for a call to stand where it stands. */
module TokenAudit {
  import opened Wrappers
  import opened TokenStore
  import opened TokenProtocol

  /** The user was found active after the token was validated and before `until`. */
  ghost predicate UserWasActive(steps: seq<Step>, id: CallId, c: Call, until: nat) {
    exists u :: c.validatedAt.Some? && c.validatedAt.value < u < until <= |steps| && steps[u] == CheckUser(id, true)
  }

  /** The call's times are the positions of its transactions in the schedule. */
  ghost predicate TimesAreSteps(steps: seq<Step>, id: CallId, c: Call) {
    && c.begunAt < |steps| && steps[c.begunAt] == Begin(id, c.kind)
    && (c.validatedAt.Some? ==>
          c.validatedAt.value < |steps| && steps[c.validatedAt.value].Validate? && steps[c.validatedAt.value].id == id)
    && (c.revokedAt.Some? ==> c.revokedAt.value < |steps| && steps[c.revokedAt.value] == DoRevoke(id))
  }

  /** A refresh goes past the user check only once the user was found active. */
  ghost predicate CheckOk(steps: seq<Step>, id: CallId, c: Call) {
    c.progress == UserChecked ==> UserWasActive(steps, id, c, |steps|)
  }

  /** And so it does before it revokes. */
  ghost predicate RevokeOk(steps: seq<Step>, id: CallId, c: Call) {
    c.kind.Refresh? && c.revokedAt.Some? ==> UserWasActive(steps, id, c, c.revokedAt.value)
  }

  /** A call whose user was found inactive has failed for that reason, and has revoked nothing. */
  ghost predicate InactiveOk(steps: seq<Step>, id: CallId, c: Call) {
    CheckUser(id, false) in steps ==> c.kind.Refresh? && c.progress == Failed(InactiveUser) && c.revokedAt.None?
  }

  /** The pair issued was stored by this call's own transaction, for the user logging in or the old token's owner. */
  ghost predicate IssueOk(steps: seq<Step>, s: System, id: CallId, c: Call) {
    c.progress.Issued? ==>
      && c.endedAt.Some? && c.endedAt.value < |steps|
      && c.progress.newJti in s.rows
      && steps[c.endedAt.value] == DoStore(id, c.progress.newJti, s.rows[c.progress.newJti].expiresAt)
      && (c.kind.Login? ==> s.rows[c.progress.newJti].userId == c.kind.userId)
      && (c.kind.Refresh? ==>
            c.kind.jti in s.rows && s.rows[c.progress.newJti].userId == s.rows[c.kind.jti].userId)
  }

  ghost predicate HistoryOk(steps: seq<Step>, s: System, id: CallId, c: Call) {
    && TimesAreSteps(steps, id, c) && CheckOk(steps, id, c) && RevokeOk(steps, id, c)
    && InactiveOk(steps, id, c) && IssueOk(steps, s, id, c)
  }

  lemma TimesStay(steps: seq<Step>, step: Step, s: System, id: CallId)
    requires Inv(s) && Enabled(s, step) && s.clock == |steps|
    requires id in Next(s, step).calls && (id in s.calls ==> TimesAreSteps(steps, id, s.calls[id]))
    ensures TimesAreSteps(steps + [step], id, Next(s, step).calls[id])
  {
    hide NextRows, Inv;
  }

  lemma ActiveStays(steps: seq<Step>, step: Step, id: CallId, c: Call, until: nat)
    requires UserWasActive(steps, id, c, until)
    ensures UserWasActive(steps + [step], id, c, until)
  {
    var u :| c.validatedAt.value < u < until && steps[u] == CheckUser(id, true);
    assert (steps + [step])[u] == steps[u];
  }

  lemma CheckStays(steps: seq<Step>, step: Step, s: System, id: CallId)
    requires Inv(s) && Enabled(s, step) && s.clock == |steps|
    requires id in Next(s, step).calls && (id in s.calls ==> CheckOk(steps, id, s.calls[id]))
    ensures CheckOk(steps + [step], id, Next(s, step).calls[id])
  {
    if id in s.calls && Next(s, step).calls[id].progress == UserChecked {
      var c := s.calls[id];
      assert CallOk(s, c);
      hide NextRows, Inv, RowsOk;
      if step.id == id {
        assert (steps + [step])[|steps|] == CheckUser(id, true);
      } else {
        ActiveStays(steps, step, id, c, |steps|);
        var u :| c.validatedAt.value < u < |steps| && (steps + [step])[u] == CheckUser(id, true);
      }
    }
  }

  lemma RevokeStays(steps: seq<Step>, step: Step, s: System, id: CallId)
    requires Inv(s) && Enabled(s, step) && s.clock == |steps|
    requires id in Next(s, step).calls
    requires id in s.calls ==> CheckOk(steps, id, s.calls[id]) && RevokeOk(steps, id, s.calls[id])
    ensures RevokeOk(steps + [step], id, Next(s, step).calls[id])
  {
    if id in s.calls {
      var c, c' := s.calls[id], Next(s, step).calls[id];
      assert CallOk(s, c);
      assert c'.kind == c.kind && (c.validatedAt.Some? ==> c'.validatedAt == c.validatedAt);
      hide NextRows, Inv, RowsOk, UserWasActive;
      if c.kind.Refresh? && c.revokedAt.Some? {
        ActiveStays(steps, step, id, c, c.revokedAt.value);
        SameUserWasActive(steps + [step], id, c, c', c.revokedAt.value);
      } else if c.kind.Refresh? && c'.revokedAt.Some? {
        ActiveStays(steps, step, id, c, |steps|);
        SameUserWasActive(steps + [step], id, c, c', |steps|);
      }
    }
  }

  lemma SameUserWasActive(steps: seq<Step>, id: CallId, c: Call, c': Call, until: nat)
    requires UserWasActive(steps, id, c, until) && c'.validatedAt == c.validatedAt
    ensures UserWasActive(steps, id, c', until)
  {
  }

  lemma InactiveStays(steps: seq<Step>, step: Step, s: System, id: CallId)
    requires Inv(s) && Enabled(s, step)
    requires forall k :: 0 <= k < |steps| ==> steps[k].id in s.calls
    requires id in Next(s, step).calls && (id in s.calls ==> InactiveOk(steps, id, s.calls[id]))
    ensures InactiveOk(steps + [step], id, Next(s, step).calls[id])
  {
    if id in s.calls {
      assert CallOk(s, s.calls[id]);
    }
    hide NextRows, Inv;
  }

  lemma IssueStays(steps: seq<Step>, step: Step, s: System, id: CallId)
    requires Inv(s) && Enabled(s, step) && s.clock == |steps|
    requires id in Next(s, step).calls && (id in s.calls ==> IssueOk(steps, s, id, s.calls[id]))
    ensures IssueOk(steps + [step], Next(s, step), id, Next(s, step).calls[id])
  {
    RowsOnlyGrow(s, step);
  }

  lemma HistoryStep(steps: seq<Step>, step: Step, s: System, id: CallId)
    requires Inv(s) && Enabled(s, step) && s.clock == |steps|
    requires forall k :: 0 <= k < |steps| ==> steps[k].id in s.calls
    requires id in Next(s, step).calls && (id in s.calls ==> HistoryOk(steps, s, id, s.calls[id]))
    ensures HistoryOk(steps + [step], Next(s, step), id, Next(s, step).calls[id])
  {
    hide Inv, TimesAreSteps, CheckOk, RevokeOk, InactiveOk, IssueOk, Next, Enabled;
    TimesStay(steps, step, s, id);
    CheckStays(steps, step, s, id);
    RevokeStays(steps, step, s, id);
    InactiveStays(steps, step, s, id);
    IssueStays(steps, step, s, id);
  }

  lemma {:induction false} HistoryRun(steps: seq<Step>)
    requires Run(steps).Some?
    ensures forall id :: id in Run(steps).value.calls ==>
              HistoryOk(steps, Run(steps).value, id, Run(steps).value.calls[id])
    ensures forall k :: 0 <= k < |steps| ==> steps[k].id in Run(steps).value.calls
    decreases |steps|
  {
    if steps != [] {
      var front, step := steps[..|steps| - 1], steps[|steps| - 1];
      HistoryRun(front);
      InvRun(front);
      var s := Run(front).value;
      assert steps == front + [step];
      hide Inv, HistoryOk, NextRows, NextCall, Enabled;
      forall id | id in Next(s, step).calls
        ensures HistoryOk(steps, Next(s, step), id, Next(s, step).calls[id])
      {
        HistoryStep(front, step, s, id);
      }
    }
  }

  // ----- theorems over every schedule

  /** The five transactions of a refresh of `jti`, in order. */
  ghost predicate FiveSteps(steps: seq<Step>, id: CallId, jti: Jti, b: nat, v: nat, u: nat, r: nat, d: nat) {
    && b < v < u < r < d < |steps|
    && steps[b] == Begin(id, Refresh(jti))
    && steps[v].Validate? && steps[v].id == id
    && steps[u] == CheckUser(id, true)
    && steps[r] == DoRevoke(id)
    && steps[d].DoStore? && steps[d].id == id
  }

  /**
    A refresh has succeeded only by its five transactions in order, an active user among them; the token it presented
    is revoked, and the one it got belongs to the same user and has the expiry then given.
   */
  lemma SuccessfulRefreshTookFiveSteps(steps: seq<Step>, id: CallId, jti: Jti)
    returns (b: nat, v: nat, u: nat, r: nat, d: nat)
    requires Run(steps).Some? && Refreshed(Run(steps).value, id, jti)
    ensures FiveSteps(steps, id, jti, b, v, u, r, d)
    ensures var rows, newJti := Run(steps).value.rows, Run(steps).value.calls[id].progress.newJti;
            && steps[d].newJti == newJti && newJti in rows && rows[newJti].expiresAt == steps[d].expiresAt
            && jti in rows && rows[jti].revoked && rows[newJti].userId == rows[jti].userId
  {
    HistoryRun(steps);
    InvRun(steps);
    hide Run, HistoryOk, TimesOk, ProgressOk, RowsOk;
    b, v, u, r, d := FiveStepsOf(steps, Run(steps).value, id, jti);
  }

  lemma FiveStepsOf(steps: seq<Step>, s: System, id: CallId, jti: Jti) returns (b: nat, v: nat, u: nat, r: nat, d: nat)
    requires Refreshed(s, id, jti) && CallOk(s, s.calls[id]) && HistoryOk(steps, s, id, s.calls[id])
    ensures FiveSteps(steps, id, jti, b, v, u, r, d)
    ensures var newJti := s.calls[id].progress.newJti;
            && steps[d].newJti == newJti && newJti in s.rows && s.rows[newJti].expiresAt == steps[d].expiresAt
            && jti in s.rows && s.rows[jti].revoked && s.rows[newJti].userId == s.rows[jti].userId
  {
    var c := s.calls[id];
    assert RevokedFor(c, jti);
    b, v, r, d := c.begunAt, c.validatedAt.value, c.revokedAt.value, c.endedAt.value;
    u :| v < u < r <= |steps| && steps[u] == CheckUser(id, true);
    assert r != d by {
      assert steps[r] == DoRevoke(id) && steps[d].DoStore?;
    }
  }

  /** A call whose user is found inactive fails with that error, revokes nothing and is issued nothing. */
  lemma InactiveUserGetsNothing(steps: seq<Step>, id: CallId)
    requires Run(steps).Some? && CheckUser(id, false) in steps
    ensures id in Run(steps).value.calls
    ensures var c := Run(steps).value.calls[id];
            c.progress == Failed(InactiveUser) && c.revokedAt.None? && DoRevoke(id) !in steps
  {
    HistoryRun(steps);
    var k :| 0 <= k < |steps| && steps[k] == CheckUser(id, false);
    assert steps[k].id == id;
    if DoRevoke(id) in steps {
      RevokingIsRecorded(steps, id);
    }
  }

  lemma {:induction false} RevokingIsRecorded(steps: seq<Step>, id: CallId)
    requires Run(steps).Some? && DoRevoke(id) in steps
    ensures id in Run(steps).value.calls && Run(steps).value.calls[id].revokedAt.Some?
    decreases |steps|
  {
    var front, step := steps[..|steps| - 1], steps[|steps| - 1];
    if step != DoRevoke(id) {
      assert DoRevoke(id) in front;
      RevokingIsRecorded(front, id);
      InvRun(front);
      assert CallOk(Run(front).value, Run(front).value.calls[id]);
    }
  }

  /** What a validation answers: the error of the first guard that fails, in the order of the guards. */
  lemma ValidationVerdict(s: System, id: CallId, now: int)
    requires Enabled(s, Validate(id, now))
    ensures var jti, verdict := s.calls[id].kind.jti, Next(s, Validate(id, now)).calls[id].progress;
            && (jti !in s.rows ==> verdict == Failed(InvalidToken))
            && (jti in s.rows && s.rows[jti].revoked ==> verdict == Failed(TokenRevoked))
            && (jti in s.rows && !s.rows[jti].revoked && s.rows[jti].expiresAt < now ==>
                  verdict == Failed(TokenExpired))
            && (jti in s.rows && !s.rows[jti].revoked && s.rows[jti].expiresAt >= now ==> verdict == Validated)
  {
  }

  /** What storing a new pair answers, and the row it leaves. */
  lemma StoreVerdict(s: System, id: CallId, newJti: Jti, expiresAt: int)
    requires Enabled(s, DoStore(id, newJti, expiresAt))
    ensures var s' := Next(s, DoStore(id, newJti, expiresAt));
            if newJti in s.rows then s'.calls[id].progress == Failed(IntegrityError) && s'.rows == s.rows
            else
              && s'.calls[id].progress == Issued(newJti)
              && s'.rows.Keys == s.rows.Keys + {newJti}
              && s'.rows[newJti].expiresAt == expiresAt && !s'.rows[newJti].revoked
              && forall jti :: jti in s.rows ==> s'.rows[jti] == s.rows[jti]
  {
  }
}
