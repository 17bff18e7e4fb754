/**
  Refresh-token rows (`auth/repository.py`) and the service calls over them, each run on its own (`auth/service.py`).
  A decoded token is its `jti`; decoding, hashing, the clock and the new identifier are inputs.
 */
module TokenStore {
  import opened Wrappers

  type Jti = string
  type UserId = int

  datatype Row = Row(userId: UserId, expiresAt: int, revoked: bool)

  type Rows = map<Jti, Row>

  datatype AuthError = InvalidToken | TokenExpired | TokenRevoked | InactiveUser | IntegrityError

  function Store(rows: Rows, jti: Jti, userId: UserId, expiresAt: int): Rows {
    rows[jti := Row(userId, expiresAt, false)]
  }

  /** Revoking an unknown token is a no-op. */
  function Revoke(rows: Rows, jti: Jti): Rows {
    if jti in rows then rows[jti := rows[jti].(revoked := true)] else rows
  }

  /** The user's unrevoked tokens. */
  function Active(rows: Rows, userId: UserId): set<Jti> {
    set jti | jti in rows && rows[jti].userId == userId && !rows[jti].revoked
  }

  predicate Usable(rows: Rows, jti: Jti, now: int) {
    jti in rows && !rows[jti].revoked && rows[jti].expiresAt >= now
  }

  /** Why a token that cannot be used is refused. */
  function Refusal(claims: Result<Jti, AuthError>, rows: Rows): AuthError {
    match claims
    case Err(error) => error
    case Ok(jti) =>
      if jti !in rows then InvalidToken else if rows[jti].revoked then TokenRevoked else TokenExpired
  }

  /** Rows are never deleted, never change owner, and `revoked` never goes back to false. */
  ghost predicate Later(before: Rows, after: Rows) {
    forall jti :: jti in before ==>
      && jti in after
      && after[jti].userId == before[jti].userId
      && after[jti].expiresAt == before[jti].expiresAt
      && (before[jti].revoked ==> after[jti].revoked)
  }

  /** Rotation: the presented token is spent and exactly one new one takes its place. */
  lemma RotationConserves(rows: Rows, jti: Jti, newJti: Jti, expiresAt: int, other: UserId)
    requires jti in rows && !rows[jti].revoked && newJti !in rows
    ensures var user := rows[jti].userId;
            var after := Store(Revoke(rows, jti), newJti, user, expiresAt);
            && Later(rows, after)
            && Active(after, user) == Active(rows, user) - {jti} + {newJti}
            && |Active(after, user)| == |Active(rows, user)|
            && (other != user ==> Active(after, other) == Active(rows, other))
  {
    var user := rows[jti].userId;
    var after := Store(Revoke(rows, jti), newJti, user, expiresAt);
    assert Active(after, user) == Active(rows, user) - {jti} + {newJti};
    if other != user {
      assert Active(after, other) == Active(rows, other);
    }
  }

  lemma RevocationLowersByOne(rows: Rows, jti: Jti, other: UserId)
    requires jti in rows && !rows[jti].revoked
    ensures var user := rows[jti].userId;
            && Later(rows, Revoke(rows, jti))
            && Active(Revoke(rows, jti), user) == Active(rows, user) - {jti}
            && |Active(Revoke(rows, jti), user)| == |Active(rows, user)| - 1
            && (other != user ==> Active(Revoke(rows, jti), other) == Active(rows, other))
  {
    var user := rows[jti].userId;
    assert Active(Revoke(rows, jti), user) == Active(rows, user) - {jti};
    if other != user {
      assert Active(Revoke(rows, jti), other) == Active(rows, other);
    }
  }

  lemma IssueRaisesByOne(rows: Rows, user: UserId, newJti: Jti, expiresAt: int, other: UserId)
    requires newJti !in rows
    ensures var after := Store(rows, newJti, user, expiresAt);
            && Later(rows, after)
            && Active(after, user) == Active(rows, user) + {newJti}
            && |Active(after, user)| == |Active(rows, user)| + 1
            && (other != user ==> Active(after, other) == Active(rows, other))
  {
    var after := Store(rows, newJti, user, expiresAt);
    assert Active(after, user) == Active(rows, user) + {newJti};
    if other != user {
      assert Active(after, other) == Active(rows, other);
    }
  }

  /** Persistence only; each method is one transaction. */
  class AuthenticationRepository {
    var rows: Rows
    var activeUsers: map<UserId, bool>

    constructor (users: map<UserId, bool>)
      ensures rows == map[] && activeUsers == users
    {
      rows := map[];
      activeUsers := users;
    }

    /** The unique constraint on `jti` is what refuses a repeated identifier. */
    method StoreRefreshToken(userId: UserId, jti: Jti, expiresAt: int) returns (r: Result<Row, AuthError>)
      modifies this`rows
      ensures r.Ok? <==> jti !in old(rows)
      ensures r.Err? ==> r.error == IntegrityError && rows == old(rows)
      ensures r.Ok? ==> r.value == Row(userId, expiresAt, false) && rows == Store(old(rows), jti, userId, expiresAt)
    {
      if jti in rows {
        return Err(IntegrityError);
      }
      var row := Row(userId, expiresAt, false);
      rows := rows[jti := row];
      r := Ok(row);
    }

    method GetRefreshToken(jti: Jti) returns (r: Option<Row>)
      ensures r == if jti in rows then Some(rows[jti]) else None
    {
      r := if jti in rows then Some(rows[jti]) else None;
    }

    method RevokeRefreshToken(jti: Jti)
      modifies this`rows
      ensures rows == Revoke(old(rows), jti)
    {
      if jti in rows {
        rows := rows[jti := rows[jti].(revoked := true)];
      }
    }

    /** Whether the user exists and is active. */
    method IsActive(userId: UserId) returns (active: bool)
      ensures active <==> userId in activeUsers && activeUsers[userId]
    {
      active := userId in activeUsers && activeUsers[userId];
    }
  }

  class AuthenticationService {
    const repository: AuthenticationRepository
    const lifetime: int

    constructor (repository: AuthenticationRepository, lifetime: int)
      ensures this.repository == repository && this.lifetime == lifetime
    {
      this.repository := repository;
      this.lifetime := lifetime;
    }

    ghost predicate UserActive(userId: UserId)
      reads repository
    {
      userId in repository.activeUsers && repository.activeUsers[userId]
    }

    method CreateTokenPair(userId: UserId, now: int, newJti: Jti) returns (r: Result<Jti, AuthError>)
      modifies repository`rows
      ensures r == if newJti in old(repository.rows) then Err(IntegrityError) else Ok(newJti)
      ensures r.Ok? ==>
                && repository.rows == old(repository.rows)[newJti := Row(userId, now + lifetime, false)]
                && Active(repository.rows, userId) == Active(old(repository.rows), userId) + {newJti}
                && |Active(repository.rows, userId)| == |Active(old(repository.rows), userId)| + 1
      ensures r.Err? ==> repository.rows == old(repository.rows)
    {
      ghost var before := repository.rows;
      var stored := repository.StoreRefreshToken(userId, newJti, now + lifetime);
      if stored.Err? {
        return Err(stored.error);
      }
      IssueRaisesByOne(before, userId, newJti, now + lifetime, userId);
      r := Ok(newJti);
    }

    /** `claims` is the outcome of decoding the presented token. */
    method ValidateRefreshToken(claims: Result<Jti, AuthError>, now: int) returns (r: Result<(Jti, Row), AuthError>)
      ensures r.Ok? <==>
                && claims.Ok? && claims.value in repository.rows
                && !repository.rows[claims.value].revoked && now <= repository.rows[claims.value].expiresAt
      ensures r.Ok? <==> claims.Ok? && Usable(repository.rows, claims.value, now)
      ensures r.Ok? ==> r.value == (claims.value, repository.rows[claims.value])
      ensures r.Err? ==> r.error == Refusal(claims, repository.rows)
      ensures claims.Err? ==> r == Err(claims.error)
      ensures claims.Ok? && claims.value !in repository.rows ==> r == Err(InvalidToken)
      ensures claims.Ok? && claims.value in repository.rows && repository.rows[claims.value].revoked ==>
                r == Err(TokenRevoked)
      ensures (claims.Ok? && claims.value in repository.rows && !repository.rows[claims.value].revoked
               && repository.rows[claims.value].expiresAt < now) ==> r == Err(TokenExpired)
    {
      if claims.Err? {
        return Err(claims.error);
      }
      var row := repository.GetRefreshToken(claims.value);
      if row.None? {
        return Err(InvalidToken);
      }
      if row.value.revoked {
        return Err(TokenRevoked);
      }
      if row.value.expiresAt < now {
        return Err(TokenExpired);
      }
      r := Ok((claims.value, row.value));
    }

    method RefreshTokens(claims: Result<Jti, AuthError>, now: int, newJti: Jti) returns (r: Result<Jti, AuthError>)
      modifies repository`rows
      ensures r.Ok? <==>
                && claims.Ok? && old(Usable(repository.rows, claims.value, now))
                && old(UserActive(repository.rows[claims.value].userId))
                && newJti !in old(repository.rows)
      ensures r.Ok? ==>
                && r.value == newJti
                && var user := old(repository.rows)[claims.value].userId;
                && repository.rows == Store(Revoke(old(repository.rows), claims.value), newJti, user, now + lifetime)
                && |Active(repository.rows, user)| == |Active(old(repository.rows), user)|
                && !Usable(repository.rows, claims.value, now)
                && repository.rows[newJti] == Row(user, now + lifetime, false)
                && repository.rows[claims.value] == old(repository.rows)[claims.value].(revoked := true)
                && (forall jti :: jti in old(repository.rows) && jti != claims.value ==>
                      jti in repository.rows && repository.rows[jti] == old(repository.rows)[jti])
      ensures r.Err? && r.error != IntegrityError ==> repository.rows == old(repository.rows)
      ensures (claims.Ok? && old(Usable(repository.rows, claims.value, now))
               && !old(UserActive(repository.rows[claims.value].userId))) ==> r == Err(InactiveUser)
      ensures !(claims.Ok? && old(Usable(repository.rows, claims.value, now))) ==>
                r == Err(Refusal(claims, old(repository.rows)))
      ensures r.Err? && claims.Ok? && repository.rows != old(repository.rows) ==>
                repository.rows == Revoke(old(repository.rows), claims.value)
    {
      ghost var before := repository.rows;
      var validated := ValidateRefreshToken(claims, now);
      if validated.Err? {
        return Err(validated.error);
      }
      var (jti, row) := validated.value;
      var active := repository.IsActive(row.userId);
      if !active {
        return Err(InactiveUser);
      }
      repository.RevokeRefreshToken(jti);
      r := CreateTokenPair(row.userId, now, newJti);
      if r.Ok? {
        RotationConserves(before, jti, newJti, now + lifetime, row.userId);
      }
    }

    method Logout(claims: Result<Jti, AuthError>, now: int) returns (r: Result<(), AuthError>)
      modifies repository`rows
      ensures r.Ok? <==> claims.Ok? && old(Usable(repository.rows, claims.value, now))
      ensures r.Err? ==> repository.rows == old(repository.rows) && r.error == Refusal(claims, old(repository.rows))
      ensures r.Ok? ==>
                var user := old(repository.rows)[claims.value].userId;
                && repository.rows == Revoke(old(repository.rows), claims.value)
                && repository.rows[claims.value] == old(repository.rows)[claims.value].(revoked := true)
                && (forall jti :: jti in old(repository.rows) && jti != claims.value ==>
                      jti in repository.rows && repository.rows[jti] == old(repository.rows)[jti])
                && |Active(repository.rows, user)| == |Active(old(repository.rows), user)| - 1
    {
      ghost var before := repository.rows;
      var validated := ValidateRefreshToken(claims, now);
      if validated.Err? {
        return Err(validated.error);
      }
      var (jti, _) := validated.value;
      repository.RevokeRefreshToken(jti);
      RevocationLowersByOne(before, jti, before[jti].userId);
      r := Ok(());
    }
  }
}
