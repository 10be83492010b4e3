/** models/Session.js: the `sessao` table. A session is live while its expiry is strictly
    in the future; cleanup deletes only sessions whose expiry is strictly in the past. */
module Sessions {
  import opened Base
  import Tables

  /** One row: `id`, `usuario_id`, `jwt_token`, `refresh_token`, `expires_at`, `criado_em`. */
  datatype SessionRow = SessionRow(
    id: nat, userId: nat, jwtToken: string, refreshToken: Option<string>, expiresAt: int, createdAt: int)

  function SessionId(r: SessionRow): nat
  {
    r.id
  }

  function CreatedAt(r: SessionRow): int
  {
    r.createdAt
  }

  /** `expires_at > CURRENT_TIMESTAMP`. */
  function Live(now: int): SessionRow -> bool
  {
    (r: SessionRow) => r.expiresAt > now
  }

  /** `jwt_token = $1 AND expires_at > CURRENT_TIMESTAMP`. */
  function LiveWithToken(token: string, now: int): SessionRow -> bool
  {
    (r: SessionRow) => r.jwtToken == token && r.expiresAt > now
  }

  /** `NOT (expires_at < CURRENT_TIMESTAMP)`: what cleanup keeps. */
  function NotExpired(now: int): SessionRow -> bool
  {
    (r: SessionRow) => !(r.expiresAt < now)
  }

  /** `expires_at < CURRENT_TIMESTAMP`: what cleanup deletes. */
  function Expired(now: int): SessionRow -> bool
  {
    (r: SessionRow) => r.expiresAt < now
  }

  /** `findByToken`: a session with the token whose expiry is strictly after `now`. */
  function FindByToken(rows: seq<SessionRow>, token: string, now: int): (r: Option<SessionRow>)
    ensures r.None? <==> forall x :: x in rows ==> !(x.jwtToken == token && x.expiresAt > now)
    ensures r.Some? ==> r.value in rows && r.value.jwtToken == token && r.value.expiresAt > now
  {
    Tables.FindFirst(LiveWithToken(token, now), rows)
  }

  /** `findByUserId`: the user's live sessions, newest first. */
  function FindByUserId(rows: seq<SessionRow>, userId: nat, now: int): (r: seq<SessionRow>)
    ensures multiset(r) == multiset(Tables.Filter((x: SessionRow) => x.userId == userId && x.expiresAt > now, rows))
    ensures forall x :: x in r <==> x in rows && x.userId == userId && x.expiresAt > now
    ensures Tables.Descending(r, CreatedAt)
  {
    var mine := Tables.Filter((x: SessionRow) => x.userId == userId && x.expiresAt > now, rows);
    var sorted := Tables.SortDesc(mine, CreatedAt);
    assert forall x :: x in sorted <==> x in mine by {
      forall x ensures x in sorted <==> x in mine {
        assert x in sorted <==> x in multiset(sorted);
        assert x in mine <==> x in multiset(mine);
      }
    }
    sorted
  }

  /** Cleanup never changes what `findByToken` returns at the same instant. */
  lemma CleanupKeepsFindByToken(rows: seq<SessionRow>, token: string, now: int)
    ensures FindByToken(Tables.Filter(NotExpired(now), rows), token, now) == FindByToken(rows, token, now)
  {
    Tables.FindFirstFiltered(LiveWithToken(token, now), NotExpired(now), rows);
  }

  /** A session expiring exactly now is kept by cleanup, yet `findByToken` no longer finds it. */
  lemma ExpiringNowIsKeptButNotFound(rows: seq<SessionRow>, s: SessionRow, now: int)
    requires s in rows && s.expiresAt == now
    ensures s in Tables.Filter(NotExpired(now), rows)
    ensures FindByToken(rows, s.jwtToken, now) != Some(s)
  {
  }

  /** Cleanup removes exactly the expired sessions: the kept and the removed add up to the
      table, and the kept are the ones not expired. */
  lemma CleanupCount(rows: seq<SessionRow>, now: int)
    ensures |Tables.Filter(NotExpired(now), rows)| + |Tables.Filter(Expired(now), rows)| == |rows|
  {
    Tables.FilterSplit(NotExpired(now), Expired(now), rows);
  }

  /** The `sessao` table, with the next value of its `id` sequence. */
  class SessionTable {
    var rows: seq<SessionRow>
    var nextId: nat

    ghost predicate Valid()
      reads this
    {
      nextId >= 1 && Tables.Serial(rows, SessionId, nextId)
    }

    constructor ()
      ensures Valid()
      ensures rows == [] && nextId == 1
    {
      rows := [];
      nextId := 1;
    }

    /** `create`: appends exactly one session, created now, and returns it. */
    method Create(userId: nat, jwtToken: string, refreshToken: Option<string>, expiresAt: int, now: int)
      returns (row: SessionRow)
      requires Valid()
      modifies this
      ensures Valid()
      ensures row == SessionRow(old(nextId), userId, jwtToken, refreshToken, expiresAt, now)
      ensures rows == old(rows) + [row] && nextId == old(nextId) + 1
    {
      row := SessionRow(nextId, userId, jwtToken, refreshToken, expiresAt, now);
      Tables.SerialAppend(rows, SessionId, nextId, row);
      rows := rows + [row];
      nextId := nextId + 1;
    }

    /** `invalidateByToken`: deletes every session with the token, keeps the rest in order,
        and reports success. */
    method InvalidateByToken(token: string) returns (ok: bool)
      requires Valid()
      modifies this
      ensures Valid()
      ensures rows == Tables.Filter((x: SessionRow) => x.jwtToken != token, old(rows))
      ensures forall x :: x in rows <==> x in old(rows) && x.jwtToken != token
      ensures nextId == old(nextId) && ok
    {
      rows := Tables.Filter((x: SessionRow) => x.jwtToken != token, rows);
      Tables.SerialFilter((x: SessionRow) => x.jwtToken != token, old(rows), SessionId, nextId);
      ok := true;
    }

    /** `invalidateByUserId`: deletes every session of the user, keeps the rest in order, and
        reports success. */
    method InvalidateByUserId(userId: nat) returns (ok: bool)
      requires Valid()
      modifies this
      ensures Valid()
      ensures rows == Tables.Filter((x: SessionRow) => x.userId != userId, old(rows))
      ensures forall x :: x in rows <==> x in old(rows) && x.userId != userId
      ensures nextId == old(nextId) && ok
    {
      rows := Tables.Filter((x: SessionRow) => x.userId != userId, rows);
      Tables.SerialFilter((x: SessionRow) => x.userId != userId, old(rows), SessionId, nextId);
      ok := true;
    }

    /** `cleanupExpired`: deletes exactly the sessions whose expiry is strictly before `now`
        and returns how many it deleted. */
    method CleanupExpired(now: int) returns (deleted: nat)
      requires Valid()
      modifies this
      ensures Valid()
      ensures rows == Tables.Filter(NotExpired(now), old(rows))
      ensures deleted == |Tables.Filter(Expired(now), old(rows))|
      ensures deleted == |old(rows)| - |rows|
      ensures nextId == old(nextId)
    {
      var before := rows;
      rows := Tables.Filter(NotExpired(now), rows);
      Tables.SerialFilter(NotExpired(now), before, SessionId, nextId);
      CleanupCount(before, now);
      deleted := |before| - |rows|;
    }
  }
}
