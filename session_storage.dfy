/** The session table and its repository (internal/session/session_storage.go).
    The table is a sequence of `(session_token, user_id)` rows; no uniqueness
    constraint of the database is assumed. The invariant the model keeps is
    that a token names one user and that no row holds the empty token. */
module SessionStorage {
  import opened Wrappers
  import opened SessionCtx
  import opened UserRecord
  import opened Http

  const AuthorizationHeader := "Authorization"

  predicate HasToken(rows: seq<Session>, token: string) {
    exists i | 0 <= i < |rows| :: rows[i].sessionId == token
  }

  predicate HasUser(rows: seq<Session>, userId: nat) {
    exists i | 0 <= i < |rows| :: rows[i].userId == userId
  }

  /** Every token belongs to one user and the empty token (a missing header) is never stored. */
  predicate ValidTable(rows: seq<Session>) {
    && !HasToken(rows, "")
    && forall i, j | 0 <= i < |rows| && 0 <= j < |rows| && rows[i].sessionId == rows[j].sessionId ::
         rows[i].userId == rows[j].userId
  }

  /** `SELECT user_id FROM session WHERE session_token = $1`, first row: exact match only. */
  function UserIdByToken(rows: seq<Session>, token: string): (r: Option<nat>)
    ensures r.Some? <==> HasToken(rows, token)
    ensures r.Some? ==> Session(token, r.value) in rows
  {
    if rows == [] then None
    else if rows[0].sessionId == token then Some(rows[0].userId)
    else
      var rest := UserIdByToken(rows[1..], token);
      assert HasToken(rows[1..], token) ==> HasToken(rows, token) by {
        if HasToken(rows[1..], token) {
          var k :| 0 <= k < |rows[1..]| && rows[1..][k].sessionId == token;
          assert rows[k + 1].sessionId == token;
        }
      }
      rest
  }

  /** `SELECT session_token FROM session WHERE user_id = $1`, first row. */
  function TokenByUserId(rows: seq<Session>, userId: nat): (r: Option<string>)
    ensures r.Some? <==> HasUser(rows, userId)
    ensures r.Some? ==> Session(r.value, userId) in rows
  {
    if rows == [] then None
    else if rows[0].userId == userId then Some(rows[0].sessionId)
    else
      var rest := TokenByUserId(rows[1..], userId);
      assert HasUser(rows[1..], userId) ==> HasUser(rows, userId) by {
        if HasUser(rows[1..], userId) {
          var k :| 0 <= k < |rows[1..]| && rows[1..][k].userId == userId;
          assert rows[k + 1].userId == userId;
        }
      }
      rest
  }

  /** `UPDATE session SET session_token = t WHERE user_id = u`. */
  function Rotate(rows: seq<Session>, userId: nat, token: string): (after: seq<Session>)
    ensures |after| == |rows|
    ensures forall i | 0 <= i < |rows| :: after[i].userId == rows[i].userId
    ensures forall i | 0 <= i < |rows| && rows[i].userId != userId :: after[i] == rows[i]
    ensures forall i | 0 <= i < |rows| && rows[i].userId == userId :: after[i].sessionId == token
  {
    seq(|rows|, i requires 0 <= i < |rows| =>
      if rows[i].userId == userId then Session(token, userId) else rows[i])
  }

  /** `DELETE FROM session WHERE user_id = u`. */
  function RemoveUser(rows: seq<Session>, userId: nat): (after: seq<Session>)
    ensures |after| <= |rows|
    ensures forall s | s in after :: s in rows && s.userId != userId
  {
    if rows == [] then []
    else if rows[0].userId == userId then RemoveUser(rows[1..], userId)
    else [rows[0]] + RemoveUser(rows[1..], userId)
  }

  // ---- lookups ---------------------------------------------------------------

  /** In a valid table a token resolves to a user exactly when a row pairs them. */
  lemma ResolveIsExact(rows: seq<Session>, token: string, userId: nat)
    requires ValidTable(rows)
    ensures UserIdByToken(rows, token) == Some(userId) <==> Session(token, userId) in rows
  {
    if Session(token, userId) in rows {
      var i :| 0 <= i < |rows| && rows[i] == Session(token, userId);
      var r := UserIdByToken(rows, token);
      var j :| 0 <= j < |rows| && rows[j] == Session(token, r.value);
      assert rows[i].sessionId == rows[j].sessionId;
    }
  }

  /** An absent `Authorization` header is the empty token, which resolves to no one. */
  lemma EmptyTokenResolvesToNoOne(rows: seq<Session>)
    requires ValidTable(rows)
    ensures UserIdByToken(rows, "") == None
  {
  }

  lemma {:induction false} LookupAfterAppend(rows: seq<Session>, s: Session, token: string)
    requires !HasToken(rows, token) || token != s.sessionId
    ensures UserIdByToken(rows + [s], token) ==
      if HasToken(rows, token) then UserIdByToken(rows, token)
      else if s.sessionId == token then Some(s.userId) else None
  {
    if rows == [] {
      assert rows + [s] == [s];
      assert [s][1..] == [];
    } else {
      assert (rows + [s])[1..] == rows[1..] + [s];
      if rows[0].sessionId != token {
        assert HasToken(rows, token) ==> HasToken(rows[1..], token) by {
          if HasToken(rows, token) {
            var k :| 0 <= k < |rows| && rows[k].sessionId == token;
            assert rows[1..][k - 1].sessionId == token;
          }
        }
        LookupAfterAppend(rows[1..], s, token);
      }
    }
  }

  /** After inserting a fresh token, it resolves to its user and every other token resolves as before. */
  lemma InsertResolves(rows: seq<Session>, token: string, userId: nat)
    requires !HasToken(rows, token)
    ensures UserIdByToken(rows + [Session(token, userId)], token) == Some(userId)
    ensures forall t | t != token ::
      UserIdByToken(rows + [Session(token, userId)], t) == UserIdByToken(rows, t)
  {
    LookupAfterAppend(rows, Session(token, userId), token);
    forall t | t != token
      ensures UserIdByToken(rows + [Session(token, userId)], t) == UserIdByToken(rows, t)
    {
      LookupAfterAppend(rows, Session(token, userId), t);
    }
  }

  lemma InsertPreservesValid(rows: seq<Session>, token: string, userId: nat)
    requires ValidTable(rows) && token != "" && !HasToken(rows, token)
    ensures ValidTable(rows + [Session(token, userId)])
  {
    var after := rows + [Session(token, userId)];
    assert forall i | 0 <= i < |rows| :: after[i] == rows[i];
  }

  // ---- rotation --------------------------------------------------------------

  /** Rotation invalidates every token the user had. */
  lemma RotateInvalidatesOldToken(rows: seq<Session>, userId: nat, token: string, old_token: string)
    requires ValidTable(rows)
    requires Session(old_token, userId) in rows && token != old_token
    ensures UserIdByToken(Rotate(rows, userId, token), old_token) == None
  {
    var after := Rotate(rows, userId, token);
    var i :| 0 <= i < |rows| && rows[i] == Session(old_token, userId);
    forall j | 0 <= j < |after|
      ensures after[j].sessionId != old_token
    {
      if rows[j].userId != userId {
        assert rows[j].sessionId != rows[i].sessionId;
      }
    }
  }

  /** A rotated-in fresh token resolves to the user, when the user had a row. */
  lemma RotateResolvesNewToken(rows: seq<Session>, userId: nat, token: string)
    requires !HasToken(rows, token) && HasUser(rows, userId)
    ensures UserIdByToken(Rotate(rows, userId, token), token) == Some(userId)
  {
    var after := Rotate(rows, userId, token);
    var i :| 0 <= i < |rows| && rows[i].userId == userId;
    assert after[i].sessionId == token;
    var r := UserIdByToken(after, token);
    var j :| 0 <= j < |after| && after[j] == Session(token, r.value);
    assert rows[j].userId == userId;
  }

  /** With no row for the user the update touches nothing, and the token it reports resolves to no one. */
  lemma RotateWithoutRowChangesNothing(rows: seq<Session>, userId: nat, token: string)
    requires !HasUser(rows, userId) && !HasToken(rows, token)
    ensures Rotate(rows, userId, token) == rows
    ensures UserIdByToken(Rotate(rows, userId, token), token) == None
  {
    assert forall i | 0 <= i < |rows| :: rows[i].userId != userId;
  }

  /** Rotation leaves other users' rows, and therefore their lookups, as they were. */
  lemma RotateKeepsOtherUsers(rows: seq<Session>, userId: nat, token: string, other: nat)
    requires other != userId
    ensures TokenByUserId(Rotate(rows, userId, token), other) == TokenByUserId(rows, other)
  {
    if rows != [] {
      assert Rotate(rows, userId, token)[1..] == Rotate(rows[1..], userId, token);
      RotateKeepsOtherUsers(rows[1..], userId, token, other);
    }
  }

  lemma RotatePreservesValid(rows: seq<Session>, userId: nat, token: string)
    requires ValidTable(rows) && token != "" && !HasToken(rows, token)
    ensures ValidTable(Rotate(rows, userId, token))
  {
    var after := Rotate(rows, userId, token);
    forall i, j | 0 <= i < |after| && 0 <= j < |after| && after[i].sessionId == after[j].sessionId
      ensures after[i].userId == after[j].userId
    {
      assert after[i] == rows[i] || after[i] == Session(token, userId);
      assert after[j] == rows[j] || after[j] == Session(token, userId);
    }
  }

  // ---- deletion --------------------------------------------------------------

  lemma {:induction false} RemoveUserRows(rows: seq<Session>, userId: nat)
    ensures forall s | s in RemoveUser(rows, userId) :: s in rows && s.userId != userId
    ensures forall s | s in rows && s.userId != userId :: s in RemoveUser(rows, userId)
  {
    if rows != [] {
      RemoveUserRows(rows[1..], userId);
      assert forall s | s in rows :: s == rows[0] || s in rows[1..];
    }
  }

  /** Deleting removes every row of the user and keeps the others; deleting
      again changes nothing, and a table without the user's rows is left alone. */
  lemma {:induction false} RemoveUserIsIdempotent(rows: seq<Session>, userId: nat)
    ensures !HasUser(RemoveUser(rows, userId), userId)
    ensures RemoveUser(RemoveUser(rows, userId), userId) == RemoveUser(rows, userId)
    ensures !HasUser(rows, userId) ==> RemoveUser(rows, userId) == rows
  {
    if rows != [] {
      RemoveUserIsIdempotent(rows[1..], userId);
      RemoveUserRows(rows, userId);
      var after := RemoveUser(rows, userId);
      assert forall i | 0 <= i < |after| :: after[i] in after;
      if !HasUser(rows, userId) {
        assert !HasUser(rows[1..], userId) by {
          forall k | 0 <= k < |rows[1..]| ensures rows[1..][k].userId != userId {
            assert rows[1..][k] == rows[k + 1];
          }
        }
      }
    }
  }

  /** After the delete no token of the user resolves, while other users keep resolving. */
  lemma RemoveUserRevokes(rows: seq<Session>, userId: nat, token: string, other: nat)
    requires ValidTable(rows)
    ensures ValidTable(RemoveUser(rows, userId))
    ensures Session(token, userId) in rows ==> UserIdByToken(RemoveUser(rows, userId), token) == None
    ensures other != userId ==>
      (UserIdByToken(RemoveUser(rows, userId), token) == Some(other) <==> Session(token, other) in rows)
  {
    RemoveUserRows(rows, userId);
    var after := RemoveUser(rows, userId);
    assert forall i | 0 <= i < |after| :: after[i] in after;
    assert forall i | 0 <= i < |after| :: after[i] in rows;
    assert ValidTable(after) by {
      forall i, j | 0 <= i < |after| && 0 <= j < |after| && after[i].sessionId == after[j].sessionId
        ensures after[i].userId == after[j].userId
      {
        var a, b := after[i], after[j];
        assert a in rows && b in rows;
        var p :| 0 <= p < |rows| && rows[p] == a;
        var q :| 0 <= q < |rows| && rows[q] == b;
      }
    }
    if Session(token, userId) in rows {
      var p :| 0 <= p < |rows| && rows[p] == Session(token, userId);
      forall i | 0 <= i < |after| ensures after[i].sessionId != token {
        var q :| 0 <= q < |rows| && rows[q] == after[i];
        assert rows[q].sessionId != rows[p].sessionId;
      }
    }
    ResolveIsExact(after, token, other);
  }

  // ---- the repository --------------------------------------------------------

  /** `SessionRepo` over its table. Each database call takes `dbError`, the
      failure the database may report for reasons the table does not show;
      `token` stands for the value `CreateToken` returns. */
  class SessionRepo {
    var rows: seq<Session>

    ghost predicate Valid()
      reads this
    {
      ValidTable(rows)
    }

    constructor ()
      ensures rows == [] && Valid()
    {
      rows := [];
    }

    /** `Check`: the `Authorization` header's token paired with its row's user. */
    method Check(r: Request, dbError: bool) returns (res: Result<Session>)
      ensures res.Ok? <==> !dbError && HasToken(rows, HeaderGet(r, AuthorizationHeader))
      ensures res.Ok? ==> res.value.sessionId == HeaderGet(r, AuthorizationHeader) && res.value in rows
      ensures res.Ok? ==> UserIdByToken(rows, res.value.sessionId) == Some(res.value.userId)
    {
      var token := HeaderGet(r, AuthorizationHeader);
      var id := GetUserIdByToken(token, dbError);
      if id.Err? {
        return Err;
      }
      res := Ok(Session(token, id.value));
    }

    /** `GetUserIdByToken`: exact-match lookup; an unknown token is an error with no id. */
    method GetUserIdByToken(token: string, dbError: bool) returns (res: Result<nat>)
      ensures res.Ok? <==> !dbError && HasToken(rows, token)
      ensures res.Ok? ==> Session(token, res.value) in rows
      ensures !dbError ==> res == ToResult(UserIdByToken(rows, token))
    {
      if dbError {
        return Err;
      }
      res := ToResult(UserIdByToken(rows, token));
    }

    /** `GetTokenByUserId`: the token of the user's row, an error when there is none. */
    method GetTokenByUserId(userId: nat, dbError: bool) returns (res: Result<string>)
      ensures res.Ok? <==> !dbError && HasUser(rows, userId)
      ensures res.Ok? ==> Session(res.value, userId) in rows
      ensures !dbError ==> res == ToResult(TokenByUserId(rows, userId))
    {
      if dbError {
        return Err;
      }
      res := ToResult(TokenByUserId(rows, userId));
    }

    /** `Create`: insert `(token, u.GetId())`, set the user's token, answer 201
        with the user; a failed insert sets nothing and writes nothing. */
    method Create(w: ResponseWriter, u: UserRef, token: string, dbError: bool) returns (ok: bool)
      requires Valid() && token != "" && !HasToken(rows, token)
      modifies this, w, u
      ensures Valid()
      ensures ok == !dbError
      ensures ok ==> rows == old(rows) + [Session(token, old(u.user.id))]
      ensures ok ==> UserIdByToken(rows, token) == Some(old(u.user.id))
      ensures ok ==> u.user == old(u.user).(token := token)
      ensures ok ==> w.header == (if old(w.header).None? then Some(201) else old(w.header))
      ensures ok ==> w.parts == old(w.parts) + [UserBody(ToJson(u.user))]
      ensures !ok ==> rows == old(rows) && u.user == old(u.user)
      ensures !ok ==> w.header == old(w.header) && w.parts == old(w.parts)
    {
      var userId := u.user.id;
      if dbError {
        return false;
      }
      InsertResolves(rows, token, userId);
      InsertPreservesValid(rows, token, userId);
      rows := rows + [Session(token, userId)];
      u.SetToken(token);
      w.WriteHeader(201);
      w.Write(UserBody(ToJson(u.user)));
      ok := true;
    }

    /** `UpdateToken`: rewrite the token of the user's rows, never insert. The
        number of affected rows is not checked, so a user without a row also
        gets a token back. */
    method UpdateToken(userId: nat, token: string, dbError: bool) returns (res: Result<string>)
      requires Valid() && token != "" && !HasToken(rows, token)
      modifies this
      ensures Valid()
      ensures res.Ok? <==> !dbError
      ensures res.Ok? ==> res.value == token && rows == Rotate(old(rows), userId, token)
      ensures res.Err? ==> rows == old(rows)
    {
      if dbError {
        return Err;
      }
      RotatePreservesValid(rows, userId, token);
      rows := Rotate(rows, userId, token);
      res := Ok(token);
    }

    /** `DestroyCurrent`: delete every row of the user; succeeds also when there is none. */
    method DestroyCurrent(userId: nat, dbError: bool) returns (ok: bool)
      requires Valid()
      modifies this
      ensures Valid()
      ensures ok == !dbError
      ensures ok ==> rows == RemoveUser(old(rows), userId)
      ensures !ok ==> rows == old(rows)
    {
      if dbError {
        return false;
      }
      RemoveUserRevokes(rows, userId, "", userId);
      rows := RemoveUser(rows, userId);
      ok := true;
    }
  }
}
