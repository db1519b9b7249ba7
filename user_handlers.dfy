/** The user HTTP handlers (internal/user/handlers.go and
    internal/user/auth_handlers.go) over the user and session tables. Each
    handler is given a fresh response writer, as net/http gives each request,
    and the outcome of each database call it makes. */
module UserHandlers {
  import opened Wrappers
  import opened Sql
  import opened UserRecord
  import opened Http
  import opened SessionCtx
  import opened SessionStorage
  import opened DbExplorer
  import opened Password
  import UserRepo

  /** The login response: public fields and the session token, never the
      stored digest (the JSON password is empty) and no bio. */
  function LoginView(u: User, token: string): (v: JsonUser)
    ensures v.password == [] && v.bio == None && v.token == token
    ensures v.email == u.email && v.username == u.username
    ensures v.createdAt == u.createdAt && v.updatedAt == u.updatedAt
  {
    ToJson(EmptyUser.(email := u.email, createdAt := u.createdAt, updatedAt := u.updatedAt,
                      username := u.username, token := token))
  }

  /** The profile response of `UpdateUser` (with the new token) and
      `CurrUser` (token ""): public fields and the bio, never the digest. */
  function ProfileView(u: User, token: string): (v: JsonUser)
    ensures v.password == [] && v.token == token
    ensures v.bio == (if u.bio.valid then Some(u.bio.s) else None)
    ensures v.email == u.email && v.username == u.username
    ensures v.createdAt == u.createdAt && v.updatedAt == u.updatedAt
  {
    ToJson(EmptyUser.(email := u.email, createdAt := u.createdAt, updatedAt := u.updatedAt,
                      username := u.username, bio := u.bio, token := token))
  }

  /** The keys and the values of the decoded update, in order. The pointwise
      ensures of these two exist for the invariants of `UpdateUser`'s loop. */
  function FieldsOf(pairs: seq<(string, Value)>): (fields: seq<string>)
    ensures |fields| == |pairs| && forall i | 0 <= i < |pairs| :: fields[i] == pairs[i].0
  {
    seq(|pairs|, i requires 0 <= i < |pairs| => pairs[i].0)
  }

  function ValuesOf(pairs: seq<(string, Value)>): (values: seq<Value>)
    ensures |values| == |pairs| && forall i | 0 <= i < |pairs| :: values[i] == pairs[i].1
  {
    seq(|pairs|, i requires 0 <= i < |pairs| => pairs[i].1)
  }

  /** The first field the allow-list of `user_data` refuses, if any. */
  function Rejected(snapshot: map<string, ListOfColumns>, fields: seq<string>): (r: Option<string>)
    ensures r.None? <==> forall i | 0 <= i < |fields| :: IsWhitelisted(snapshot, UserRepo.UserTableName, fields[i])
    ensures r.Some? ==> exists i | 0 <= i < |fields| ::
      && r.value == fields[i] && !IsWhitelisted(snapshot, UserRepo.UserTableName, fields[i])
      && forall j | 0 <= j < i :: IsWhitelisted(snapshot, UserRepo.UserTableName, fields[j])
  {
    if fields == [] then None
    else if !IsWhitelisted(snapshot, UserRepo.UserTableName, fields[0]) then Some(fields[0])
    else
      var rest := Rejected(snapshot, fields[1..]);
      assert forall j | 0 <= j < |fields[1..]| :: fields[1..][j] == fields[j + 1];
      rest
  }

  /** Keys of a JSON object: no key twice. */
  predicate DistinctKeys(pairs: seq<(string, Value)>) {
    forall i, j | 0 <= i < j < |pairs| :: pairs[i].0 != pairs[j].0
  }

  /** `UserHandler`: the user repository, the session repository and the
      schema snapshot the update allow-list reads. */
  class UserHandler {
    const userStorage: UserRepo.UserRepo
    const sessionManager: SessionRepo
    const listOfCols: map<string, ListOfColumns>

    constructor (users: UserRepo.UserRepo, sessions: SessionRepo, cols: map<string, ListOfColumns>)
      ensures userStorage == users && sessionManager == sessions && listOfCols == cols
    {
      userStorage := users;
      sessionManager := sessions;
      listOfCols := cols;
    }

    /** `AuthMiddleware`: a request whose Authorization token has a session
        goes on with that session in a fresh context and nothing written;
        any other gets 401 "Forbidden" and goes no further. */
    method AuthMiddleware(w: ResponseWriter, r: Request, dbError: bool) returns (next: Option<Request>)
      requires w.Untouched()
      modifies w
      ensures var token := HeaderGet(r, AuthorizationHeader);
              next.Some? <==> !dbError && HasToken(sessionManager.rows, token)
      ensures next.Some? ==>
        && next.value.header == r.header
        && GetFromCtx(next.value).Some?
        && GetFromCtx(next.value).value.sessionId == HeaderGet(r, AuthorizationHeader)
        && UserIdByToken(sessionManager.rows, HeaderGet(r, AuthorizationHeader)) == Some(GetFromCtx(next.value).value.userId)
        && w.Untouched()
      ensures next.Some? ==>
        var token := HeaderGet(r, AuthorizationHeader);
        && UserIdByToken(sessionManager.rows, token).Some?
        && next.value == r.(ctx := SaveToCtx(Session(token, UserIdByToken(sessionManager.rows, token).value)))
      ensures next.None? ==> w.Responded(401, [Message("Forbidden")])
    {
      var userSession := sessionManager.Check(r, dbError);
      if userSession.Err? {
        Error(w, "Forbidden", 401);
        return None;
      }
      next := Some(r.(ctx := SaveToCtx(userSession.value)));
      SavedSessionIsFound(r, userSession.value);
    }

    /** `Logout`: deletes every session of the signed-in user; 401 without a
        session in the context, 500 when the delete fails, otherwise nothing
        is written (status 200). */
    method Logout(w: ResponseWriter, r: Request, dbError: bool)
      requires w.Untouched() && sessionManager.Valid()
      modifies w, sessionManager
      ensures sessionManager.Valid()
      ensures GetFromCtx(r).None? ==> w.Responded(401, [Message("error")]) && sessionManager.rows == old(sessionManager.rows)
      ensures GetFromCtx(r).Some? && dbError ==> w.Responded(500, [Message("error")]) && sessionManager.rows == old(sessionManager.rows)
      ensures GetFromCtx(r).Some? && !dbError ==>
        && sessionManager.rows == RemoveUser(old(sessionManager.rows), GetFromCtx(r).value.userId)
        && w.Untouched() && w.Status() == 200
    {
      var userSession := GetFromCtx(r);
      if userSession.None? {
        Error(w, "error", 401);
        return;
      }
      var ok := sessionManager.DestroyCurrent(userSession.value.userId, dbError);
      if !ok {
        Error(w, "error", 500);
        return;
      }
    }

    /** `Registration`: a readable body creates the user (fresh salt, digest,
        both timestamps `now`) and then a session with `token`; the 201 body
        is the created user with the token, and echoes the password the client
        sent. The bio is always NULL: the wrapper's `UnmarshalJSON` decodes into
        a copy. */
    method Registration(w: ResponseWriter, body: BodyRead<User>, now: string, random: Bytes, kdf: Kdf,
                        insertedId: Result<nat>, token: string, sessionDbError: bool)
      requires w.Untouched() && sessionManager.Valid()
      requires token != "" && !HasToken(sessionManager.rows, token)
      modifies w, userStorage, sessionManager
      ensures sessionManager.Valid()
      ensures body.ReadError? ==>
        w.Responded(500, [Message("can't read body")]) && userStorage.rows == old(userStorage.rows) && sessionManager.rows == old(sessionManager.rows)
      ensures body.Malformed? ==>
        w.Responded(400, [Message("can't read body")]) && userStorage.rows == old(userStorage.rows) && sessionManager.rows == old(sessionManager.rows)
      ensures body.Parsed? && insertedId.Err? ==> w.Responded(500, []) && userStorage.rows == old(userStorage.rows) && sessionManager.rows == old(sessionManager.rows)
      ensures body.Parsed? && insertedId.Ok? ==>
        var user := body.value.(bio := NullStr);
        var salt := FilledSalt(SaltSize, random);
        userStorage.rows == old(userStorage.rows) +
          [UserRepo.InsertedRow(insertedId.value, user, now, PasswordArgon2WithSalt(kdf, user.password, salt), salt)]
      ensures body.Parsed? && insertedId.Ok? && sessionDbError ==>
        w.Responded(500, []) && sessionManager.rows == old(sessionManager.rows)
      ensures body.Parsed? && insertedId.Ok? && !sessionDbError ==>
        var created := body.value.(bio := NullStr, id := insertedId.value, createdAt := now, updatedAt := now, token := token);
        && sessionManager.rows == old(sessionManager.rows) + [Session(token, insertedId.value)]
        && w.Responded(201, [UserBody(ToJson(created))])
        && ToJson(created).password == body.value.password
    {
      if body.ReadError? {
        Error(w, "can't read body", 500);
        return;
      }
      if body.Malformed? {
        Error(w, "can't read body", 400);
        return;
      }
      // the bio's `UnmarshalJSON` has a value receiver: what it decodes is lost
      var user := body.value.(bio := NullStr);
      var newUser := userStorage.Create(user, now, random, kdf, insertedId);
      if newUser.None? {
        w.WriteHeader(500);
        return;
      }
      var u := new UserRef(newUser.value);
      var ok := sessionManager.Create(w, u, token, sessionDbError);
      if !ok {
        w.WriteHeader(500);
      }
    }

    /** `sendUserInfo`: reads the user again by email and its session token;
        either failing is a bare 500, otherwise 200 with the login view. */
    method SendUserInfo(w: ResponseWriter, u: User, lookupFails: bool, tokenDbError: bool)
      requires w.Untouched()
      modifies w
      ensures var found := UserRepo.LookupUser(userStorage.rows, "email", Text(u.email));
              if lookupFails || found.None? then w.Responded(500, [])
              else if tokenDbError || !HasUser(sessionManager.rows, found.value.id) then w.Responded(500, [])
              else w.Responded(200, [UserBody(LoginView(found.value, TokenByUserId(sessionManager.rows, found.value.id).value))])
    {
      var user := userStorage.GetUserByEmail(u.email, lookupFails);
      if user.Err? {
        w.WriteHeader(500);
        return;
      }
      var token := sessionManager.GetTokenByUserId(user.value.id, tokenDbError);
      if token.Err? {
        w.WriteHeader(500);
        return;
      }
      w.WriteHeader(200);
      w.Write(UserBody(LoginView(user.value, token.value)));
    }

    /** `Login`: 400 for an unreadable body or an unknown email, 401 when the
        password does not reproduce the stored digest with the stored salt,
        otherwise `sendUserInfo`. Only the response changes. */
    method Login(w: ResponseWriter, body: BodyRead<User>, kdf: Kdf,
                 lookupFails: bool, resendLookupFails: bool, tokenDbError: bool)
      requires w.Untouched()
      modifies w
      ensures !body.Parsed? ==> w.Responded(400, [Message("can't read body")])
      ensures body.Parsed? ==>
        var found := UserRepo.LookupUser(userStorage.rows, "email", Text(body.value.email));
        && (lookupFails || found.None? ==> w.Responded(400, [Message("error")]))
        && (!lookupFails && found.Some? &&
            !IsValidPassword(kdf, body.value.password, found.value.salt, found.value.password) ==>
              w.Responded(401, []))
        && (!lookupFails && found.Some? &&
            IsValidPassword(kdf, body.value.password, found.value.salt, found.value.password) ==>
              if resendLookupFails || tokenDbError || !HasUser(sessionManager.rows, found.value.id)
              then w.Responded(500, [])
              else w.Responded(200, [UserBody(LoginView(found.value, TokenByUserId(sessionManager.rows, found.value.id).value))]))
      ensures w.Responded(200, w.parts) ==>
        && body.Parsed?
        && var found := UserRepo.LookupUser(userStorage.rows, "email", Text(body.value.email));
           found.Some? && IsValidPassword(kdf, body.value.password, found.value.salt, found.value.password)
    {
      if body.ReadError? || body.Malformed? {
        Error(w, "can't read body", 400);
        return;
      }
      var respUser := body.value;
      var user := userStorage.GetUserByEmail(respUser.email, lookupFails);
      if user.Err? {
        Error(w, "error", 400);
        return;
      }
      var isValid := IsValidPassword(kdf, respUser.password, user.value.salt, user.value.password);
      if isValid {
        SendUserInfo(w, user.value, resendLookupFails, tokenDbError);
      } else {
        w.WriteHeader(401);
        return;
      }
    }

    /** The loop of `UpdateUser` over the decoded body: it copies each key and
        value into the update's arrays and stops at the first key the
        allow-list of `user_data` refuses, which it returns. */
    method CollectFields(pairs: seq<(string, Value)>)
      returns (fields: seq<string>, values: seq<Value>, refused: Option<string>)
      ensures refused == Rejected(listOfCols, FieldsOf(pairs))
      ensures refused.None? ==> fields == FieldsOf(pairs) && values == ValuesOf(pairs)
    {
      var fieldsToUpdate := new string[|pairs|](_ => "");
      var newValues := new Value[|pairs|](_ => Null);
      var i := 0;
      while i < |pairs|
        invariant 0 <= i <= |pairs|
        invariant forall j | 0 <= j < i :: IsWhitelisted(listOfCols, UserRepo.UserTableName, pairs[j].0)
        invariant fieldsToUpdate[..i] == FieldsOf(pairs)[..i]
        invariant newValues[..i] == ValuesOf(pairs)[..i]
      {
        var (k, v) := pairs[i];
        if !IsWhitelisted(listOfCols, UserRepo.UserTableName, k) {
          return [], [], Some(k);
        }
        fieldsToUpdate[i] := k;
        newValues[i] := v;
        i := i + 1;
      }
      assert fieldsToUpdate[..] == fieldsToUpdate[..i] && newValues[..] == newValues[..i];
      assert FieldsOf(pairs)[..i] == FieldsOf(pairs) && ValuesOf(pairs)[..i] == ValuesOf(pairs);
      return fieldsToUpdate[..], newValues[..], None;
    }

    /** `UpdateUser`: every key of the body must be a column of `user_data`
        in the snapshot, or nothing is written and the first refused key is
        named; an empty body is refused too. Otherwise one UPDATE sets those
        columns and `updated_at`, the user is read back by id, the session
        token is rotated, and the profile view with the new token is
        returned. */
    method UpdateUser(w: ResponseWriter, r: Request, body: BodyRead<seq<(string, Value)>>, now: string,
                      updateDbError: bool, rereadFails: bool, token: string, tokenDbError: bool)
      requires w.Untouched() && sessionManager.Valid()
      requires body.Parsed? ==> DistinctKeys(body.value)
      requires token != "" && !HasToken(sessionManager.rows, token)
      modifies w, userStorage, sessionManager
      ensures sessionManager.Valid()
      ensures GetFromCtx(r).None? ==>
        w.Responded(401, [Message("error")]) && userStorage.rows == old(userStorage.rows) && sessionManager.rows == old(sessionManager.rows)
      ensures GetFromCtx(r).Some? && body.ReadError? ==>
        w.Responded(400, [Message("can't read body")]) && userStorage.rows == old(userStorage.rows) && sessionManager.rows == old(sessionManager.rows)
      ensures GetFromCtx(r).Some? && body.Malformed? ==>
        w.Responded(400, [Message("error")]) && userStorage.rows == old(userStorage.rows) && sessionManager.rows == old(sessionManager.rows)
      ensures GetFromCtx(r).Some? && body.Parsed? && Rejected(listOfCols, FieldsOf(body.value)).Some? ==>
        && w.Responded(400, [Message("no such field for user: [" + Rejected(listOfCols, FieldsOf(body.value)).value + "]")])
        && userStorage.rows == old(userStorage.rows) && sessionManager.rows == old(sessionManager.rows)
      ensures GetFromCtx(r).Some? && body.Parsed? && body.value == [] ==>
        w.Responded(400, [Message("no such field for user:")]) && userStorage.rows == old(userStorage.rows) && sessionManager.rows == old(sessionManager.rows)
      ensures GetFromCtx(r).Some? && body.Parsed? && body.value != [] &&
              Rejected(listOfCols, FieldsOf(body.value)).None? ==>
        var id := GetFromCtx(r).value.userId;
        var updated := UserRepo.UpdatedRows(old(userStorage.rows), id, FieldsOf(body.value), ValuesOf(body.value), now);
        if updateDbError || updated.Err? then
          w.Responded(400, [Message("error")]) && userStorage.rows == old(userStorage.rows) && sessionManager.rows == old(sessionManager.rows)
        else
          var reread := UserRepo.LookupUser(updated.value, "id", Number(id));
          && userStorage.rows == updated.value
          && (rereadFails || reread.None? ==>
                w.Responded(500, [Message("error")]) && sessionManager.rows == old(sessionManager.rows))
          && (!rereadFails && reread.Some? && tokenDbError ==>
                w.Responded(500, [Message("error")]) && sessionManager.rows == old(sessionManager.rows))
          && (!rereadFails && reread.Some? && !tokenDbError ==>
                && sessionManager.rows == Rotate(old(sessionManager.rows), id, token)
                && w.Responded(200, [UserBody(ProfileView(reread.value, token))]))
    {
      var userSession := GetFromCtx(r);
      if userSession.None? {
        Error(w, "error", 401);
        return;
      }
      if body.ReadError? {
        Error(w, "can't read body", 400);
        return;
      }
      if body.Malformed? {
        Error(w, "error", 400);
        return;
      }
      var fieldsToUpdate, newValues, refused := CollectFields(body.value);
      if refused.Some? {
        Error(w, "no such field for user: [" + refused.value + "]", 400);
        return;
      }
      if |fieldsToUpdate| == 0 {
        Error(w, "no such field for user:", 400);
        return;
      }
      var ok := userStorage.UpdateUser(userSession.value.userId, fieldsToUpdate, newValues, now, updateDbError);
      if !ok {
        Error(w, "error", 400);
        return;
      }
      var user := userStorage.GetUserById(userSession.value.userId, rereadFails);
      if user.Err? {
        Error(w, "error", 500);
        return;
      }
      assert user.value == UserRepo.LookupUser(userStorage.rows, "id", Number(userSession.value.userId)).value;
      var newToken := sessionManager.UpdateToken(user.value.id, token, tokenDbError);
      if newToken.Err? {
        Error(w, "error", 500);
        return;
      }
      var u := user.value.(token := newToken.value);
      w.Write(UserBody(ProfileView(u, u.token)));
    }

    /** `CurrUser`: the signed-in user's profile view, without a token. */
    method CurrUser(w: ResponseWriter, r: Request, lookupFails: bool)
      requires w.Untouched()
      modifies w
      ensures GetFromCtx(r).None? ==> w.Responded(401, [Message("error")])
      ensures GetFromCtx(r).Some? ==>
        var found := UserRepo.LookupUser(userStorage.rows, "id", Number(GetFromCtx(r).value.userId));
        if lookupFails || found.None? then w.Responded(500, [Message("error")])
        else w.Responded(200, [UserBody(ProfileView(found.value, ""))])
    {
      var userSession := GetFromCtx(r);
      if userSession.None? {
        Error(w, "error", 401);
        return;
      }
      var user := userStorage.GetUserById(userSession.value.userId, lookupFails);
      if user.Err? {
        Error(w, "error", 500);
        return;
      }
      w.Write(UserBody(ProfileView(user.value, "")));
    }
  }
}
