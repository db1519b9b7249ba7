/** The `User` record (internal/user/user.go): its fields, the `*User` the
    session store mutates, its JSON shape and its log shape. */
module UserRecord {
  import opened Wrappers
  import opened Sql

  /** Passwords are Go strings handled as bytes (`[]byte(user.Password)`). */
  datatype User = User(
    id: nat,
    email: string,
    createdAt: string,
    updatedAt: string,
    username: string,
    token: string,
    password: Bytes,
    encryptedPassword: Bytes,
    salt: Bytes,
    bio: NullString)

  /** Go's zero `User{}`, the base of every response literal. */
  const EmptyUser := User(0, "", "", "", "", "", [], [], [], NullStr)

  /** A `*User`: what `session.UserInterface` receives and `SetToken` mutates. */
  class UserRef {
    var user: User

    constructor (u: User)
      ensures user == u
    {
      user := u;
    }

    method SetToken(token: string)
      modifies this
      ensures user == old(user).(token := token)
    {
      user := user.(token := token);
    }
  }

  /** The JSON object `encoding/json` writes for a `User`: the fields tagged
      `json:"-"` (Id, EncryptedPassword, Salt) have no place in it, and the bio
      is `null` when the `NullStringWrapper` is not valid. */
  datatype JsonUser = JsonUser(
    email: string,
    createdAt: string,
    updatedAt: string,
    username: string,
    token: string,
    password: Bytes,
    bio: Option<string>)

  function ToJson(u: User): (j: JsonUser)
    ensures j.password == u.password && j.token == u.token
    ensures j.bio.Some? <==> u.bio.valid
    ensures j.bio.Some? ==> j.bio.value == u.bio.s
  {
    JsonUser(u.email, u.createdAt, u.updatedAt, u.username, u.token, u.password,
             if u.bio.valid then Some(u.bio.s) else None)
  }

  /** Id, EncryptedPassword and Salt never reach the JSON; Password and Token do:
      two users have the same JSON exactly when they agree on the visible fields. */
  lemma JsonShowsExactlyTaggedFields(u: User, v: User)
    ensures ToJson(u) == ToJson(v) <==>
      u.email == v.email && u.createdAt == v.createdAt && u.updatedAt == v.updatedAt &&
      u.username == v.username && u.token == v.token && u.password == v.password &&
      u.bio.valid == v.bio.valid && (u.bio.valid ==> u.bio.s == v.bio.s)
  {
  }

  datatype LogAttr = UintAttr(key: string, n: nat) | StringAttr(key: string, s: string)

  /** An `slog` group: a key and the attributes nested under it. */
  datatype LogGroup = LogGroup(key: string, attrs: seq<LogAttr>)

  /** The keys `LogValue` logs, in order. */
  const LogKeys := ["id", "name", "email", "createdAt", "updatedAt", "bio"]

  /** The user field a string attribute with this key carries, if any. */
  function StringField(u: User, key: string): Option<string> {
    match key
    case "name" => Some(u.username)
    case "email" => Some(u.email)
    case "createdAt" => Some(u.createdAt)
    case "updatedAt" => Some(u.updatedAt)
    case "bio" => Some(u.bio.s)
    case _ => None
  }

  /** `a` carries the field of `u` that its key names: the id as an unsigned
      integer, every other field as a string. */
  predicate LogsField(u: User, a: LogAttr) {
    match a
    case UintAttr(key, n) => key == "id" && n == u.id
    case StringAttr(key, s) => StringField(u, key) == Some(s)
  }

  /** The value `LogValue` hands to `slog`: one group `user` holding one
      attribute per key of `LogKeys`, in that order, each carrying the field
      its key names; the bio is logged as its string even when it is NULL. */
  function LogValue(u: User): (g: LogGroup)
    ensures g.key == "user" && |g.attrs| == |LogKeys|
    ensures forall i | 0 <= i < |g.attrs| :: g.attrs[i].key == LogKeys[i] && LogsField(u, g.attrs[i])
    ensures forall i, j | 0 <= i < j < |g.attrs| :: g.attrs[i].key != g.attrs[j].key
  {
    LogGroup("user",
      [UintAttr("id", u.id), StringAttr("name", u.username), StringAttr("email", u.email),
       StringAttr("createdAt", u.createdAt), StringAttr("updatedAt", u.updatedAt),
       StringAttr("bio", u.bio.s)])
  }

  /** The log record records id, name, email, timestamps and bio, and is the
      same whatever the password, digest, salt and token are. */
  lemma LogValueOmitsSecrets(u: User, password: Bytes, encrypted: Bytes, salt: Bytes, token: string)
    ensures LogValue(u) == LogValue(u.(password := password, encryptedPassword := encrypted,
                                       salt := salt, token := token))
    ensures forall a | a in LogValue(u).attrs ::
      a.key in {"id", "name", "email", "createdAt", "updatedAt", "bio"}
  {
  }
}
