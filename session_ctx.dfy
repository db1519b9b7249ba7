/** The session value and the request context that carries it
    (internal/session/ctx.go, with the `Session` struct of
    internal/session/session_storage.go). */
module SessionCtx {
  import opened Wrappers

  /** A resolved session: the bearer token and the user it belongs to; also
      one row `(session_token, user_id)` of the session table. */
  datatype Session = Session(sessionId: string, userId: nat)

  /** A value stored in a `context.Context`: a `*Session`, or a value of any other type. */
  datatype CtxValue = SessionValue(session: Session) | OtherValue(typeName: string)

  /** A `context.Context`, reduced to its key/value lookups. */
  datatype Context = Context(values: map<string, CtxValue>)

  const Background := Context(map[])

  const SessionCtxKey := "session_ctx_key"

  /** The parts of an `*http.Request` the core reads: the headers, with
      canonical keys, and the context. */
  datatype Request = Request(header: map<string, seq<string>>, ctx: Context)

  /** `r.Header.Get(key)`: the first value, or "" when there is none. */
  function HeaderGet(r: Request, key: string): (v: string)
    ensures key !in r.header ==> v == ""
    ensures v != "" ==> key in r.header && |r.header[key]| > 0 && v == r.header[key][0]
  {
    if key in r.header && |r.header[key]| > 0 then r.header[key][0] else ""
  }

  /** `SaveToCtx`: a context derived from `context.Background()`, so it holds
      the session under the key and nothing else. */
  function SaveToCtx(s: Session): (c: Context)
    ensures c.values.Keys == {SessionCtxKey}
    ensures c.values[SessionCtxKey] == SessionValue(s)
  {
    Context(Background.values[SessionCtxKey := SessionValue(s)])
  }

  /** `GetFromCtx`: the comma-ok type assertion on the stored value. */
  function GetFromCtx(r: Request): (o: Option<Session>)
    ensures o.Some? ==> SessionCtxKey in r.ctx.values && r.ctx.values[SessionCtxKey] == SessionValue(o.value)
    ensures o.None? ==> SessionCtxKey !in r.ctx.values || r.ctx.values[SessionCtxKey].OtherValue?
  {
    if SessionCtxKey in r.ctx.values && r.ctx.values[SessionCtxKey].SessionValue?
    then Some(r.ctx.values[SessionCtxKey].session)
    else None
  }

  /** A request carrying `SaveToCtx(s)` yields `s`, whatever context it had before. */
  lemma SavedSessionIsFound(r: Request, s: Session)
    ensures GetFromCtx(r.(ctx := SaveToCtx(s))) == Some(s)
  {
  }

  /** Only the first value of a header counts, and a header that is not sent reads as "". */
  lemma FirstHeaderValueWins(r: Request, key: string, v: string, rest: seq<string>)
    ensures HeaderGet(r.(header := r.header[key := [v] + rest]), key) == v
    ensures HeaderGet(r.(header := r.header - {key}), key) == ""
  {
  }

  /** No value under the key, or a value of another type, yields "absent" rather than a crash. */
  lemma MissingOrForeignValueIsAbsent(r: Request)
    requires SessionCtxKey !in r.ctx.values || r.ctx.values[SessionCtxKey].OtherValue?
    ensures GetFromCtx(r) == None
  {
  }
}
