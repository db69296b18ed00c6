/** The backend's request values and its two route guards: a JSON value as
    the request body carries it, the server-side session, and the checks that
    run before a protected handler. */
module Auth {
  import opened Wrappers

  /** A JSON value as Flask hands it to a handler (floats are not used by the
      modelled handlers). */
  datatype Value =
    | Null | Bool(b: bool) | Num(n: int) | Str(s: string)
    | List(items: seq<Value>) | Obj(fields: map<string, Value>)

  /** Python truthiness of a JSON value. */
  predicate Truthy(v: Value)
  {
    match v
    case Null => false
    case Bool(b) => b
    case Num(n) => n != 0
    case Str(s) => s != ""
    case List(items) => items != []
    case Obj(fields) => fields != map[]
  }

  /** `data.get(key)`: the value, or `None` when the key is absent. */
  function Get(data: map<string, Value>, key: string): (v: Value)
    ensures key !in data ==> v == Null
    ensures key in data ==> v == data[key]
  {
    if key in data then data[key] else Null
  }

  /** The three roles a user row can hold. */
  datatype Role = Admin | Leader | Member

  /** The server-side session: empty until login stores the user's id, role
      and habby id in it. */
  datatype Session = Session(userId: Option<int>, role: Option<Role>, habbyId: Option<string>)

  const Anonymous := Session(None, None, None)

  /** The role lists the protected routes name. */
  const Staff: seq<Role> := [Admin, Leader]
  const AdminOnly: seq<Role> := [Admin]

  /** What a guard decides: run the handler, or answer with an error status. */
  datatype Guard = Proceed | Reject(status: int)

  /** `login_required`: 401 without a user id in the session. */
  function LoginRequired(s: Session): (g: Guard)
    ensures g == Proceed <==> s.userId.Some?
    ensures g != Proceed ==> g == Reject(401)
  {
    if s.userId.None? then Reject(401) else Proceed
  }

  /** `roles_required(allowed)`: 401 without a user id, checked before the
      role; then 403 unless the session's role is one of `allowed`. */
  function RolesRequired(s: Session, allowed: seq<Role>): (g: Guard)
    ensures s.userId.None? ==> g == Reject(401)
    ensures s.userId.Some? && (s.role.None? || s.role.value !in allowed) ==> g == Reject(403)
    ensures g == Proceed <==> s.userId.Some? && s.role.Some? && s.role.value in allowed
  {
    if s.userId.None? then Reject(401)
    else if s.role.None? || s.role.value !in allowed then Reject(403)
    else Proceed
  }

  /** A role guard never lets through a request the login guard would stop,
      and the admin-only guard is the stricter of the two role guards. */
  lemma GuardsNest(s: Session)
    ensures RolesRequired(s, Staff) == Proceed ==> LoginRequired(s) == Proceed
    ensures RolesRequired(s, AdminOnly) == Proceed ==> RolesRequired(s, Staff) == Proceed
    ensures RolesRequired(s, Staff) == Proceed && RolesRequired(s, AdminOnly) != Proceed ==> s.role == Some(Leader)
  {
  }

  /** A member never passes a role guard; an anonymous request never passes
      any guard. */
  lemma GuardsRejectMembersAndAnonymous(s: Session)
    ensures s.userId.Some? && s.role == Some(Member) ==>
              RolesRequired(s, Staff) == Reject(403) && RolesRequired(s, AdminOnly) == Reject(403)
    ensures LoginRequired(Anonymous) == Reject(401) && RolesRequired(Anonymous, Staff) == Reject(401)
  {
  }
}
