/** User management in the backend: registration (the first user becomes the
    administrator), role changes, deletion, and the user search. Each handler
    is a decision on the request, the session and the rows it reads; the
    `Store` module applies the decisions to the tables. */
module Users {
  import opened Wrappers
  import opened Auth

  /** A row of the `users` table. */
  datatype UserRow = UserRow(username: string, password: string, role: Role, habbyId: string)

  /** At most one user holds the administrator role. */
  predicate AtMostOneAdmin(users: map<int, UserRow>)
  {
    forall a, b :: a in users && b in users && users[a].role == Admin && users[b].role == Admin ==> a == b
  }

  predicate HasAdmin(users: map<int, UserRow>)
  {
    exists id :: id in users && users[id].role == Admin
  }

  /** The session belongs to an existing user and carries that user's
      current role, as it does right after login. */
  predicate SessionMatches(s: Session, users: map<int, UserRow>)
  {
    s.userId.Some? && s.userId.value in users && s.role == Some(users[s.userId.value].role)
  }

  /** A text field present and non-empty, as `all([...])` demands. */
  predicate Given(v: Option<string>)
  {
    v.Some? && v.value != ""
  }

  // ---------------------------------------------------------------- register

  datatype RegisterOutcome = RegisterRejected(status: int) | Registered(row: UserRow)

  predicate Taken(users: map<int, UserRow>, username: string, habbyId: string)
  {
    exists id :: id in users && (users[id].username == username || users[id].habbyId == habbyId)
  }

  /** `register_user`: 400 unless username, password and habby id are all
      given; 409 when a user already has that username or that habby id;
      otherwise a new row whose role is admin exactly when no admin exists
      yet, member otherwise. */
  function RegisterDecision(users: map<int, UserRow>, username: Option<string>,
                            password: Option<string>, habbyId: Option<string>): (r: RegisterOutcome)
    ensures r == RegisterRejected(400) <==> !(Given(username) && Given(password) && Given(habbyId))
    ensures r == RegisterRejected(409) <==>
              Given(username) && Given(password) && Given(habbyId) && Taken(users, username.value, habbyId.value)
    ensures r.RegisterRejected? ==> r.status == 400 || r.status == 409
    ensures r.Registered? ==>
              && r.row.username == username.value && r.row.password == password.value
              && r.row.habbyId == habbyId.value
              && (forall id :: id in users ==> users[id].username != username.value && users[id].habbyId != habbyId.value)
              && (r.row.role == Admin <==> !HasAdmin(users))
              && (r.row.role == Admin || r.row.role == Member)
  {
    if !(Given(username) && Given(password) && Given(habbyId)) then RegisterRejected(400)
    else if Taken(users, username.value, habbyId.value) then RegisterRejected(409)
    else Registered(UserRow(username.value, password.value,
                            if HasAdmin(users) then Member else Admin, habbyId.value))
  }

  /** Inserting a registered row under a fresh id keeps at most one admin,
      and leaves exactly one once the first user has registered. */
  lemma RegisterKeepsOneAdmin(users: map<int, UserRow>, id: int, username: Option<string>,
                              password: Option<string>, habbyId: Option<string>)
    requires AtMostOneAdmin(users) && id !in users
    requires RegisterDecision(users, username, password, habbyId).Registered?
    ensures var users' := users[id := RegisterDecision(users, username, password, habbyId).row];
            AtMostOneAdmin(users') && HasAdmin(users')
  {
    var row := RegisterDecision(users, username, password, habbyId).row;
    var users' := users[id := row];
    if row.role == Admin {
      assert users'[id].role == Admin;
    } else {
      var a :| a in users && users[a].role == Admin;
      assert users'[a].role == Admin;
    }
  }

  /** Usernames and habby ids stay unique across registrations. */
  lemma RegisterKeepsKeysUnique(users: map<int, UserRow>, id: int, username: Option<string>,
                                password: Option<string>, habbyId: Option<string>)
    requires id !in users
    requires forall a, b :: a in users && b in users && a != b ==>
               users[a].username != users[b].username && users[a].habbyId != users[b].habbyId
    requires RegisterDecision(users, username, password, habbyId).Registered?
    ensures var users' := users[id := RegisterDecision(users, username, password, habbyId).row];
            forall a, b :: a in users' && b in users' && a != b ==>
              users'[a].username != users'[b].username && users'[a].habbyId != users'[b].habbyId
  {
  }

  // ---------------------------------------------------------------- role change

  datatype RoleChangeOutcome = RoleChangeRejected(status: int) | RoleChanged(target: int, role: Role)

  /** The role a role-change request names, when it is one that may be given. */
  function RequestedRole(v: Value): Option<Role>
  {
    if v == Str("member") then Some(Member)
    else if v == Str("leader") then Some(Leader)
    else None
  }

  /** `update_user_role`: the admin-only guard first; then 400 unless the
      requested role is member or leader; then 403 when the admin targets
      themself. The update is answered with success whether or not a user
      with that id exists. */
  function RoleChangeDecision(s: Session, target: int, requested: Value): (r: RoleChangeOutcome)
    ensures RolesRequired(s, AdminOnly).Reject? ==> r == RoleChangeRejected(RolesRequired(s, AdminOnly).status)
    ensures RolesRequired(s, AdminOnly) == Proceed ==>
              (r == RoleChangeRejected(400) <==> requested != Str("member") && requested != Str("leader"))
    ensures RolesRequired(s, AdminOnly) == Proceed && RequestedRole(requested).Some? ==>
              (r == RoleChangeRejected(403) <==> s.userId == Some(target))
    ensures RolesRequired(s, AdminOnly) == Proceed && RequestedRole(requested).Some? && s.userId != Some(target) ==>
              r == RoleChanged(target, RequestedRole(requested).value)
    ensures r.RoleChanged? ==>
              && s.role == Some(Admin) && s.userId.Some? && s.userId != Some(target)
              && r.target == target && r.role != Admin
              && (r.role == Member <==> requested == Str("member"))
  {
    match RolesRequired(s, AdminOnly)
    case Reject(status) => RoleChangeRejected(status)
    case Proceed =>
      match RequestedRole(requested)
      case None => RoleChangeRejected(400)
      case Some(role) => if s.userId == Some(target) then RoleChangeRejected(403) else RoleChanged(target, role)
  }

  /** With a session that matches the tables, a role change never takes the
      role away from the admin, and never makes anyone admin: the number of
      admins stays as it was. */
  lemma RoleChangeKeepsAdmin(users: map<int, UserRow>, s: Session, target: int, requested: Value)
    requires AtMostOneAdmin(users) && SessionMatches(s, users)
    requires RoleChangeDecision(s, target, requested).RoleChanged?
    ensures target in users ==> users[target].role != Admin
    ensures target in users ==>
              var users' := users[target := users[target].(role := RoleChangeDecision(s, target, requested).role)];
              AtMostOneAdmin(users') && (HasAdmin(users') <==> HasAdmin(users))
  {
    var me := s.userId.value;
    assert users[me].role == Admin;
    if target in users {
      var users' := users[target := users[target].(role := RoleChangeDecision(s, target, requested).role)];
      assert users'[me].role == Admin;
    }
  }

  // ---------------------------------------------------------------- delete

  datatype DeleteOutcome = DeleteRejected(status: int) | Deleted(target: int)

  /** `delete_user`: the staff guard first; then 403 for deleting oneself;
      404 for an unknown id; 403 when a leader targets a leader or the
      admin. */
  function DeleteDecision(s: Session, target: int, users: map<int, UserRow>): (r: DeleteOutcome)
    ensures RolesRequired(s, Staff).Reject? ==> r == DeleteRejected(RolesRequired(s, Staff).status)
    ensures RolesRequired(s, Staff) == Proceed ==>
              && (s.userId == Some(target) ==> r == DeleteRejected(403))
              && (s.userId != Some(target) && target !in users ==> r == DeleteRejected(404))
    ensures (RolesRequired(s, Staff) == Proceed && s.userId != Some(target) && target in users
             && s.role == Some(Leader) && users[target].role != Member) ==> r == DeleteRejected(403)
    ensures r == DeleteRejected(404) <==> RolesRequired(s, Staff) == Proceed && s.userId != Some(target) && target !in users
    ensures r.Deleted? <==>
              && RolesRequired(s, Staff) == Proceed && s.userId != Some(target) && target in users
              && !(s.role == Some(Leader) && users[target].role != Member)
    ensures r.Deleted? ==> r.target == target
  {
    match RolesRequired(s, Staff)
    case Reject(status) => DeleteRejected(status)
    case Proceed =>
      if s.userId == Some(target) then DeleteRejected(403)
      else if target !in users then DeleteRejected(404)
      else if s.role == Some(Leader) && users[target].role != Member then DeleteRejected(403)
      else Deleted(target)
  }

  /** With a session that matches the tables, the admin is never deleted: a
      leader may not, and the only admin may not delete themself. */
  lemma AdminNeverDeleted(users: map<int, UserRow>, s: Session, target: int)
    requires AtMostOneAdmin(users) && SessionMatches(s, users)
    requires target in users && users[target].role == Admin
    ensures DeleteDecision(s, target, users).DeleteRejected?
    ensures DeleteDecision(s, target, users) == DeleteRejected(403)
  {
    var me := s.userId.value;
    if s.role == Some(Admin) {
      assert users[me].role == Admin;
    }
  }

  // ---------------------------------------------------------------- search

  /** A row of the search query: a profile's habby id and nick. */
  datatype ProfileHit = ProfileHit(habbyId: string, nick: Option<string>)

  const MinQueryLength: nat := 2
  const SearchLimit: nat := 10

  datatype SearchOutcome = SearchRejected(status: int) | SearchRows(rows: seq<ProfileHit>, queried: bool)

  /** `search_users`: 401 without login; a query shorter than two characters
      (a missing one counts as empty) is answered with no rows and without
      querying; otherwise the first ten of `matches`, the rows the partial
      match on nick or habby id finds, in the order the database returns them. */
  function SearchUsers(s: Session, query: Option<string>, matches: seq<ProfileHit>): (r: SearchOutcome)
    ensures r == SearchRejected(401) <==> s.userId.None?
    ensures r.SearchRejected? ==> r.status == 401
    ensures s.userId.Some? && (query.None? || |query.value| < MinQueryLength) ==> r == SearchRows([], false)
    ensures s.userId.Some? && query.Some? && |query.value| >= MinQueryLength ==>
              && r.SearchRows? && r.queried
              && |r.rows| == Min(SearchLimit, |matches|) && r.rows == matches[..|r.rows|]
  {
    match LoginRequired(s)
    case Reject(status) => SearchRejected(status)
    case Proceed =>
      var q := if query.Some? then query.value else "";
      if |q| < MinQueryLength then SearchRows([], false)
      else SearchRows(matches[..Min(SearchLimit, |matches|)], true)
  }
}
