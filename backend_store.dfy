/** The backend's tables and the handlers that change them. Each handler
    applies the decision its module computes; ids are handed out in
    increasing order, as the auto-increment columns do. */
module Store {
  import opened Wrappers
  import opened Auth
  import opened Users
  import opened Profiles
  import opened Seasons
  import opened HomeContent

  /** A row of `user_profiles`, keyed by its user's id; `columns` holds the
      editable columns that have been set. */
  datatype ProfileRow = ProfileRow(habbyId: string, columns: map<string, Value>)

  /** A row of `seasons` with its participant rows. */
  datatype SeasonRecord = SeasonRecord(startDate: Value, endDate: Value, participants: seq<ParticipantRow>)

  const DefaultPicture: string := "https://ik.imagekit.io/wzl99vhez/toxicos/indefinido.png?updatedAt=1750707356953"

  /** The profile created with a new user: the username as nick and the
      default picture. */
  function NewProfile(row: UserRow): (p: ProfileRow)
    ensures p.habbyId == row.habbyId && p.columns.Keys == {"nick", "profile_pic_url"}
    ensures p.columns["nick"] == Str(row.username)
    ensures p.columns["profile_pic_url"] == Str(DefaultPicture)
  {
    ProfileRow(row.habbyId, map["nick" := Str(row.username), "profile_pic_url" := Str(DefaultPicture)])
  }

  /** The profile update: every row whose habby id is the session's gets the
      new column values; a session without a habby id selects no row. */
  function ApplyProfileUpdate(profiles: map<int, ProfileRow>, habbyId: Option<string>,
                              updates: map<string, Value>): (r: map<int, ProfileRow>)
    ensures r.Keys == profiles.Keys
    ensures forall id :: id in profiles && Some(profiles[id].habbyId) != habbyId ==> r[id] == profiles[id]
    ensures forall id :: id in profiles && Some(profiles[id].habbyId) == habbyId ==>
              r[id].habbyId == profiles[id].habbyId && r[id].columns == profiles[id].columns + updates
  {
    map id | id in profiles ::
      if Some(profiles[id].habbyId) == habbyId then profiles[id].(columns := profiles[id].columns + updates)
      else profiles[id]
  }

  /** A profile update changes only the caller's own profile, only in
      whitelisted columns, and never a profile's habby id. */
  lemma ProfileUpdateTouchesOnlyOwnWhitelisted(profiles: map<int, ProfileRow>, s: Session, data: map<string, Value>)
    ensures var r := ApplyProfileUpdate(profiles, s.habbyId, Restrict(ProfileFields, data));
            forall id, c :: id in profiles && c in r[id].columns && (c !in ProfileFields || Some(profiles[id].habbyId) != s.habbyId) ==>
              c in profiles[id].columns && r[id].columns[c] == profiles[id].columns[c] && r[id].habbyId == profiles[id].habbyId
  {
  }

  class Database {
    var users: map<int, UserRow>
    var profiles: map<int, ProfileRow>
    var seasons: map<int, SeasonRecord>
    var home: Option<HomeRow>
    var nextUserId: int
    var nextSeasonId: int

    ghost predicate Valid()
      reads this
    {
      && AtMostOneAdmin(users)
      && (forall id :: id in users ==> id < nextUserId)
      && (forall id :: id in profiles ==> id < nextUserId)
      && (forall id :: id in seasons ==> id < nextSeasonId)
    }

    constructor (home: Option<HomeRow>)
      ensures Valid()
      ensures users == map[] && profiles == map[] && seasons == map[] && this.home == home
    {
      users := map[];
      profiles := map[];
      seasons := map[];
      this.home := home;
      nextUserId := 1;
      nextSeasonId := 1;
    }

    /** `register_user`: on success the user and their profile are inserted
        under a fresh id, and the answer is 201. */
    method RegisterUser(username: Option<string>, password: Option<string>, habbyId: Option<string>)
      returns (status: int)
      requires Valid()
      modifies this
      ensures Valid()
      ensures var d := RegisterDecision(old(users), username, password, habbyId);
              && (d.RegisterRejected? ==>
                    status == d.status && users == old(users) && profiles == old(profiles) && nextUserId == old(nextUserId))
              && (d.Registered? ==>
                    && status == 201 && old(nextUserId) !in old(users)
                    && users == old(users)[old(nextUserId) := d.row]
                    && profiles == old(profiles)[old(nextUserId) := NewProfile(d.row)]
                    && nextUserId == old(nextUserId) + 1)
      ensures RegisterDecision(old(users), username, password, habbyId).Registered? ==> HasAdmin(users)
      ensures seasons == old(seasons) && home == old(home) && nextSeasonId == old(nextSeasonId)
    {
      var d := RegisterDecision(users, username, password, habbyId);
      match d {
        case RegisterRejected(code) =>
          status := code;
        case Registered(row) =>
          RegisterKeepsOneAdmin(users, nextUserId, username, password, habbyId);
          users := users[nextUserId := row];
          profiles := profiles[nextUserId := NewProfile(row)];
          nextUserId := nextUserId + 1;
          status := 201;
      }
    }

    /** `update_user_role`: on success the target's role is set, if the
        target exists, and the answer is 200. */
    method UpdateUserRole(s: Session, target: int, requested: Value) returns (status: int)
      requires Valid()
      modifies this
      ensures Valid()
      ensures var d := RoleChangeDecision(s, target, requested);
              && (d.RoleChangeRejected? ==> status == d.status && users == old(users))
              && (d.RoleChanged? ==>
                    && status == 200
                    && users == (if target in old(users) then old(users)[target := old(users)[target].(role := d.role)]
                                 else old(users)))
      ensures SessionMatches(s, old(users)) && HasAdmin(old(users)) ==> HasAdmin(users)
      ensures profiles == old(profiles) && seasons == old(seasons) && home == old(home)
      ensures nextUserId == old(nextUserId) && nextSeasonId == old(nextSeasonId)
    {
      var d := RoleChangeDecision(s, target, requested);
      match d {
        case RoleChangeRejected(code) =>
          status := code;
        case RoleChanged(t, role) =>
          if SessionMatches(s, users) {
            RoleChangeKeepsAdmin(users, s, target, requested);
          }
          if t in users {
            users := users[t := users[t].(role := role)];
          }
          status := 200;
      }
    }

    /** `delete_user`: on success the user row is removed and the answer is
        200. */
    method DeleteUser(s: Session, target: int) returns (status: int)
      requires Valid()
      modifies this
      ensures Valid()
      ensures var d := DeleteDecision(s, target, old(users));
              && (d.DeleteRejected? ==> status == d.status && users == old(users))
              && (d.Deleted? ==> status == 200 && users == old(users) - {target})
      ensures SessionMatches(s, old(users)) && HasAdmin(old(users)) ==> HasAdmin(users)
      ensures profiles == old(profiles) && seasons == old(seasons) && home == old(home)
      ensures nextUserId == old(nextUserId) && nextSeasonId == old(nextSeasonId)
    {
      var d := DeleteDecision(s, target, users);
      match d {
        case DeleteRejected(code) =>
          status := code;
        case Deleted(t) =>
          if SessionMatches(s, users) && HasAdmin(users) {
            var a :| a in users && users[a].role == Admin;
            if t == a {
              AdminNeverDeleted(users, s, t);
            }
            assert (users - {t})[a].role == Admin;
          }
          users := users - {t};
          status := 200;
      }
    }

    /** `update_user_profile`: the guards and checks of the decision, then
        the whitelisted columns found by the loop are written to the
        caller's profile, and the answer is 200. */
    method UpdateProfile(s: Session, data: map<string, Value>) returns (status: int)
      requires Valid()
      modifies this
      ensures Valid()
      ensures var d := ProfileUpdateDecision(ProfileFields, s, data);
              && (d.ProfileRejected? ==> status == d.status && profiles == old(profiles))
              && (d.ProfileWrite? ==> status == 200 && profiles == ApplyProfileUpdate(old(profiles), s.habbyId, Restrict(ProfileFields, data)))
      ensures users == old(users) && seasons == old(seasons) && home == old(home)
      ensures nextUserId == old(nextUserId) && nextSeasonId == old(nextSeasonId)
    {
      status := WriteProfile(ProfileFields, s, data);
    }

    /** The profile update for a given list of editable columns. */
    method WriteProfile(whitelist: seq<string>, s: Session, data: map<string, Value>) returns (status: int)
      requires Valid()
      modifies this
      ensures Valid()
      ensures var d := ProfileUpdateDecision(whitelist, s, data);
              && (d.ProfileRejected? ==> status == d.status && profiles == old(profiles))
              && (d.ProfileWrite? ==> status == 200 && profiles == ApplyProfileUpdate(old(profiles), s.habbyId, Restrict(whitelist, data)))
      ensures users == old(users) && seasons == old(seasons) && home == old(home)
      ensures nextUserId == old(nextUserId) && nextSeasonId == old(nextSeasonId)
    {
      var d, updates := ProfileUpdateHandler(whitelist, s, data);
      if d.ProfileRejected? {
        return d.status;
      }
      profiles := ApplyProfileUpdate(profiles, s.habbyId, updates);
      status := 200;
    }

    /** `create_season`: on success the season and its participant rows are
        inserted under a fresh id, and the answer is 201. */
    method CreateSeason(s: Session, data: map<string, Value>) returns (status: int, seasonId: Option<int>)
      requires Valid()
      modifies this
      ensures Valid()
      ensures var d := CreateSeasonDecision(s, data);
              && (d.SeasonRejected? ==> status == d.status && seasonId.None? && seasons == old(seasons)
                                        && nextSeasonId == old(nextSeasonId))
              && (d.SeasonCreated? ==>
                    && status == 201 && seasonId == Some(old(nextSeasonId)) && old(nextSeasonId) !in old(seasons)
                    && seasons == old(seasons)[old(nextSeasonId) := SeasonRecord(d.startDate, d.endDate, d.rows)]
                    && nextSeasonId == old(nextSeasonId) + 1)
      ensures users == old(users) && profiles == old(profiles) && home == old(home) && nextUserId == old(nextUserId)
    {
      var d := CreateSeasonDecision(s, data);
      match d {
        case SeasonRejected(code) =>
          status, seasonId := code, None;
        case SeasonCreated(start, end, rows) =>
          seasons := seasons[nextSeasonId := SeasonRecord(start, end, rows)];
          seasonId := Some(nextSeasonId);
          nextSeasonId := nextSeasonId + 1;
          status := 201;
      }
    }

    /** `update_home_content`: on success the row is overwritten, if it
        exists, and the answer is 200. */
    method UpdateHomeContent(s: Session, data: map<string, Value>) returns (status: int)
      requires Valid()
      modifies this
      ensures Valid()
      ensures var d := HomeUpdateDecision(s, data);
              && (d.HomeRejected? ==> status == d.status && home == old(home))
              && (d.HomeWrite? ==> status == 200 && home == (if old(home).Some? then Some(d.row) else None))
      ensures users == old(users) && profiles == old(profiles) && seasons == old(seasons)
      ensures nextUserId == old(nextUserId) && nextSeasonId == old(nextSeasonId)
    {
      var d := HomeUpdateDecision(s, data);
      match d {
        case HomeRejected(code) =>
          status := code;
        case HomeWrite(row) =>
          if home.Some? {
            home := Some(row);
          }
          status := 200;
      }
    }
  }
}
