/** The profile update of the backend: only whitelisted columns present in
    the request are written, in whitelist order, and only to the profile of
    the logged-in user. */
module Profiles {
  import opened Wrappers
  import opened Auth

  /** The columns a user may write to their own profile, in the order the
      update lists them. */
  const ProfileFields: seq<string> := [
    "nick", "profile_pic_url", "atk", "hp", "survivor_base_atk",
    "survivor_base_hp", "survivor_bonus_atk", "survivor_bonus_hp",
    "survivor_final_atk", "survivor_final_hp", "survivor_crit_rate",
    "survivor_crit_damage", "survivor_skill_damage", "survivor_shield_boost",
    "survivor_poison_targets", "survivor_weak_targets", "survivor_frozen_targets",
    "pet_base_atk", "pet_base_hp", "pet_crit_damage", "pet_skill_damage",
    "collect_final_atk", "collect_final_hp", "collect_crit_rate",
    "collect_crit_damage", "collect_skill_damage", "collect_poison_targets",
    "collect_weak_targets", "collect_frozen_targets"
  ]

  /** The fields of `fields` that are keys of `data`, in the order of
      `fields`. */
  function PresentFields(fields: seq<string>, data: map<string, Value>): (r: seq<string>)
    ensures |r| <= |fields|
    ensures forall f :: f in r <==> f in fields && f in data
  {
    if fields == [] then []
    else if fields[0] in data then [fields[0]] + PresentFields(fields[1..], data)
    else PresentFields(fields[1..], data)
  }

  /** `s` is `t` with some elements left out, the rest in their order. */
  predicate Subsequence(s: seq<string>, t: seq<string>)
    decreases |t|
  {
    s == [] || (t != [] && ((s[0] == t[0] && Subsequence(s[1..], t[1..])) || Subsequence(s, t[1..])))
  }

  /** The present fields keep the order of `fields`. */
  lemma {:induction false} PresentFieldsOrdered(fields: seq<string>, data: map<string, Value>)
    ensures Subsequence(PresentFields(fields, data), fields)
  {
    if fields != [] {
      PresentFieldsOrdered(fields[1..], data);
    }
  }

  /** No column is listed twice when `fields` names none twice. */
  lemma {:induction false} PresentFieldsDistinct(fields: seq<string>, data: map<string, Value>)
    requires forall i, j :: 0 <= i < j < |fields| ==> fields[i] != fields[j]
    ensures forall i, j :: 0 <= i < j < |PresentFields(fields, data)| ==>
              PresentFields(fields, data)[i] != PresentFields(fields, data)[j]
  {
    if fields != [] {
      var tail := fields[1..];
      assert forall i, j :: 0 <= i < j < |tail| ==> tail[i] != tail[j] by {
        forall i, j | 0 <= i < j < |tail|
          ensures tail[i] != tail[j]
        {
          assert tail[i] == fields[i + 1] && tail[j] == fields[j + 1];
        }
      }
      PresentFieldsDistinct(tail, data);
      var r := PresentFields(fields, data);
      var rest := PresentFields(tail, data);
      if fields[0] in data {
        assert r == [fields[0]] + rest;
        assert fields[0] !in tail;
        forall i, j | 0 <= i < j < |r|
          ensures r[i] != r[j]
        {
          assert r[j] == rest[j - 1] && rest[j - 1] in rest;
          if i > 0 {
            assert r[i] == rest[i - 1];
          }
        }
      } else {
        assert r == rest;
      }
    }
  }

  /** The whitelist names no column twice. */
  lemma ProfileFieldsDistinct()
    ensures forall i, j :: 0 <= i < j < |ProfileFields| ==> ProfileFields[i] != ProfileFields[j]
  {
  }

  /** Filtering two lists one after the other filters their concatenation. */
  lemma {:induction false} PresentFieldsAppend(a: seq<string>, b: seq<string>, data: map<string, Value>)
    ensures PresentFields(a + b, data) == PresentFields(a, data) + PresentFields(b, data)
  {
    if a != [] {
      assert (a + b)[0] == a[0] && (a + b)[1..] == a[1..] + b;
      PresentFieldsAppend(a[1..], b, data);
    } else {
      assert a + b == b;
    }
  }

  /** The loop of `update_user_profile` that collects the columns of
      `fields` present in the request and their values; the handler runs it
      over `ProfileFields`. */
  method CollectUpdates(fields: seq<string>, data: map<string, Value>) returns (columns: seq<string>, values: seq<Value>)
    ensures columns == PresentFields(fields, data)
    ensures |values| == |columns|
    ensures forall i :: 0 <= i < |columns| ==> columns[i] in data && values[i] == data[columns[i]]
  {
    columns := [];
    values := [];
    var k := 0;
    while k < |fields|
      invariant 0 <= k <= |fields|
      invariant columns == PresentFields(fields[..k], data)
      invariant |values| == |columns|
      invariant forall i :: 0 <= i < |columns| ==> columns[i] in data && values[i] == data[columns[i]]
    {
      var field := fields[k];
      PresentFieldsAppend(fields[..k], [field], data);
      assert fields[..k + 1] == fields[..k] + [field];
      if field in data {
        columns := columns + [field];
        values := values + [data[field]];
      }
      k := k + 1;
    }
    assert fields[..k] == fields;
  }

  /** The result of `update_user_profile`: an error status, or the columns
      to set with their values followed by the habby id that selects the
      row. */
  datatype ProfileUpdate = ProfileRejected(status: int) | ProfileWrite(columns: seq<string>, values: seq<Value>)

  /** The session's habby id as the value Python compares against. */
  function SessionHabby(s: Session): Value
  {
    if s.habbyId.Some? then Str(s.habbyId.value) else Null
  }

  /** `update_user_profile`: 401 without login; 403 when the request's
      `habby_id` is not the session's (an absent one equals an absent one);
      400 when no whitelisted column is present; otherwise the present
      whitelisted columns in whitelist order, their values, and last the
      session's habby id. The handler's whitelist is `ProfileFields`. */
  function ProfileUpdateDecision(whitelist: seq<string>, s: Session, data: map<string, Value>): (r: ProfileUpdate)
    ensures r == ProfileRejected(401) <==> s.userId.None?
    ensures s.userId.Some? ==> (r == ProfileRejected(403) <==> Get(data, "habby_id") != SessionHabby(s))
    ensures s.userId.Some? && Get(data, "habby_id") == SessionHabby(s) ==>
              (r == ProfileRejected(400) <==> forall f :: f in whitelist ==> f !in data)
    ensures r.ProfileRejected? ==> r.status in {400, 401, 403}
    ensures r.ProfileWrite? ==>
              && |r.values| == |r.columns| + 1 && r.values[|r.columns|] == SessionHabby(s)
              && (forall f :: f in r.columns <==> f in whitelist && f in data)
              && (forall i :: 0 <= i < |r.columns| ==> r.values[i] == data[r.columns[i]])
    ensures r.ProfileWrite? ==> r.columns == PresentFields(whitelist, data)
  {
    if s.userId.None? then ProfileRejected(401)
    else if Get(data, "habby_id") != SessionHabby(s) then ProfileRejected(403)
    else
      var columns := PresentFields(whitelist, data);
      if columns == [] then
        assert forall f :: f in whitelist ==> f !in data;
        ProfileRejected(400)
      else
        assert columns[0] in whitelist && columns[0] in data;
        ProfileWrite(columns, seq(|columns|, i requires 0 <= i < |columns| => data[columns[i]]) + [SessionHabby(s)])
  }

  /** `update_user_profile` up to the query it runs, step by step: the
      decision it reaches is `ProfileUpdateDecision`, and when it writes, the
      assignments it makes are the request restricted to the whitelist. */
  method ProfileUpdateHandler(whitelist: seq<string>, s: Session, data: map<string, Value>) returns (r: ProfileUpdate, updates: map<string, Value>)
    ensures r == ProfileUpdateDecision(whitelist, s, data)
    ensures r.ProfileWrite? ==> updates == Restrict(whitelist, data)
  {
    updates := map[];
    if LoginRequired(s).Reject? {
      return ProfileRejected(401), updates;
    }
    if Get(data, "habby_id") != SessionHabby(s) {
      return ProfileRejected(403), updates;
    }
    var columns, values := CollectUpdates(whitelist, data);
    if columns == [] {
      return ProfileRejected(400), updates;
    }
    CollectedAssignments(whitelist, data, columns, values);
    updates := Assignments(columns, values);
    assert values == seq(|columns|, i requires 0 <= i < |columns| => data[columns[i]]);
    r := ProfileWrite(columns, values + [SessionHabby(s)]);
  }

  /** The columns a write sets: the request restricted to `fields`. */
  function Restrict(fields: seq<string>, data: map<string, Value>): (m: map<string, Value>)
    ensures forall f :: f in m <==> f in fields && f in data
    ensures forall f :: f in m ==> m[f] == data[f]
  {
    map f | f in data && f in fields :: data[f]
  }

  /** The assignments `column = value` the update makes, pairing the two
      lists position by position (the first pairing of a column counts). */
  function Assignments(columns: seq<string>, values: seq<Value>): (m: map<string, Value>)
    requires |values| == |columns|
    ensures m.Keys == set i | 0 <= i < |columns| :: columns[i]
  {
    if columns == [] then map[]
    else Assignments(columns[1..], values[1..])[columns[0] := values[0]]
  }

  /** The assignments the loop collects are exactly the request restricted
      to the whitelist: every present whitelisted column, with its value. */
  lemma {:induction false} CollectedAssignments(fields: seq<string>, data: map<string, Value>,
                                                columns: seq<string>, values: seq<Value>)
    requires columns == PresentFields(fields, data) && |values| == |columns|
    requires forall i :: 0 <= i < |columns| ==> columns[i] in data && values[i] == data[columns[i]]
    ensures Assignments(columns, values) == Restrict(fields, data)
  {
    AssignmentsLookUp(columns, values, data);
  }

  lemma {:induction false} AssignmentsLookUp(columns: seq<string>, values: seq<Value>, data: map<string, Value>)
    requires |values| == |columns|
    requires forall i :: 0 <= i < |columns| ==> columns[i] in data && values[i] == data[columns[i]]
    ensures forall f :: f in Assignments(columns, values) ==> f in data && Assignments(columns, values)[f] == data[f]
  {
    if columns != [] {
      AssignmentsLookUp(columns[1..], values[1..], data);
    }
  }

  /** The identifying columns are never among those written: a profile keeps
      its habby id and its owner whatever the request holds. */
  lemma UpdatesNeverTouchIdentity(data: map<string, Value>)
    ensures "habby_id" !in Restrict(ProfileFields, data)
  {
    assert forall i :: 0 <= i < |ProfileFields| ==> ProfileFields[i] != "habby_id";
  }
}
