/** Season creation in the backend: the staff guard, the date check, and the
    participant rows the handler inserts; and the agreement between what the
    roster builder submits and what this handler accepts. */
module Seasons {
  import opened Wrappers
  import opened Auth
  import Roster

  /** A participant row as inserted: the request's values, unconverted; a
      missing `habby_id` is stored as null. */
  datatype ParticipantRow = ParticipantRow(habbyId: Value, name: Value, fase: Value, r1: Value, r2: Value, r3: Value)

  /** The keys each participant object must carry; a missing one makes the
      handler fail. */
  const RequiredKeys: set<string> := {"name", "fase", "r1", "r2", "r3"}

  predicate IsParticipantObject(v: Value)
  {
    v.Obj? && RequiredKeys <= v.fields.Keys
  }

  function ToRow(v: Value): (row: ParticipantRow)
    requires IsParticipantObject(v)
    ensures row.name == v.fields["name"] && row.fase == v.fields["fase"]
    ensures row.r1 == v.fields["r1"] && row.r2 == v.fields["r2"] && row.r3 == v.fields["r3"]
    ensures row.habbyId == Get(v.fields, "habby_id")
  {
    ParticipantRow(Get(v.fields, "habby_id"), v.fields["name"], v.fields["fase"],
                   v.fields["r1"], v.fields["r2"], v.fields["r3"])
  }

  /** The rows `for p in participants` inserts, or None when the loop raises:
      a list whose every item is an object with the required keys gives one
      row per item, in order; an empty string or empty object is iterated
      zero times; anything else fails. */
  function ParticipantRows(v: Value): (rows: Option<seq<ParticipantRow>>)
    ensures v.List? ==> (rows.Some? <==> forall i :: 0 <= i < |v.items| ==> IsParticipantObject(v.items[i]))
    ensures v.List? && rows.Some? ==>
              |rows.value| == |v.items| && forall i :: 0 <= i < |v.items| ==> rows.value[i] == ToRow(v.items[i])
    ensures !v.List? ==> (rows.Some? <==> !Truthy(v) && (v.Str? || v.Obj?))
    ensures rows.Some? && !v.List? ==> rows.value == []
  {
    match v
    case List(items) =>
      if forall i :: 0 <= i < |items| ==> IsParticipantObject(items[i]) then
        Some(seq(|items|, i requires 0 <= i < |items| && IsParticipantObject(items[i]) => ToRow(items[i])))
      else None
    case Str(s) => if s == "" then Some([]) else None
    case Obj(fields) => if fields == map[] then Some([]) else None
    case _ => None
  }

  datatype CreateOutcome =
    | SeasonRejected(status: int)
    | SeasonCreated(startDate: Value, endDate: Value, rows: seq<ParticipantRow>)

  /** `create_season`: the staff guard; 400 when either date is missing or
      empty; 500 when iterating the participants fails (nothing is then
      committed); otherwise the season with its rows. */
  function CreateSeasonDecision(s: Session, data: map<string, Value>): (r: CreateOutcome)
    ensures RolesRequired(s, Staff).Reject? ==> r == SeasonRejected(RolesRequired(s, Staff).status)
    ensures RolesRequired(s, Staff) == Proceed ==>
              (r == SeasonRejected(400) <==> !Truthy(Get(data, "startDate")) || !Truthy(Get(data, "endDate")))
    ensures var rows := ParticipantRows(if "participants" in data then data["participants"] else List([]));
            (RolesRequired(s, Staff) == Proceed && Truthy(Get(data, "startDate")) && Truthy(Get(data, "endDate"))
             && rows.Some?) ==> r == SeasonCreated(data["startDate"], data["endDate"], rows.value)
    ensures r.SeasonCreated? ==>
              && RolesRequired(s, Staff) == Proceed
              && r.startDate == data["startDate"] && r.endDate == data["endDate"]
              && Truthy(r.startDate) && Truthy(r.endDate)
              && ParticipantRows(if "participants" in data then data["participants"] else List([])) == Some(r.rows)
    ensures r == SeasonRejected(500) <==>
              && RolesRequired(s, Staff) == Proceed
              && Truthy(Get(data, "startDate")) && Truthy(Get(data, "endDate"))
              && ParticipantRows(if "participants" in data then data["participants"] else List([])).None?
  {
    match RolesRequired(s, Staff)
    case Reject(status) => SeasonRejected(status)
    case Proceed =>
      var start := Get(data, "startDate");
      var end := Get(data, "endDate");
      if !Truthy(start) || !Truthy(end) then SeasonRejected(400)
      else
        match ParticipantRows(if "participants" in data then data["participants"] else List([]))
        case None => SeasonRejected(500)
        case Some(rows) => SeasonCreated(start, end, rows)
  }

  // ---------------------------------------------------------------- the roster's request

  /** A roster record as the request body carries it. */
  function EncodeEntry(e: Roster.Entry): (v: Value)
    ensures IsParticipantObject(v)
  {
    Obj(map["name" := Str(e.name),
            "habby_id" := (if e.habbyId.Some? then Str(e.habbyId.value) else Null),
            "fase" := Str(e.fase), "r1" := Str(e.r1), "r2" := Str(e.r2), "r3" := Str(e.r3)])
  }

  /** The body the roster builder posts when it finalizes. */
  function EncodeRequest(req: Roster.SeasonRequest): (data: map<string, Value>)
    ensures data.Keys == {"startDate", "endDate", "participants"}
  {
    map["startDate" := Str(req.startDate), "endDate" := Str(req.endDate),
        "participants" := List(seq(|req.participants|, i requires 0 <= i < |req.participants| =>
                                     EncodeEntry(req.participants[i])))]
  }

  /** A record the roster sends becomes a row with its own fields. */
  lemma EncodedEntryRow(e: Roster.Entry)
    ensures var row := ToRow(EncodeEntry(e));
            && row.name == Str(e.name) && row.fase == Str(e.fase)
            && row.r1 == Str(e.r1) && row.r2 == Str(e.r2) && row.r3 == Str(e.r3)
            && (row.habbyId == Null <==> e.habbyId.None?)
  {
  }

  /** Whatever the roster builder submits, a staff member's request creates
      the season: the builder only sends non-empty dates, and each record it
      sends carries every key the handler reads. One row is created per
      record, in roster order, with the record's own fields. */
  lemma SubmittedRosterIsAccepted(s: Session, req: Roster.SeasonRequest)
    requires RolesRequired(s, Staff) == Proceed
    requires req.startDate != "" && req.endDate != ""
    ensures var r := CreateSeasonDecision(s, EncodeRequest(req));
            && r.SeasonCreated?
            && |r.rows| == |req.participants|
            && forall i :: 0 <= i < |req.participants| ==> r.rows[i] == ToRow(EncodeEntry(req.participants[i]))
  {
    var data := EncodeRequest(req);
    var items := data["participants"].items;
    assert forall i :: 0 <= i < |items| ==> items[i] == EncodeEntry(req.participants[i]);
    assert Truthy(Get(data, "startDate")) && Truthy(Get(data, "endDate"));
  }
}
