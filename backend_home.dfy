/** The home-page content in the backend: a single row whose requirements
    list is stored as one text, items separated by `;`. */
module HomeContent {
  import opened Wrappers
  import opened Auth
  import Text

  const Separator: char := ';'

  /** The row with id 1 of the home-content table; `requirements` is a
      nullable text column. */
  datatype HomeRow = HomeRow(leader: Value, focus: Value, league: Value, requirements: Option<string>,
                             aboutUs: Value, contentSection: Value)

  /** Reading: the stored text split on `;`, or no items when it is null or
      empty. Joining the items again gives back the stored text. */
  function ReadRequirements(stored: Option<string>): (items: seq<string>)
    ensures stored.None? || stored == Some("") ==> items == []
    ensures stored.Some? && stored.value != "" ==>
              |items| == Text.Count(stored.value, Separator) + 1
              && forall i :: 0 <= i < |items| ==> Separator !in items[i]
    ensures Text.Join(items, Separator) == (if stored.Some? then stored.value else "")
  {
    if stored.None? || stored.value == "" then []
    else
      Text.JoinSplit(stored.value, Separator);
      Text.Split(stored.value, Separator)
  }

  /** Writing: `';'.join` of the request's `requirements` (no items when the
      key is absent). A list of texts is joined; a text is iterated character
      by character; an empty object has nothing to join; anything else makes
      the handler fail. */
  function RequirementsText(data: map<string, Value>): (t: Option<string>)
    ensures "requirements" !in data ==> t == Some("")
    ensures "requirements" in data ==>
              var v := data["requirements"];
              (t.None? <==> || v.Null? || v.Bool? || v.Num?
                            || (v.List? && exists i :: 0 <= i < |v.items| && !v.items[i].Str?)
                            || (v.Obj? && v.fields != map[]))
    ensures "requirements" in data && data["requirements"].Obj? && t.Some? ==> t == Some("")
  {
    var v := if "requirements" in data then data["requirements"] else List([]);
    match v
    case List(items) =>
      if forall i :: 0 <= i < |items| ==> items[i].Str? then
        Some(Text.Join(seq(|items|, i requires 0 <= i < |items| && items[i].Str? => items[i].s), Separator))
      else None
    case Str(s) => Some(Text.Join(seq(|s|, i requires 0 <= i < |s| => [s[i]]), Separator))
    case Obj(fields) => if fields == map[] then Some("") else None
    case _ => None
  }

  /** Items without `;` survive being written and read back, except the
      single empty item, which reads back as no items at all. */
  lemma {:induction false} RequirementsRoundTrip(items: seq<string>)
    requires forall i :: 0 <= i < |items| ==> Separator !in items[i]
    ensures ReadRequirements(Some(Text.Join(items, Separator))) == items <==> items != [""]
  {
    var t := Text.Join(items, Separator);
    if |items| >= 2 {
      assert t == items[0] + [Separator] + Text.Join(items[1..], Separator);
      assert t[|items[0]|] == Separator;
      Text.SplitJoin(items, Separator);
    } else if |items| == 1 {
      if items[0] != "" {
        Text.SplitJoin(items, Separator);
      }
    }
  }

  /** What the page sends back, a list of texts, is stored as their join. */
  lemma ListPayloadStoresJoin(data: map<string, Value>, items: seq<string>)
    requires "requirements" in data
    requires data["requirements"] == List(seq(|items|, i requires 0 <= i < |items| => Str(items[i])))
    ensures RequirementsText(data) == Some(Text.Join(items, Separator))
  {
    var v := data["requirements"];
    assert seq(|v.items|, i requires 0 <= i < |v.items| && v.items[i].Str? => v.items[i].s) == items;
  }

  /** A text sent where a list is expected is stored with `;` between its
      characters, and so reads back as its characters one by one. */
  lemma TextPayloadSplitsIntoCharacters(data: map<string, Value>, s: string)
    requires "requirements" in data && data["requirements"] == Str(s)
    requires s != "" && Separator !in s
    ensures RequirementsText(data).Some?
    ensures ReadRequirements(RequirementsText(data)) == seq(|s|, i requires 0 <= i < |s| => [s[i]])
  {
    var chars := seq(|s|, i requires 0 <= i < |s| => [s[i]]);
    assert forall i :: 0 <= i < |chars| ==> Separator !in chars[i];
    assert chars[0] == [s[0]];
    RequirementsRoundTrip(chars);
  }

  datatype HomeResponse = HomeNotFound | HomeFound(row: HomeRow, requirements: seq<string>)

  /** `get_home_content`: 404 without the row, otherwise the row with its
      requirements as a list. */
  function GetHomeContent(home: Option<HomeRow>): (r: HomeResponse)
    ensures r.HomeNotFound? <==> home.None?
    ensures r.HomeFound? ==> r.row == home.value && r.requirements == ReadRequirements(home.value.requirements)
  {
    match home
    case None => HomeNotFound
    case Some(row) => HomeFound(row, ReadRequirements(row.requirements))
  }

  datatype HomeUpdate = HomeRejected(status: int) | HomeWrite(row: HomeRow)

  /** `update_home_content`: the admin-only guard; 500 when the requirements
      cannot be joined; otherwise the new row, each other column taken from
      the request (null when absent). */
  function HomeUpdateDecision(s: Session, data: map<string, Value>): (r: HomeUpdate)
    ensures RolesRequired(s, AdminOnly).Reject? ==> r == HomeRejected(RolesRequired(s, AdminOnly).status)
    ensures RolesRequired(s, AdminOnly) == Proceed ==> (r == HomeRejected(500) <==> RequirementsText(data).None?)
    ensures RolesRequired(s, AdminOnly) == Proceed && RequirementsText(data).Some? ==> r.HomeWrite?
    ensures r.HomeWrite? ==>
              && RolesRequired(s, AdminOnly) == Proceed
              && r.row.requirements == RequirementsText(data)
              && r.row.leader == Get(data, "leader") && r.row.focus == Get(data, "focus")
              && r.row.league == Get(data, "league") && r.row.aboutUs == Get(data, "about_us")
              && r.row.contentSection == Get(data, "content_section")
  {
    match RolesRequired(s, AdminOnly)
    case Reject(status) => HomeRejected(status)
    case Proceed =>
      match RequirementsText(data)
      case None => HomeRejected(500)
      case Some(t) =>
        HomeWrite(HomeRow(Get(data, "leader"), Get(data, "focus"), Get(data, "league"), Some(t),
                          Get(data, "about_us"), Get(data, "content_section")))
  }
}
