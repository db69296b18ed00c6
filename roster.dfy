/** The roster builder of the registration page: an editable list of
    participant records for a season not yet saved (add, edit in place,
    remove, cancel), the CSV importer, and the final submission of the
    season. */
module Roster {
  import opened Wrappers
  import Text

  /** One participant record as the form and the CSV importer build it: the
      scores are the text typed or read; `habbyId` is null until the name
      matches a known user. */
  datatype Entry = Entry(
    name: string, habbyId: Option<string>,
    fase: string, r1: string, r2: string, r3: string)

  /** The form's initial and reset value. */
  const EmptyEntry := Entry("", None, "", "", "", "")

  /** A known user, as the users endpoint lists them; `nick` comes from a left
      join and may be null. */
  datatype User = User(username: string, habbyId: Option<string>, nick: Option<string>)

  // ---------------------------------------------------------------- name lookup

  predicate Designates(u: User, value: string)
  {
    u.nick == Some(value) || u.username == value
  }

  predicate IsFirstDesignated(users: seq<User>, value: string, i: int)
  {
    0 <= i < |users| && Designates(users[i], value)
    && forall j :: 0 <= j < i ==> !Designates(users[j], value)
  }

  /** `allUsers.find(u => u.nick === value || u.username === value)`, then its
      `habby_id`, or null when no user matches. */
  function LookupHabbyId(users: seq<User>, value: string): (r: Option<string>)
    ensures (forall i :: 0 <= i < |users| ==> !Designates(users[i], value)) ==> r.None?
    ensures forall i :: IsFirstDesignated(users, value, i) ==> r == users[i].habbyId
  {
    if users == [] then None
    else if Designates(users[0], value) then users[0].habbyId
    else
      var r := LookupHabbyId(users[1..], value);
      assert forall i :: IsFirstDesignated(users, value, i) ==> i >= 1 && IsFirstDesignated(users[1..], value, i - 1);
      r
  }

  /** The form inputs. */
  datatype Field = NameField | FaseField | R1Field | R2Field | R3Field

  /** `handleInputChange`: typing a name also looks up its habby id; any other
      input sets its own field only. */
  function Edited(e: Entry, field: Field, value: string, users: seq<User>): Entry
  {
    match field
    case NameField => e.(name := value, habbyId := LookupHabbyId(users, value))
    case FaseField => e.(fase := value)
    case R1Field => e.(r1 := value)
    case R2Field => e.(r2 := value)
    case R3Field => e.(r3 := value)
  }

  // ---------------------------------------------------------------- CSV

  /** The `i`-th comma field of a line, undefined past the last. */
  function FieldAt(fields: seq<string>, i: nat): Option<string>
  {
    if i < |fields| then Some(fields[i]) else None
  }

  /** JavaScript truthiness of a field: defined and non-empty. */
  predicate Truthy(f: Option<string>)
  {
    f.Some? && f.value != ""
  }

  /** `r ? r.trim() : "0"`. */
  function RoundOrZero(f: Option<string>): string
  {
    if Truthy(f) then Text.Trim(f.value) else "0"
  }

  /** A line is kept when its first three comma fields are non-empty as read,
      before any trimming. */
  predicate Admissible(line: string)
  {
    var f := Text.Split(line, ',');
    |f| >= 3 && f[0] != "" && f[1] != "" && f[2] != ""
  }

  /** One data line of the CSV file, columns `name, habby_id, fase, r1, r2,
      r3`: kept only when the first three are non-empty, every kept field
      trimmed, an empty or missing round read as "0", later columns ignored. */
  function ParseCsvLine(line: string): (r: Option<Entry>)
    ensures r.Some? <==> Admissible(line)
    ensures r.Some? ==> r.value.habbyId.Some?
  {
    var f := Text.Split(line, ',');
    if Truthy(FieldAt(f, 0)) && Truthy(FieldAt(f, 1)) && Truthy(FieldAt(f, 2)) then
      Some(Entry(Text.Trim(f[0]), Some(Text.Trim(f[1])), Text.Trim(f[2]),
                 RoundOrZero(FieldAt(f, 3)), RoundOrZero(FieldAt(f, 4)), RoundOrZero(FieldAt(f, 5))))
    else None
  }

  /** `lines.map(ParseCsvLine).filter(p => p !== null)`. */
  function ParseCsvLines(lines: seq<string>): (entries: seq<Entry>)
    ensures |entries| <= |lines|
  {
    if lines == [] then []
    else
      match ParseCsvLine(lines[0])
      case Some(e) => [e] + ParseCsvLines(lines[1..])
      case None => ParseCsvLines(lines[1..])
  }

  /** The whole file: split on newlines, the first line dropped as header. */
  function ParseCsv(text: string): (entries: seq<Entry>)
    ensures |entries| < |Text.Split(text, '\n')|
  {
    ParseCsvLines(Text.Split(text, '\n')[1..])
  }

  /** Kept rows come out in file order: parsing two blocks of lines one after
      the other gives the rows of the first block, then those of the second. */
  lemma {:induction false} ParseCsvLinesAppend(a: seq<string>, b: seq<string>)
    ensures ParseCsvLines(a + b) == ParseCsvLines(a) + ParseCsvLines(b)
  {
    if a == [] {
      assert a + b == b;
    } else {
      assert (a + b)[0] == a[0] && (a + b)[1..] == a[1..] + b;
      ParseCsvLinesAppend(a[1..], b);
    }
  }

  /** Every row is exactly the parse of one kept line, and every kept line
      gives a row. */
  lemma {:induction false} ParseCsvLinesMembers(lines: seq<string>)
    ensures forall e :: e in ParseCsvLines(lines) ==> exists l :: l in lines && ParseCsvLine(l) == Some(e)
    ensures forall l :: l in lines && Admissible(l) ==> ParseCsvLine(l).value in ParseCsvLines(lines)
  {
    if lines != [] {
      ParseCsvLinesMembers(lines[1..]);
      assert forall l :: l in lines ==> l == lines[0] || l in lines[1..];
    }
  }

  /** The first line is always discarded, whatever it holds. */
  lemma HeaderDiscarded(header: string, body: string)
    requires '\n' !in header
    ensures ParseCsv(header + "\n" + body) == ParseCsvLines(Text.Split(body, '\n'))
  {
    Text.SplitAppend(header, body, '\n');
    Text.SplitWithoutSeparator(header, '\n');
  }

  /** A kept row's name, habby id and phase are its first three fields
      trimmed; a field of blanks only is admitted and becomes "". */
  lemma KeptFieldsTrimmed(line: string)
    requires Admissible(line)
    ensures var f := Text.Split(line, ',');
            var e := ParseCsvLine(line).value;
            && e.name == Text.Trim(f[0]) && e.habbyId == Some(Text.Trim(f[1])) && e.fase == Text.Trim(f[2])
            && (Text.AllWhitespace(f[0]) ==> e.name == "")
            && (Text.AllWhitespace(f[2]) ==> e.fase == "")
  {
    var f := Text.Split(line, ',');
    Text.TrimEmptyIff(f[0]);
    Text.TrimEmptyIff(f[2]);
  }

  /** A round column that is missing or empty reads as "0"; one of blanks
      only is not empty, so it is kept and trims to "". */
  lemma RoundOrZeroDefaults(f: Option<string>)
    ensures !Truthy(f) ==> RoundOrZero(f) == "0"
    ensures Truthy(f) ==> RoundOrZero(f) == Text.Trim(f.value)
    ensures Truthy(f) && Text.AllWhitespace(f.value) ==> RoundOrZero(f) == ""
  {
    if Truthy(f) {
      Text.TrimEmptyIff(f.value);
    }
  }

  /** The rounds of a kept row are read from the fourth to sixth columns. */
  lemma KeptRoundsFromColumns(line: string)
    requires Admissible(line)
    ensures var f := Text.Split(line, ',');
            var e := ParseCsvLine(line).value;
            e.r1 == RoundOrZero(FieldAt(f, 3)) && e.r2 == RoundOrZero(FieldAt(f, 4)) && e.r3 == RoundOrZero(FieldAt(f, 5))
  {
  }

  /** Columns after the sixth are ignored. */
  lemma ExtraColumnsIgnored(line: string, extra: string)
    requires |Text.Split(line, ',')| >= 6
    ensures ParseCsvLine(line + "," + extra) == ParseCsvLine(line)
  {
    Text.SplitAppend(line, extra, ',');
    var f := Text.Split(line, ',');
    var g := Text.Split(line + "," + extra, ',');
    assert g[..|f|] == f;
    assert forall i :: 0 <= i < 6 ==> g[i] == f[i];
  }

  // ---------------------------------------------------------------- editing index

  /** The part of the builder's state that the edit target depends on. */
  datatype EditState = EditState(roster: seq<Entry>, editing: Option<nat>)

  /** The edit target, if any, is a slot of the roster. */
  predicate EditTargetInRange(st: EditState)
  {
    st.editing.Some? ==> st.editing.value < |st.roster|
  }

  /** `participants.filter((_, i) => i !== k)`. */
  function RemoveAt(s: seq<Entry>, k: nat): (r: seq<Entry>)
    ensures k < |s| ==> r == s[..k] + s[k + 1..]
    ensures k >= |s| ==> r == s
  {
    if s == [] then []
    else if k == 0 then s[1..]
    else
      var r := [s[0]] + RemoveAt(s[1..], k - 1);
      assert k < |s| ==> [s[0]] + (s[1..][..k - 1] + s[1..][k..]) == s[..k] + s[k + 1..];
      assert k >= |s| ==> [s[0]] + s[1..] == s;
      r
  }

  /** Removal as written: the roster loses slot `k` and `editingIndex` is left
      as it was. */
  function RemoveAsWritten(st: EditState, k: nat): (r: EditState)
    ensures r.roster == RemoveAt(st.roster, k) && r.editing == st.editing
  {
    EditState(RemoveAt(st.roster, k), st.editing)
  }

  /** Editing slot 1 of [a, b, c] and removing slot 0 leaves the edit pointing
      at c: the update that follows overwrites c and b, the record loaded into
      the form, survives. */
  lemma RemoveAsWrittenRetargetsEdit(a: Entry, b: Entry, c: Entry)
    requires b != c
    ensures var r := RemoveAsWritten(EditState([a, b, c], Some(1)), 0);
            && EditTargetInRange(r) && r.roster[r.editing.value] == c && r.roster[r.editing.value] != b
  {
    assert RemoveAt([a, b, c], 0) == [b, c];
  }

  /** The edit target after removing slot `k`: it moves down with the records
      after `k`, and the edit ends when its own record is removed. */
  function ShiftEditIndex(editing: Option<nat>, k: nat): Option<nat>
  {
    match editing
    case None => None
    case Some(e) => if e == k then None else if e > k then Some(e - 1) else Some(e)
  }

  /** Corrected removal: the roster loses slot `k` and the edit target is
      shifted with it. */
  function RemoveCorrected(st: EditState, k: nat): (r: EditState)
    ensures r.roster == RemoveAt(st.roster, k)
  {
    EditState(RemoveAt(st.roster, k), ShiftEditIndex(st.editing, k))
  }

  /** After a corrected removal the edit target is still in range and still
      holds the record that was being edited, unless that record was removed. */
  lemma RemoveCorrectedKeepsEditTarget(st: EditState, k: nat)
    requires EditTargetInRange(st)
    ensures var r := RemoveCorrected(st, k);
            && EditTargetInRange(r)
            && (st.editing.Some? && st.editing.value != k ==>
                  r.editing.Some? && r.roster[r.editing.value] == st.roster[st.editing.value])
            && (st.editing == Some(k) ==> r.editing.None?)
  {
  }

  /** Successful submission as written: roster cleared, `editingIndex` kept. */
  function FinalizeAsWritten(st: EditState): (r: EditState)
    ensures r.roster == [] && r.editing == st.editing
  {
    EditState([], st.editing)
  }

  /** Submitting while slot 1 of [a, b] is being edited leaves edit target 1
      in an empty roster: the next add takes the update branch and writes
      slot 1 of an empty array, leaving a hole at slot 0. */
  lemma FinalizeAsWrittenLeavesDanglingEdit(a: Entry, b: Entry)
    ensures EditTargetInRange(EditState([a, b], Some(1)))
    ensures var r := FinalizeAsWritten(EditState([a, b], Some(1)));
            !EditTargetInRange(r) && r.editing.value > |r.roster|
  {
  }

  /** Corrected successful submission: the roster is cleared and any edit
      ends with it. */
  function FinalizeCorrected(st: EditState): (r: EditState)
    ensures r.roster == [] && EditTargetInRange(r)
  {
    EditState([], None)
  }

  // ---------------------------------------------------------------- the builder

  /** The request body sent to create the season. */
  datatype SeasonRequest = SeasonRequest(startDate: string, endDate: string, participants: seq<Entry>)

  /** What the finalize button did: refused locally, or sent the request and
      learnt whether it was accepted. */
  datatype FinalizeOutcome = Incomplete | Submitted(request: SeasonRequest, accepted: bool)

  class RosterBuilder {
    var participants: seq<Entry>
    var allUsers: seq<User>
    /** The form's content. */
    var current: Entry
    /** The roster slot the form is editing, if any. */
    var editingIndex: Option<nat>
    var startDate: string
    var endDate: string

    ghost predicate Valid()
      reads this
    {
      EditTargetInRange(EditState(participants, editingIndex))
    }

    constructor ()
      ensures Valid()
      ensures participants == [] && allUsers == [] && current == EmptyEntry
      ensures editingIndex == None && startDate == "" && endDate == ""
    {
      participants := [];
      allUsers := [];
      current := EmptyEntry;
      editingIndex := None;
      startDate := "";
      endDate := "";
    }

    /** The users request succeeded. */
    method UsersFetched(users: seq<User>)
      requires Valid()
      modifies this
      ensures Valid() && allUsers == users
      ensures participants == old(participants) && current == old(current)
      ensures editingIndex == old(editingIndex) && startDate == old(startDate) && endDate == old(endDate)
    {
      allUsers := users;
    }

    /** `handleInputChange`. */
    method InputChanged(field: Field, value: string)
      requires Valid()
      modifies this
      ensures Valid() && current == Edited(old(current), field, value, allUsers)
      ensures participants == old(participants) && allUsers == old(allUsers)
      ensures editingIndex == old(editingIndex) && startDate == old(startDate) && endDate == old(endDate)
    {
      current := Edited(current, field, value, allUsers);
    }

    /** The start-date input. */
    method StartDateChanged(value: string)
      requires Valid()
      modifies this
      ensures Valid() && startDate == value
      ensures participants == old(participants) && allUsers == old(allUsers) && current == old(current)
      ensures editingIndex == old(editingIndex) && endDate == old(endDate)
    {
      startDate := value;
    }

    /** The end-date input. */
    method EndDateChanged(value: string)
      requires Valid()
      modifies this
      ensures Valid() && endDate == value
      ensures participants == old(participants) && allUsers == old(allUsers) && current == old(current)
      ensures editingIndex == old(editingIndex) && startDate == old(startDate)
    {
      endDate := value;
    }

    /** `handleAddOrUpdateParticipant`: without a name and a phase nothing
        changes; otherwise the form is appended, or written over the slot
        being edited, and the form is reset. */
    method AddOrUpdate() returns (ok: bool)
      requires Valid()
      modifies this
      ensures Valid()
      ensures ok <==> old(current).name != "" && old(current).fase != ""
      ensures !ok ==> participants == old(participants) && editingIndex == old(editingIndex)
                      && current == old(current)
      ensures ok && old(editingIndex).None? ==> participants == old(participants) + [old(current)]
      ensures ok && old(editingIndex).Some? ==>
                && |participants| == |old(participants)|
                && participants[old(editingIndex).value] == old(current)
                && forall i :: 0 <= i < |participants| && i != old(editingIndex).value ==>
                     participants[i] == old(participants)[i]
      ensures ok ==> editingIndex == None && current == EmptyEntry
      ensures allUsers == old(allUsers) && startDate == old(startDate) && endDate == old(endDate)
    {
      ok := current.name != "" && current.fase != "";
      if ok {
        match editingIndex {
          case Some(k) =>
            participants := participants[k := current];
            editingIndex := None;
          case None =>
            participants := participants + [current];
        }
        current := EmptyEntry;
      }
    }

    /** `removeParticipant(k)` after the confirmation dialog answered
        `confirmed`; the edit target follows the records it pointed at and the
        edit ends, with the form reset, when its own record is removed. */
    method Remove(k: nat, confirmed: bool)
      requires Valid()
      modifies this
      ensures Valid()
      ensures !confirmed ==> participants == old(participants) && editingIndex == old(editingIndex)
                             && current == old(current)
      ensures confirmed ==> participants == RemoveAt(old(participants), k)
                            && editingIndex == ShiftEditIndex(old(editingIndex), k)
      ensures confirmed && old(editingIndex) == Some(k) ==> current == EmptyEntry
      ensures !(confirmed && old(editingIndex) == Some(k)) ==> current == old(current)
      ensures allUsers == old(allUsers) && startDate == old(startDate) && endDate == old(endDate)
    {
      if confirmed {
        RemoveCorrectedKeepsEditTarget(EditState(participants, editingIndex), k);
        if editingIndex == Some(k) {
          current := EmptyEntry;
        }
        participants := RemoveAt(participants, k);
        editingIndex := ShiftEditIndex(editingIndex, k);
      }
    }

    /** `handleEditParticipant(k)`: loads slot `k` into the form. */
    method BeginEdit(k: nat)
      requires Valid() && k < |participants|
      modifies this
      ensures Valid() && editingIndex == Some(k) && current == participants[k]
      ensures participants == old(participants) && allUsers == old(allUsers)
      ensures startDate == old(startDate) && endDate == old(endDate)
    {
      editingIndex := Some(k);
      current := participants[k];
    }

    /** `cancelEdit`. */
    method CancelEdit()
      requires Valid()
      modifies this
      ensures Valid() && editingIndex == None && current == EmptyEntry
      ensures participants == old(participants) && allUsers == old(allUsers)
      ensures startDate == old(startDate) && endDate == old(endDate)
    {
      editingIndex := None;
      current := EmptyEntry;
    }

    /** `finalizeSeason`, with `requestOk` the outcome of the season request:
        nothing is sent without participants and both dates; the roster and
        dates are cleared only when the request succeeds, and then any edit
        ends too. */
    method Finalize(requestOk: bool) returns (outcome: FinalizeOutcome)
      requires Valid()
      modifies this
      ensures Valid()
      ensures outcome.Incomplete? <==> |old(participants)| == 0 || old(startDate) == "" || old(endDate) == ""
      ensures outcome.Submitted? ==>
                && outcome.request == SeasonRequest(old(startDate), old(endDate), old(participants))
                && outcome.accepted == requestOk
      ensures outcome.Submitted? && requestOk ==>
                && participants == [] && startDate == "" && endDate == "" && editingIndex == None
                && current == (if old(editingIndex).Some? then EmptyEntry else old(current))
      ensures !(outcome.Submitted? && requestOk) ==>
                && participants == old(participants) && startDate == old(startDate)
                && endDate == old(endDate) && editingIndex == old(editingIndex) && current == old(current)
      ensures allUsers == old(allUsers)
    {
      if |participants| == 0 || startDate == "" || endDate == "" {
        return Incomplete;
      }
      outcome := Submitted(SeasonRequest(startDate, endDate, participants), requestOk);
      if requestOk {
        participants := [];
        startDate := "";
        endDate := "";
        if editingIndex.Some? {
          editingIndex := None;
          current := EmptyEntry;
        }
      }
    }

    /** `handleCsvUpload` once the file is read: the kept rows are appended in
        file order and their number is reported. */
    method ImportCsv(text: string) returns (count: nat)
      requires Valid()
      modifies this
      ensures Valid()
      ensures participants == old(participants) + ParseCsv(text) && count == |ParseCsv(text)|
      ensures allUsers == old(allUsers) && current == old(current) && editingIndex == old(editingIndex)
      ensures startDate == old(startDate) && endDate == old(endDate)
    {
      var rows := ParseCsv(text);
      participants := participants + rows;
      count := |rows|;
    }
  }
}
