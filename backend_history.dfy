/** The season history of one user in the backend: for each of the user's
    participations, newest first, the user's position in that season and the
    change of phase since the user's previous participation; only the newest
    entry is answered. */
module History {
  import opened Wrappers
  import opened Auth

  /** A row of the participations query: one per participant row carrying the
      user's habby id, ordered by season start date, newest first. */
  datatype Participation = Participation(seasonId: int, startDate: string, fase: Option<int>, total: Option<int>, name: string)

  /** A row of a season's ranking query: ordered by phase, highest first. */
  datatype RankRow = RankRow(fase: Option<int>, habbyId: Option<string>)

  datatype Change = Dash | Diff(d: int)

  datatype HistoryEntry = HistoryEntry(
    seasonId: int, startDate: string, position: Option<nat>, faseAcesso: Option<int>, evolution: Change)

  predicate IsFirstRow(ranking: seq<RankRow>, habbyId: string, k: int)
  {
    0 <= k < |ranking| && ranking[k].habbyId == Some(habbyId)
    && forall j :: 0 <= j < k ==> ranking[j].habbyId != Some(habbyId)
  }

  /** The 1-based index of the first ranking row with the user's habby id, or
      None when the user is not in the ranking. */
  function Position(ranking: seq<RankRow>, habbyId: string): (p: Option<nat>)
    ensures p.None? <==> forall k :: 0 <= k < |ranking| ==> ranking[k].habbyId != Some(habbyId)
    ensures p.Some? ==> 1 <= p.value <= |ranking| && IsFirstRow(ranking, habbyId, p.value - 1)
  {
    if ranking == [] then None
    else if ranking[0].habbyId == Some(habbyId) then Some(1)
    else
      match Position(ranking[1..], habbyId)
      case None => None
      case Some(q) =>
        assert IsFirstRow(ranking[1..], habbyId, q - 1);
        Some(q + 1)
  }

  /** The order of a phase column sorted highest first, nulls last. */
  predicate FaseAtLeast(a: Option<int>, b: Option<int>)
  {
    b.None? || (a.Some? && a.value >= b.value)
  }

  predicate RankedByFase(ranking: seq<RankRow>)
  {
    forall i, j :: 0 <= i < j < |ranking| ==> FaseAtLeast(ranking[i].fase, ranking[j].fase)
  }

  /** In a ranking ordered by phase, everyone placed before the user has a
      phase at least the user's, and everyone with a strictly higher phase is
      placed before the user: the position is a rank by phase, ties in the
      database's order. */
  lemma PositionIsRankByFase(ranking: seq<RankRow>, habbyId: string)
    requires RankedByFase(ranking)
    requires Position(ranking, habbyId).Some?
    ensures var k := Position(ranking, habbyId).value - 1;
            && (forall j :: 0 <= j < k ==> FaseAtLeast(ranking[j].fase, ranking[k].fase))
            && (forall j :: 0 <= j < |ranking| && !FaseAtLeast(ranking[k].fase, ranking[j].fase) ==> j < k)
  {
  }

  /** The change since the next-older participation: a dash for the oldest
      one or when either phase is null. */
  function EvolutionAt(ps: seq<Participation>, i: nat): (c: Change)
    requires i < |ps|
    ensures c.Diff? <==> i + 1 < |ps| && ps[i].fase.Some? && ps[i + 1].fase.Some?
    ensures c.Diff? ==> ps[i + 1].fase.value + c.d == ps[i].fase.value
  {
    if i + 1 < |ps| && ps[i].fase.Some? && ps[i + 1].fase.Some? then Diff(ps[i].fase.value - ps[i + 1].fase.value)
    else Dash
  }

  /** Every participation's season has its ranking among the query results. */
  predicate RankingsCover(ps: seq<Participation>, rankings: map<int, seq<RankRow>>)
  {
    forall i :: 0 <= i < |ps| ==> ps[i].seasonId in rankings
  }

  /** The history entry of the `i`-th participation. */
  function EntryAt(ps: seq<Participation>, rankings: map<int, seq<RankRow>>, habbyId: string, i: nat): (e: HistoryEntry)
    requires i < |ps| && ps[i].seasonId in rankings
    ensures e.seasonId == ps[i].seasonId && e.startDate == ps[i].startDate && e.faseAcesso == ps[i].fase
    ensures e.position == Position(rankings[ps[i].seasonId], habbyId)
    ensures e.evolution == EvolutionAt(ps, i)
  {
    HistoryEntry(ps[i].seasonId, ps[i].startDate, Position(rankings[ps[i].seasonId], habbyId), ps[i].fase, EvolutionAt(ps, i))
  }

  /** The loop of `get_user_history`: each season's ranking is read once and
      kept in `memo`, and one entry is built per participation. */
  method BuildHistory(ps: seq<Participation>, rankings: map<int, seq<RankRow>>, habbyId: string)
    returns (history: seq<HistoryEntry>)
    requires RankingsCover(ps, rankings)
    ensures |history| == |ps|
    ensures forall i :: 0 <= i < |ps| ==> history[i] == EntryAt(ps, rankings, habbyId, i)
  {
    history := [];
    var memo: map<int, seq<RankRow>> := map[];
    var i := 0;
    while i < |ps|
      invariant 0 <= i <= |ps|
      invariant |history| == i
      invariant forall k :: 0 <= k < i ==> history[k] == EntryAt(ps, rankings, habbyId, k)
      invariant forall sid :: sid in memo ==> sid in rankings && memo[sid] == rankings[sid]
      invariant forall k :: 0 <= k < i ==> ps[k].seasonId in memo
    {
      var current := ps[i];
      var seasonId := current.seasonId;
      if seasonId !in memo {
        memo := memo[seasonId := rankings[seasonId]];
      }
      var seasonRanking := memo[seasonId];
      var position := Position(seasonRanking, habbyId);
      var evolution := Dash;
      if i + 1 < |ps| {
        var previous := ps[i + 1];
        if current.fase.Some? && previous.fase.Some? {
          evolution := Diff(current.fase.value - previous.fase.value);
        }
      }
      history := history + [HistoryEntry(seasonId, current.startDate, position, current.fase, evolution)];
      i := i + 1;
    }
  }

  datatype HistoryOutcome = HistoryRejected(status: int) | NoHistory | Latest(entry: HistoryEntry)

  /** `get_user_history`: 401 without login; an empty list when the user has
      no participations; otherwise the entry of the newest participation. */
  method GetUserHistory(s: Session, habbyId: string, ps: seq<Participation>, rankings: map<int, seq<RankRow>>)
    returns (r: HistoryOutcome)
    requires RankingsCover(ps, rankings)
    ensures r == HistoryRejected(401) <==> s.userId.None?
    ensures r == NoHistory <==> s.userId.Some? && ps == []
    ensures r.Latest? ==> s.userId.Some? && ps != [] && r.entry == EntryAt(ps, rankings, habbyId, 0)
    ensures r.Latest? || r.NoHistory? || r == HistoryRejected(401)
  {
    if LoginRequired(s).Reject? {
      return HistoryRejected(401);
    }
    if ps == [] {
      return NoHistory;
    }
    var history := BuildHistory(ps, rankings, habbyId);
    r := Latest(history[0]);
  }
}
