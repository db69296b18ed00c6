/** The state of the results page: the seasons it fetched, oldest first, and
    the page being shown, one page per season. */
module ResultsView {
  import opened Wrappers
  import opened Ranking

  class ResultsPage {
    var seasons: seq<Season>
    /** 1-based number of the season shown. */
    var currentPage: int

    /** The page is always a real season once there is one. */
    ghost predicate Valid()
      reads this
    {
      1 <= currentPage && (|seasons| > 0 ==> currentPage <= |seasons|)
    }

    /** Before the fetch completes: no seasons, page 1. */
    constructor ()
      ensures Valid() && seasons == [] && currentPage == 1
    {
      seasons := [];
      currentPage := 1;
    }

    /** The seasons request succeeded with `data`: the page moves to the most
        recent season, or stays where it was when there is none. */
    method SeasonsFetched(data: seq<Season>)
      requires Valid()
      modifies this
      ensures Valid()
      ensures seasons == data
      ensures currentPage == if |data| > 0 then |data| else old(currentPage)
    {
      seasons := data;
      if |data| > 0 {
        currentPage := |data|;
      }
    }

    function TotalPages(): nat
      reads this
    {
      |seasons|
    }

    /** `seasons[currentPage - 1]`: the season shown, absent before any
        season exists. */
    function DisplayedSeason(): (s: Option<Season>)
      reads this
      requires Valid()
      ensures s.Some? <==> |seasons| > 0
      ensures s.Some? ==> 0 <= currentPage - 1 < |seasons| && s.value == seasons[currentPage - 1]
    {
      if |seasons| > 0 then Some(seasons[currentPage - 1]) else None
    }

    /** `rankingData`: both rankings of the season shown. */
    function DisplayedRanking(): (r: Option<RankingData>)
      reads this
      requires Valid()
      ensures r.Some? <==> |seasons| > 0
      ensures r.Some? ==> r.value == GetRankingData(seasons[currentPage - 1].participants)
    {
      match DisplayedSeason()
      case None => None
      case Some(s) => Some(GetRankingData(s.participants))
    }

    /** The "previous" button: rendered only with a season, disabled on page 1. */
    method PreviousPage()
      requires Valid()
      modifies this
      ensures Valid() && seasons == old(seasons)
      ensures currentPage == if |seasons| > 0 && old(currentPage) != 1
                             then old(currentPage) - 1 else old(currentPage)
    {
      if |seasons| > 0 && currentPage != 1 {
        currentPage := currentPage - 1;
      }
    }

    /** The "next" button: rendered only with a season, disabled on the last
        page. */
    method NextPage()
      requires Valid()
      modifies this
      ensures Valid() && seasons == old(seasons)
      ensures currentPage == if |seasons| > 0 && old(currentPage) != TotalPages()
                             then old(currentPage) + 1 else old(currentPage)
    {
      if |seasons| > 0 && currentPage != TotalPages() {
        currentPage := currentPage + 1;
      }
    }

    /** `renderEvolution(name)`: the evolution of `name` between the season
        shown and the one before it. */
    function EvolutionCellFor(name: string): (c: EvolutionCell)
      reads this
      requires Valid()
      ensures c.text == "-" <==>
                || currentPage == 1 || |seasons| == 0
                || !HasNamed(seasons[currentPage - 1].participants, name)
                || !HasNamed(seasons[currentPage - 2].participants, name)
    {
      RenderEvolution(CalculateEvolution(seasons, name, currentPage - 1))
    }
  }
}
