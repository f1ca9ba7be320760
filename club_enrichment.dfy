/**
 * Stage 01: enrich_clubs_with_performance counts, per club, the seasons from 1990
 * on in a recognised top league and those finished within that league's cutoff
 * rank; enrich_clubs_with_parent_club attaches each club's canonical parent.
 */
module ClubEnrichment {
  import opened Wrappers
  import opened Values
  import opened Records

  /** TOP_LEAGUES: the recognised top leagues and their "top-N" cutoff rank. */
  const TopLeagues: map<string, int> :=
    map["Ligue 1" := 3, "Premier League" := 5, "Bundesliga" := 3, "Serie A" := 4, "LaLiga" := 3]

  /** A record of team_seasons.json (season_id and season_rank already converted with int()). */
  datatype TeamSeason = TeamSeason(clubId: ClubId, seasonId: int, competitionName: string, seasonRank: int)

  /** The season increments top_league_count. */
  predicate IsTopLeagueSeason(s: TeamSeason)
  {
    s.seasonId >= 1990 && s.competitionName in TopLeagues
  }

  /** The season also increments top_ranked_count. */
  predicate IsTopRankedSeason(s: TeamSeason)
  {
    IsTopLeagueSeason(s) && s.seasonRank <= TopLeagues[s.competitionName]
  }

  /** Number of `club`'s seasons that count as top-league seasons. */
  function TopLeagueCount(seasons: seq<TeamSeason>, club: ClubId): nat
  {
    if seasons == [] then 0
    else
      var s := seasons[|seasons| - 1];
      TopLeagueCount(seasons[..|seasons| - 1], club) + (if s.clubId == club && IsTopLeagueSeason(s) then 1 else 0)
  }

  /** Number of `club`'s seasons that count as top-ranked finishes. */
  function TopRankedCount(seasons: seq<TeamSeason>, club: ClubId): nat
  {
    if seasons == [] then 0
    else
      var s := seasons[|seasons| - 1];
      TopRankedCount(seasons[..|seasons| - 1], club) + (if s.clubId == club && IsTopRankedSeason(s) then 1 else 0)
  }

  /** The three fields a club receives. */
  function PerformanceOf(seasons: seq<TeamSeason>, club: ClubId): Performance
  {
    var league := TopLeagueCount(seasons, club);
    var ranked := TopRankedCount(seasons, club);
    Performance(league, ranked, RateOf(ranked, league))
  }

  /** The per-club counters of the first loop, read with a default of zero. */
  datatype Counters = Counters(topLeagueCount: nat, topRankedCount: nat)

  function CountersFor(counters: map<ClubId, Counters>, club: ClubId): Counters
  {
    if club in counters then counters[club] else Counters(0, 0)
  }

  method EnrichClubsWithPerformance(seasons: seq<TeamSeason>, clubs: seq<Club>) returns (rated: seq<RatedClub>)
    ensures |rated| == |clubs|
    ensures forall i :: 0 <= i < |clubs| ==> rated[i] == RatedClub(clubs[i], PerformanceOf(seasons, clubs[i].clubId))
  {
    var counters: map<ClubId, Counters> := map[];
    for i := 0 to |seasons|
      invariant forall club :: (CountersFor(counters, club)
        == Counters(TopLeagueCount(seasons[..i], club), TopRankedCount(seasons[..i], club)))
    {
      var s := seasons[i];
      assert seasons[..i + 1][..i] == seasons[..i];
      if s.seasonId < 1990 {
        continue;
      } else if s.competitionName in TopLeagues {
        var c := CountersFor(counters, s.clubId);
        c := c.(topLeagueCount := c.topLeagueCount + 1);
        if s.seasonRank <= TopLeagues[s.competitionName] {
          c := c.(topRankedCount := c.topRankedCount + 1);
        }
        counters := counters[s.clubId := c];
      }
    }
    assert seasons[..|seasons|] == seasons;

    rated := [];
    for i := 0 to |clubs|
      invariant |rated| == i
      invariant forall k :: 0 <= k < i ==> rated[k] == RatedClub(clubs[k], PerformanceOf(seasons, clubs[k].clubId))
    {
      var c := CountersFor(counters, clubs[i].clubId);
      var rate := if c.topLeagueCount > 0 then Rate(c.topRankedCount, c.topLeagueCount) else Rate(0, 0);
      rated := rated + [RatedClub(clubs[i], Performance(c.topLeagueCount, c.topRankedCount, rate))];
    }
  }

  /** A club never has more top-ranked seasons than top-league seasons. */
  lemma {:induction false} RankedWithinLeague(seasons: seq<TeamSeason>, club: ClubId)
    ensures TopRankedCount(seasons, club) <= TopLeagueCount(seasons, club)
  {
    if seasons != [] {
      RankedWithinLeague(seasons[..|seasons| - 1], club);
    }
  }

  /** The rate written for a club is "0.00" without top-league seasons and otherwise between 0 and 100. */
  lemma PerformanceRateBounds(seasons: seq<TeamSeason>, club: ClubId)
    ensures var p := PerformanceOf(seasons, club);
      p.topRankedCount <= p.topLeagueCount
      && (p.topLeagueCount == 0 ==> p.topRankedRate == Rate(0, 0))
      && 0.0 <= p.topRankedRate.Percent() <= 100.0
  {
    RankedWithinLeague(seasons, club);
    RateOfBounds(TopRankedCount(seasons, club), TopLeagueCount(seasons, club));
  }

  /** A club none of whose seasons qualifies gets both counters at zero and the rate "0.00". */
  lemma {:induction false} NoQualifyingSeason(seasons: seq<TeamSeason>, club: ClubId)
    requires forall k :: 0 <= k < |seasons| && seasons[k].clubId == club ==> !IsTopLeagueSeason(seasons[k])
    ensures PerformanceOf(seasons, club) == Performance(0, 0, Rate(0, 0))
  {
    if seasons != [] {
      NoQualifyingSeason(seasons[..|seasons| - 1], club);
      RankedWithinLeague(seasons, club);
    }
  }

  /** The counters are sums over the seasons: they do not depend on how the file is split. */
  lemma {:induction false} CountsAppend(a: seq<TeamSeason>, b: seq<TeamSeason>, club: ClubId)
    ensures TopLeagueCount(a + b, club) == TopLeagueCount(a, club) + TopLeagueCount(b, club)
    ensures TopRankedCount(a + b, club) == TopRankedCount(a, club) + TopRankedCount(b, club)
  {
    if b == [] {
      assert a + b == a;
    } else {
      var n := |b| - 1;
      CountsAppend(a, b[..n], club);
      assert (a + b)[..|a + b| - 1] == a + b[..n];
    }
  }

  /** A season before 1990 changes neither counter, whatever its league and rank. */
  lemma OldSeasonIgnored(seasons: seq<TeamSeason>, s: TeamSeason, club: ClubId)
    requires s.seasonId < 1990
    ensures PerformanceOf(seasons + [s], club) == PerformanceOf(seasons, club)
  {
    assert (seasons + [s])[..|seasons|] == seasons;
  }

  /** The error enrich_clubs_with_parent_club raises: `parent_club_map[club_id]` has no entry. */
  datatype ParentError = MissingParentClub(clubId: ClubId)

  /** clubs[i] is the first club that has no entry in the map. */
  predicate FirstMissing(parentMap: map<ClubId, ClubId>, clubs: seq<RatedClub>, i: int)
  {
    0 <= i < |clubs| && clubs[i].club.clubId !in parentMap
    && forall k :: 0 <= k < i ==> clubs[k].club.clubId in parentMap
  }

  /**
   * Attaches parent_club_map[club_id] to every club. The source indexes the map
   * directly, so the first club without an entry raises KeyError and nothing is written.
   */
  method EnrichClubsWithParentClub(parentMap: map<ClubId, ClubId>, clubs: seq<RatedClub>)
    returns (r: Result<seq<ParentedClub>, ParentError>)
    ensures r.Ok? <==> forall i :: 0 <= i < |clubs| ==> clubs[i].club.clubId in parentMap
    ensures r.Ok? ==> (|r.value| == |clubs|
      && forall i :: 0 <= i < |clubs| ==>
        r.value[i].rated == clubs[i] && r.value[i].parentClubId == parentMap[clubs[i].club.clubId])
    ensures r.Err? ==> exists i :: FirstMissing(parentMap, clubs, i) && r.error == MissingParentClub(clubs[i].club.clubId)
  {
    var enriched: seq<ParentedClub> := [];
    for i := 0 to |clubs|
      invariant |enriched| == i
      invariant forall k :: 0 <= k < i ==> clubs[k].club.clubId in parentMap
      invariant forall k :: 0 <= k < i ==>
        enriched[k].rated == clubs[k] && enriched[k].parentClubId == parentMap[clubs[k].club.clubId]
    {
      var id := clubs[i].club.clubId;
      if id !in parentMap {
        assert FirstMissing(parentMap, clubs, i);
        return Err(MissingParentClub(id));
      }
      enriched := enriched + [ParentedClub(clubs[i], parentMap[id])];
    }
    return Ok(enriched);
  }
}
