/**
 * Stage 02, enrich_transfers_with_club_performance: every transfer is tagged by
 * whether its destination is a known club, a top-league club and a top-ranked club.
 */
module TransferFlags {
  import opened Wrappers
  import opened Values
  import opened Records

  /** all_clubs */
  function AllClubs(clubs: seq<ParentedClub>): set<ClubId>
  {
    set c | c in clubs :: c.Id()
  }

  /** A club record that gives its club a top-league status. */
  predicate IsTopLeagueClub(c: ParentedClub)
  {
    c.TopLeagueCount() > 0
  }

  /** A club record that gives its club a top-ranked status: rate >= 10.0 and count >= 10. */
  predicate IsTopRankedClub(c: ParentedClub)
  {
    c.TopRankedRate().AtLeast(10) && c.TopLeagueCount() >= 10
  }

  /** top_league_clubs */
  function TopLeagueClubs(clubs: seq<ParentedClub>): set<ClubId>
  {
    set c | c in clubs && IsTopLeagueClub(c) :: c.Id()
  }

  /** top_ranked_clubs */
  function TopRankedClubs(clubs: seq<ParentedClub>): set<ClubId>
  {
    set c | c in clubs && IsTopRankedClub(c) :: c.Id()
  }

  /** The three sets are nested: top-ranked clubs are top-league clubs, which are known clubs. */
  lemma ClubSetsNested(clubs: seq<ParentedClub>)
    ensures TopRankedClubs(clubs) <= TopLeagueClubs(clubs) <= AllClubs(clubs)
  {
  }

  /** `team_id in some_set`, where a missing id (None) is never a member. */
  predicate InClubs(team: Option<ClubId>, clubs: set<ClubId>)
  {
    team.Some? && team.value in clubs
  }

  /** Some record of `clubs` has this id and satisfies `kind`. */
  predicate HasClub(clubs: seq<ParentedClub>, team: Option<ClubId>, kind: ClubKind)
  {
    exists k :: 0 <= k < |clubs| && team == Some(clubs[k].Id()) && kind.Holds(clubs[k])
  }

  datatype ClubKind = AnyClub | TopLeagueClub | TopRankedClub
  {
    predicate Holds(c: ParentedClub)
    {
      match this
      case AnyClub => true
      case TopLeagueClub => IsTopLeagueClub(c)
      case TopRankedClub => IsTopRankedClub(c)
    }
  }

  /** The flags of one transfer, given the three club sets. */
  function Classify(all: set<ClubId>, topLeague: set<ClubId>, topRanked: set<ClubId>, t: Transfer): FlaggedTransfer
  {
    FlaggedTransfer(t, InClubs(t.toTeamId, all), InClubs(t.toTeamId, topLeague), InClubs(t.toTeamId, topRanked))
  }

  /** What a transfer's flags mean in terms of the club records. */
  predicate FlaggedFor(clubs: seq<ParentedClub>, t: Transfer, f: FlaggedTransfer)
  {
    && f.transfer == t
    && (f.isExistingClubs <==> HasClub(clubs, t.toTeamId, AnyClub))
    && (f.isTopLeagueTransfer <==> HasClub(clubs, t.toTeamId, TopLeagueClub))
    && (f.isTopRankedTransfer <==> HasClub(clubs, t.toTeamId, TopRankedClub))
  }

  lemma ClassifyMeaning(clubs: seq<ParentedClub>, t: Transfer)
    ensures FlaggedFor(clubs, t, Classify(AllClubs(clubs), TopLeagueClubs(clubs), TopRankedClubs(clubs), t))
  {
    var f := Classify(AllClubs(clubs), TopLeagueClubs(clubs), TopRankedClubs(clubs), t);
    if f.isExistingClubs {
      var c :| c in clubs && Some(c.Id()) == t.toTeamId;
      var k :| 0 <= k < |clubs| && clubs[k] == c;
      assert AnyClub.Holds(clubs[k]);
    }
    if f.isTopLeagueTransfer {
      var c :| c in clubs && IsTopLeagueClub(c) && Some(c.Id()) == t.toTeamId;
      var k :| 0 <= k < |clubs| && clubs[k] == c;
      assert TopLeagueClub.Holds(clubs[k]);
    }
    if f.isTopRankedTransfer {
      var c :| c in clubs && IsTopRankedClub(c) && Some(c.Id()) == t.toTeamId;
      var k :| 0 <= k < |clubs| && clubs[k] == c;
      assert TopRankedClub.Holds(clubs[k]);
    }
    if HasClub(clubs, t.toTeamId, AnyClub) {
      var k :| 0 <= k < |clubs| && t.toTeamId == Some(clubs[k].Id());
      assert clubs[k] in clubs;
    }
    if HasClub(clubs, t.toTeamId, TopLeagueClub) {
      var k :| 0 <= k < |clubs| && t.toTeamId == Some(clubs[k].Id()) && TopLeagueClub.Holds(clubs[k]);
      assert clubs[k] in clubs;
    }
    if HasClub(clubs, t.toTeamId, TopRankedClub) {
      var k :| 0 <= k < |clubs| && t.toTeamId == Some(clubs[k].Id()) && TopRankedClub.Holds(clubs[k]);
      assert clubs[k] in clubs;
    }
  }

  method EnrichTransfersWithClubPerformance(clubs: seq<ParentedClub>, transfers: seq<Transfer>)
    returns (flagged: seq<FlaggedTransfer>)
    ensures |flagged| == |transfers|
    ensures forall i :: 0 <= i < |transfers| ==> FlaggedFor(clubs, transfers[i], flagged[i])
    ensures forall i :: 0 <= i < |flagged| ==> WellFlagged(flagged[i])
  {
    var all := AllClubs(clubs);
    var topLeague := TopLeagueClubs(clubs);
    var topRanked := TopRankedClubs(clubs);
    ClubSetsNested(clubs);
    flagged := [];
    for i := 0 to |transfers|
      invariant |flagged| == i
      invariant forall k :: 0 <= k < i ==> FlaggedFor(clubs, transfers[k], flagged[k]) && WellFlagged(flagged[k])
    {
      ClassifyMeaning(clubs, transfers[i]);
      flagged := flagged + [Classify(all, topLeague, topRanked, transfers[i])];
    }
  }

  /** The flags look only at the destination: changing the origin changes none of them. */
  lemma FlagsIgnoreOrigin(clubs: seq<ParentedClub>, t: Transfer, from: Option<ClubId>, f: FlaggedTransfer, g: FlaggedTransfer)
    requires FlaggedFor(clubs, t, f) && FlaggedFor(clubs, t.(fromTeamId := from), g)
    ensures g == f.WithFrom(from)
  {
  }
}
