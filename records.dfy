/**
 * The records the footble pipeline passes from stage to stage. Each script reads
 * a JSON snapshot, adds fields to every record and writes it back; here every
 * stage has its own record type that embeds the record it was given unchanged,
 * so "original fields are kept" is a statement about the embedded record.
 */
module Records {
  import opened Wrappers
  import opened Values

  type ClubId = string
  type PlayerId = string

  /** A club as scraped (clubs.json before enrichment). */
  datatype Club = Club(clubId: ClubId, name: string)

  /** The fields enrich_clubs_with_performance adds to a club. */
  datatype Performance = Performance(topLeagueCount: nat, topRankedCount: nat, topRankedRate: Rate)

  datatype RatedClub = RatedClub(club: Club, performance: Performance)

  /** A club once both enrichments of clubs.json have run. */
  datatype ParentedClub = ParentedClub(rated: RatedClub, parentClubId: ClubId)
  {
    function Id(): ClubId { rated.club.clubId }
    function TopLeagueCount(): nat { rated.performance.topLeagueCount }
    function TopRankedRate(): Rate { rated.performance.topRankedRate }
  }

  /**
   * A transfer as scraped. Team ids are optional because the chain reducer replaces
   * unknown ids with None; a missing `transfer_date` (the empty string) is None.
   */
  datatype Transfer = Transfer(
    playerId: PlayerId,
    fromTeamId: Option<ClubId>,
    toTeamId: Option<ClubId>,
    transferDate: Option<Date>,
    valueAtTransfer: int)

  /** A transfer with the three destination flags of enrich_transfers_with_club_performance. */
  datatype FlaggedTransfer = FlaggedTransfer(
    transfer: Transfer,
    isExistingClubs: bool,
    isTopLeagueTransfer: bool,
    isTopRankedTransfer: bool)
  {
    function From(): Option<ClubId> { transfer.fromTeamId }
    function To(): Option<ClubId> { transfer.toTeamId }
    function TransferDate(): Option<Date> { transfer.transferDate }

    /** The same transfer leaving from another club; every other field is kept. */
    function WithFrom(from: Option<ClubId>): FlaggedTransfer
    {
      this.(transfer := transfer.(fromTeamId := from))
    }
  }

  /** top-ranked implies top-league implies existing, as the classifier guarantees. */
  predicate WellFlagged(t: FlaggedTransfer)
  {
    (t.isTopRankedTransfer ==> t.isTopLeagueTransfer) && (t.isTopLeagueTransfer ==> t.isExistingClubs)
  }

  /** One player's reduced chain, an entry of reduced_transfers.json (an ordered JSON object). */
  datatype PlayerChain = PlayerChain(playerId: PlayerId, transfers: seq<FlaggedTransfer>)

  /** A player as scraped; citizenship and position are carried through untouched. */
  datatype Player = Player(
    playerId: PlayerId,
    playerSlug: string,
    playerName: string,
    playerImageUrl: string,
    citizenship: string,
    position: string,
    dateOfBirth: string)

  /** A player with the eight fields enrich_players_with_transfers_info adds. */
  datatype EnrichedPlayer = EnrichedPlayer(
    player: Player,
    topLeagueTransfers: nat,
    topRankedTransfers: nat,
    totalTransfers: nat,
    topLeagueTransferRate: Rate,
    topRankedTransferRate: Rate,
    maxValueAtTransfer: int,
    careerStartDate: Option<Date>,
    clubIds: seq<Option<ClubId>>)

  /** The two rate fields are the rates of the three counters, as the enricher writes them. */
  predicate RatesConsistent(p: EnrichedPlayer)
  {
    p.topLeagueTransferRate == RateOf(p.topLeagueTransfers, p.totalTransfers)
    && p.topRankedTransferRate == RateOf(p.topRankedTransfers, p.totalTransfers)
  }
}
