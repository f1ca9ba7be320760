/**
 * Properties of the scripts run one after the other: stage 02 flags the transfers,
 * stage 03 reduces them, stage 04 enriches the players, stage 05 cleans the names
 * and filters the top players, stage 06 publishes.
 */
module Pipeline {
  import opened Wrappers
  import opened Records
  import opened TransferFlags
  import opened TransferChains
  import opened PlayerEnrichment
  import opened PlayerNames
  import opened TopPlayers
  import opened PublicData
  import opened Guesses

  /** Every transfer of reduced_transfers.json is dated and keeps the flags of a transfer of its player. */
  lemma ReducedTransferOrigin(clubs: seq<ParentedClub>, transfers: seq<FlaggedTransfer>, k: nat)
    requires k < |Flatten(ReducedTransfers(clubs, transfers))|
    ensures Flatten(ReducedTransfers(clubs, transfers))[k].TransferDate().Some?
    ensures exists t :: t in transfers && SameDateAndFlags(Flatten(ReducedTransfers(clubs, transfers))[k], t)
  {
    var reduced := ReducedTransfers(clubs, transfers);
    FlattenMember(reduced, k);
    var i, j :| 0 <= i < |reduced| && 0 <= j < |reduced[i].transfers| && Flatten(reduced)[k] == reduced[i].transfers[j];
    var p := reduced[i].playerId;
    ReducedTransfersMembers(clubs, transfers, p);
    var group := PlayerTransfers(transfers, p);
    assert KeptFrom(AllClubs(clubs), ParentMap(clubs), p, group, reduced[i].transfers[j]);
    var g :| 0 <= g < |group| && SameDateAndFlags(reduced[i].transfers[j], group[g]);
    PlayerTransfersOwn(transfers, p);
    assert group[g] in transfers;
  }

  /** The players.json stage 04 writes, name cleaning of stage 05 included. */
  function CleanedPlayers(clubs: seq<ParentedClub>, transfers: seq<FlaggedTransfer>, players: seq<Player>): seq<EnrichedPlayer>
  {
    var reduced := ReducedTransfers(clubs, transfers);
    CleanPlayers(seq(|players|, i requires 0 <= i < |players| => EnrichedFor(reduced, players[i])))
  }

  /**
   * After stage 03 every transfer is dated, so the filter never meets an empty career
   * start date: a player that passes the first three tests has a transfer, hence a date.
   */
  lemma FilterNeverFailsAfterReduce(clubs: seq<ParentedClub>, transfers: seq<FlaggedTransfer>, players: seq<Player>)
    ensures forall i :: 0 <= i < |players| ==> Judge(CleanedPlayers(clubs, transfers, players)[i]) != UnparsableCareerStart
  {
    var reduced := ReducedTransfers(clubs, transfers);
    var cleaned := CleanedPlayers(clubs, transfers, players);
    forall i | 0 <= i < |players|
      ensures Judge(cleaned[i]) != UnparsableCareerStart
    {
      var e := EnrichedFor(reduced, players[i]);
      DatedAfterReduce(clubs, transfers, players[i]);
      assert cleaned[i] == e.(player := e.player.(playerName := CleanPlayerName(e.player.playerName)));
    }
  }

  /** One player of the enriched file never reaches the date parse with an empty date. */
  lemma DatedAfterReduce(clubs: seq<ParentedClub>, transfers: seq<FlaggedTransfer>, player: Player)
    ensures Judge(EnrichedFor(ReducedTransfers(clubs, transfers), player)) != UnparsableCareerStart
  {
    var reduced := ReducedTransfers(clubs, transfers);
    var s := PlayerTransfers(Flatten(reduced), player.playerId);
    InfoCounts(s);
    InfoCareerStart(s);
    if Judge(EnrichedFor(reduced, player)) == UnparsableCareerStart {
      assert s != [];
      PlayerTransfersOwn(Flatten(reduced), player.playerId);
      var k :| 0 <= k < |Flatten(reduced)| && Flatten(reduced)[k] == s[0];
      ReducedTransferOrigin(clubs, transfers, k);
      assert false;
    }
  }

  /**
   * With transfers flagged by stage 02, every player of the enriched file has its
   * counters nested and both rates between 0 and 100.
   */
  lemma EnrichedRatesAfterFlags(clubs: seq<ParentedClub>, transfers: seq<FlaggedTransfer>, player: Player)
    requires forall k :: 0 <= k < |transfers| ==> WellFlagged(transfers[k])
    ensures var e := EnrichedFor(ReducedTransfers(clubs, transfers), player);
      e.topRankedTransfers <= e.topLeagueTransfers <= e.totalTransfers
      && 0.0 <= e.topLeagueTransferRate.Percent() <= 100.0
      && 0.0 <= e.topRankedTransferRate.Percent() <= 100.0
  {
    var reduced := ReducedTransfers(clubs, transfers);
    forall k | 0 <= k < |Flatten(reduced)|
      ensures WellFlagged(Flatten(reduced)[k])
    {
      ReducedTransferOrigin(clubs, transfers, k);
      var t :| t in transfers && SameDateAndFlags(Flatten(reduced)[k], t);
    }
    EnrichedRates(reduced, player);
  }

  /** Whatever the input, every record of public/top_players.json is also in public/players.json. */
  lemma PublishedTopPlayersArePublic(clubs: seq<ParentedClub>, transfers: seq<FlaggedTransfer>, players: seq<Player>, d: PublicPlayer)
    requires d in PublicTopPlayers(SelectTop(CleanedPlayers(clubs, transfers, players)))
    ensures d in PublicPlayers(CleanedPlayers(clubs, transfers, players))
  {
    var cleaned := CleanedPlayers(clubs, transfers, players);
    forall i | 0 <= i < |cleaned| ensures RatesConsistent(cleaned[i]) {
    }
    TopPlayersArePublic(cleaned, d);
  }

  /** Players with distinct ids give a players.json of distinct ids, as loading saved guesses back expects. */
  lemma {:induction false} PublicIdsUnique(players: seq<EnrichedPlayer>)
    requires forall i, j :: 0 <= i < j < |players| ==> players[i].player.playerId != players[j].player.playerId
    ensures UniqueIds(PublicPlayers(players))
  {
    if players != [] {
      var init, last := players[..|players| - 1], players[|players| - 1];
      PublicIdsUnique(init);
      var r := PublicPlayers(init);
      if IsPublicPlayer(last) {
        var all := r + [MakePlayerDict(last)];
        forall i, j | 0 <= i < j < |all|
          ensures all[i].id != all[j].id
        {
          if j == |r| {
            PublicPlayersMembers(init, r[i]);
            var p :| p in init && IsPublicPlayer(p) && r[i] == MakePlayerDict(p);
            var k :| 0 <= k < |init| && init[k] == p;
            assert players[k] == p;
          }
        }
      }
    }
  }
}
