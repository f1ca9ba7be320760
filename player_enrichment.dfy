/**
 * Stage 04, enrich_players_with_transfers_info: the reduced chains are folded into
 * per-player counters (keyed by each transfer's own player id), then every player
 * of players.json receives the counters, the two rates, the highest transfer value,
 * the earliest transfer date and the list of clubs along the chain.
 */
module PlayerEnrichment {
  import opened Wrappers
  import opened Values
  import opened Records
  import opened TransferFlags
  import opened TransferChains

  /** The default entry of transfers_info and what it accumulates. */
  datatype TransfersInfo = TransfersInfo(
    topLeagueTransfers: nat,
    topRankedTransfers: nat,
    totalTransfers: nat,
    maxValueAtTransfer: int,
    careerStartDate: Option<Date>,
    transferList: seq<FlaggedTransfer>)

  const EmptyInfo: TransfersInfo := TransfersInfo(0, 0, 0, 0, None, [])

  /** The body of the inner loop for one transfer. */
  function AddTransfer(info: TransfersInfo, t: FlaggedTransfer): TransfersInfo
  {
    var date := t.TransferDate();
    TransfersInfo(
      info.topLeagueTransfers + (if t.isTopLeagueTransfer then 1 else 0),
      info.topRankedTransfers + (if t.isTopRankedTransfer then 1 else 0),
      info.totalTransfers + (if t.isExistingClubs then 1 else 0),
      if t.transfer.valueAtTransfer > info.maxValueAtTransfer then t.transfer.valueAtTransfer else info.maxValueAtTransfer,
      if date.Some? && (info.careerStartDate.None? || DateLt(date.value, info.careerStartDate.value))
      then date else info.careerStartDate,
      info.transferList + [t])
  }

  /** The entry of a player once all of its transfers `s` have been read. */
  function InfoOf(s: seq<FlaggedTransfer>): TransfersInfo
  {
    if s == [] then EmptyInfo else AddTransfer(InfoOf(s[..|s| - 1]), s[|s| - 1])
  }

  /** All transfers of reduced_transfers.json, entry after entry. */
  function Flatten(reduced: seq<PlayerChain>): seq<FlaggedTransfer>
  {
    if reduced == [] then [] else Flatten(reduced[..|reduced| - 1]) + reduced[|reduced| - 1].transfers
  }

  /** Every transfer of the flattened file is a transfer of one of the entries. */
  lemma {:induction false} FlattenMember(reduced: seq<PlayerChain>, k: nat)
    requires k < |Flatten(reduced)|
    ensures exists i, j :: 0 <= i < |reduced| && 0 <= j < |reduced[i].transfers| && Flatten(reduced)[k] == reduced[i].transfers[j]
  {
    var n := |reduced| - 1;
    var init := Flatten(reduced[..n]);
    if k < |init| {
      FlattenMember(reduced[..n], k);
      var i, j :| 0 <= i < n && 0 <= j < |reduced[..n][i].transfers| && init[k] == reduced[..n][i].transfers[j];
      assert Flatten(reduced)[k] == reduced[i].transfers[j];
    } else {
      assert Flatten(reduced)[k] == reduced[n].transfers[k - |init|];
    }
  }

  /** `transfers_info[player_id]`, the default entry when the player has none. */
  function InfoFor(infos: map<PlayerId, TransfersInfo>, p: PlayerId): TransfersInfo
  {
    if p in infos then infos[p] else EmptyInfo
  }

  /** club_ids: every origin along the list, then the last destination; empty without transfers. */
  function ClubIds(list: seq<FlaggedTransfer>): seq<Option<ClubId>>
  {
    if list == [] then []
    else seq(|list|, k requires 0 <= k < |list| => list[k].From()) + [list[|list| - 1].To()]
  }

  /** The record written for `player` given its entry. */
  function EnrichPlayer(player: Player, info: TransfersInfo): EnrichedPlayer
  {
    EnrichedPlayer(
      player,
      info.topLeagueTransfers,
      info.topRankedTransfers,
      info.totalTransfers,
      RateOf(info.topLeagueTransfers, info.totalTransfers),
      RateOf(info.topRankedTransfers, info.totalTransfers),
      info.maxValueAtTransfer,
      info.careerStartDate,
      ClubIds(info.transferList))
  }

  /** The enriched record of `player`, as the whole script computes it. */
  function EnrichedFor(reduced: seq<PlayerChain>, player: Player): EnrichedPlayer
  {
    EnrichPlayer(player, InfoOf(PlayerTransfers(Flatten(reduced), player.playerId)))
  }

  lemma PlayerTransfersAppend(a: seq<FlaggedTransfer>, b: seq<FlaggedTransfer>, p: PlayerId)
    ensures PlayerTransfers(a + b, p) == PlayerTransfers(a, p) + PlayerTransfers(b, p)
    decreases |b|
  {
    if b == [] {
      assert a + b == a;
    } else {
      var n := |b| - 1;
      PlayerTransfersAppend(a, b[..n], p);
      assert (a + b)[..|a + b| - 1] == a + b[..n];
    }
  }

  /** Reading one more transfer updates only the entry of that transfer's player. */
  lemma InfoStep(before: seq<FlaggedTransfer>, t: FlaggedTransfer, q: PlayerId)
    ensures InfoOf(PlayerTransfers(before + [t], q))
      == if q == t.transfer.playerId then AddTransfer(InfoOf(PlayerTransfers(before, q)), t)
         else InfoOf(PlayerTransfers(before, q))
  {
    assert (before + [t])[..|before|] == before;
    var pt := PlayerTransfers(before, q);
    if q == t.transfer.playerId {
      assert PlayerTransfers(before + [t], q) == pt + [t];
      assert (pt + [t])[..|pt|] == pt;
    } else {
      assert PlayerTransfers(before + [t], q) == pt;
    }
  }

  /** `infos` holds the entries of every player after reading the transfers `s`. */
  ghost predicate InfosAfter(infos: map<PlayerId, TransfersInfo>, s: seq<FlaggedTransfer>)
  {
    forall p :: InfoFor(infos, p) == InfoOf(PlayerTransfers(s, p))
  }

  lemma InfosStep(infos: map<PlayerId, TransfersInfo>, s: seq<FlaggedTransfer>, t: FlaggedTransfer)
    requires InfosAfter(infos, s)
    ensures InfosAfter(infos[t.transfer.playerId := AddTransfer(InfoFor(infos, t.transfer.playerId), t)], s + [t])
  {
    forall q
      ensures InfoFor(infos[t.transfer.playerId := AddTransfer(InfoFor(infos, t.transfer.playerId), t)], q)
        == InfoOf(PlayerTransfers(s + [t], q))
    {
      InfoStep(s, t, q);
    }
  }

  /** The inner loop of the script: one entry's transfers read into `infos`. */
  method AddChainTransfers(infos0: map<PlayerId, TransfersInfo>, ghost read: seq<FlaggedTransfer>, transfers: seq<FlaggedTransfer>)
    returns (infos: map<PlayerId, TransfersInfo>)
    requires InfosAfter(infos0, read)
    ensures InfosAfter(infos, read + transfers)
  {
    infos := infos0;
    assert read + transfers[..0] == read;
    for k := 0 to |transfers|
      invariant InfosAfter(infos, read + transfers[..k])
    {
      var t := transfers[k];
      var p := t.transfer.playerId;
      var info := InfoFor(infos, p);
      var date := t.TransferDate();
      var startDate := info.careerStartDate;
      if date.Some? && (startDate.None? || DateLt(date.value, startDate.value)) {
        startDate := date;
      }
      var next := TransfersInfo(
        info.topLeagueTransfers + (if t.isTopLeagueTransfer then 1 else 0),
        info.topRankedTransfers + (if t.isTopRankedTransfer then 1 else 0),
        info.totalTransfers + (if t.isExistingClubs then 1 else 0),
        if t.transfer.valueAtTransfer > info.maxValueAtTransfer then t.transfer.valueAtTransfer else info.maxValueAtTransfer,
        startDate,
        info.transferList + [t]);
      assert next == AddTransfer(info, t);
      InfosStep(infos, read + transfers[..k], t);
      assert read + transfers[..k + 1] == (read + transfers[..k]) + [t];
      infos := infos[p := next];
    }
    assert transfers[..|transfers|] == transfers;
  }

  /** The first loop of the script: transfers_info over all entries of reduced_transfers.json. */
  method ComputeTransfersInfo(reduced: seq<PlayerChain>) returns (infos: map<PlayerId, TransfersInfo>)
    ensures InfosAfter(infos, Flatten(reduced))
  {
    infos := map[];
    for i := 0 to |reduced|
      invariant InfosAfter(infos, Flatten(reduced[..i]))
    {
      assert reduced[..i + 1][..i] == reduced[..i];
      assert Flatten(reduced[..i + 1]) == Flatten(reduced[..i]) + reduced[i].transfers;
      infos := AddChainTransfers(infos, Flatten(reduced[..i]), reduced[i].transfers);
    }
    assert reduced[..|reduced|] == reduced;
  }

  method EnrichPlayersWithTransfersInfo(reduced: seq<PlayerChain>, players: seq<Player>)
    returns (enriched: seq<EnrichedPlayer>)
    ensures |enriched| == |players|
    ensures forall i :: 0 <= i < |players| ==> enriched[i] == EnrichedFor(reduced, players[i])
  {
    var infos := ComputeTransfersInfo(reduced);
    assert forall p :: InfoFor(infos, p) == InfoOf(PlayerTransfers(Flatten(reduced), p));
    enriched := [];
    for i := 0 to |players|
      invariant |enriched| == i
      invariant forall k :: 0 <= k < i ==> enriched[k] == EnrichedFor(reduced, players[k])
    {
      var player := players[i];
      var info := InfoFor(infos, player.playerId);
      var total := info.totalTransfers;
      var leagueRate := if total > 0 then Rate(info.topLeagueTransfers, total) else Rate(0, 0);
      var rankedRate := if total > 0 then Rate(info.topRankedTransfers, total) else Rate(0, 0);
      var clubIds: seq<Option<ClubId>>;
      if info.transferList != [] {
        clubIds := seq(|info.transferList|, k requires 0 <= k < |info.transferList| => info.transferList[k].From());
        clubIds := clubIds + [info.transferList[|info.transferList| - 1].To()];
      } else {
        clubIds := [];
      }
      enriched := enriched + [EnrichedPlayer(player, info.topLeagueTransfers, info.topRankedTransfers, total,
        leagueRate, rankedRate, info.maxValueAtTransfer, info.careerStartDate, clubIds)];
    }
  }

  /** The entry keeps every transfer read. */
  lemma {:induction false} InfoKeepsList(s: seq<FlaggedTransfer>)
    ensures InfoOf(s).transferList == s
  {
    if s != [] {
      var init, t := s[..|s| - 1], s[|s| - 1];
      InfoKeepsList(init);
      var info := InfoOf(init);
      assert InfoOf(s) == AddTransfer(info, t);
      assert AddTransfer(info, t).transferList == info.transferList + [t];
      assert init + [t] == s;
    }
  }

  /** The counters never exceed the number of transfers and, for well-flagged transfers, are nested. */
  lemma {:induction false} InfoCounts(s: seq<FlaggedTransfer>)
    ensures InfoOf(s).totalTransfers <= |s|
    ensures (forall k :: 0 <= k < |s| ==> WellFlagged(s[k]))
      ==> InfoOf(s).topRankedTransfers <= InfoOf(s).topLeagueTransfers <= InfoOf(s).totalTransfers
  {
    if s != [] {
      var init, t := s[..|s| - 1], s[|s| - 1];
      InfoCounts(init);
      if forall k :: 0 <= k < |s| ==> WellFlagged(s[k]) {
        assert WellFlagged(t);
        assert forall k :: 0 <= k < |init| ==> init[k] == s[k];
      }
    }
  }

  /** The three flags a counter of transfers_info counts. */
  datatype Flag = TopLeague | TopRanked | ExistingClubs

  predicate HasFlag(t: FlaggedTransfer, f: Flag)
  {
    match f
    case TopLeague => t.isTopLeagueTransfer
    case TopRanked => t.isTopRankedTransfer
    case ExistingClubs => t.isExistingClubs
  }

  /** The positions of `s` whose transfer carries flag `f`. */
  ghost function FlaggedAt(s: seq<FlaggedTransfer>, f: Flag): set<int>
  {
    set k | 0 <= k < |s| && HasFlag(s[k], f)
  }

  lemma FlaggedAtStep(s: seq<FlaggedTransfer>, f: Flag)
    requires s != []
    ensures |FlaggedAt(s, f)| == |FlaggedAt(s[..|s| - 1], f)| + (if HasFlag(s[|s| - 1], f) then 1 else 0)
  {
    var n := |s| - 1;
    var before := FlaggedAt(s[..n], f);
    assert FlaggedAt(s, f) == before + (if HasFlag(s[n], f) then {n} else {});
    assert n !in before;
  }

  /**
   * Each counter is the number of transfers read that carry its flag:
   * top_league_transfers counts is_top_league_transfer, top_ranked_transfers
   * is_top_ranked_transfer and total_transfers is_existing_clubs.
   */
  lemma {:induction false} InfoCountsExact(s: seq<FlaggedTransfer>)
    ensures InfoOf(s).topLeagueTransfers == |FlaggedAt(s, TopLeague)|
    ensures InfoOf(s).topRankedTransfers == |FlaggedAt(s, TopRanked)|
    ensures InfoOf(s).totalTransfers == |FlaggedAt(s, ExistingClubs)|
  {
    if s != [] {
      InfoCountsExact(s[..|s| - 1]);
      FlaggedAtStep(s, TopLeague);
      FlaggedAtStep(s, TopRanked);
      FlaggedAtStep(s, ExistingClubs);
    }
  }

  /** max_value_at_transfer is the largest value, or 0 when every value is below 0. */
  lemma {:induction false} InfoMaxValue(s: seq<FlaggedTransfer>)
    ensures InfoOf(s).maxValueAtTransfer >= 0
    ensures forall k :: 0 <= k < |s| ==> s[k].transfer.valueAtTransfer <= InfoOf(s).maxValueAtTransfer
    ensures InfoOf(s).maxValueAtTransfer == 0
      || exists k :: 0 <= k < |s| && s[k].transfer.valueAtTransfer == InfoOf(s).maxValueAtTransfer
  {
    if s != [] {
      var init := s[..|s| - 1];
      InfoMaxValue(init);
      if InfoOf(s).maxValueAtTransfer != 0 && InfoOf(s).maxValueAtTransfer == InfoOf(init).maxValueAtTransfer {
        var k :| 0 <= k < |init| && init[k].transfer.valueAtTransfer == InfoOf(init).maxValueAtTransfer;
        assert s[k] == init[k];
      }
    }
  }

  /** career_start_date is the earliest transfer date, and empty exactly when no transfer is dated. */
  lemma {:induction false} InfoCareerStart(s: seq<FlaggedTransfer>)
    ensures InfoOf(s).careerStartDate.None? <==> forall k :: 0 <= k < |s| ==> s[k].TransferDate().None?
    ensures InfoOf(s).careerStartDate.Some? ==>
      (exists k :: 0 <= k < |s| && s[k].TransferDate() == InfoOf(s).careerStartDate)
      && forall k :: 0 <= k < |s| && s[k].TransferDate().Some? ==>
        DateLe(InfoOf(s).careerStartDate.value, s[k].TransferDate().value)
  {
    if s != [] {
      var n := |s| - 1;
      var init := s[..n];
      InfoCareerStart(init);
      assert forall k :: 0 <= k < n ==> s[k] == init[k];
      var start := InfoOf(s).careerStartDate;
      if start.Some? {
        if start != InfoOf(init).careerStartDate {
          assert s[n].TransferDate() == start;
        } else {
          var k :| 0 <= k < |init| && init[k].TransferDate() == start;
          assert s[k].TransferDate() == start;
        }
        forall k | 0 <= k < |s| && s[k].TransferDate().Some?
          ensures DateLe(start.value, s[k].TransferDate().value)
        {
          DateLeTotal(start.value, s[k].TransferDate().value);
          if k < n && InfoOf(init).careerStartDate.Some? && start != InfoOf(init).careerStartDate {
            DateLeTrans(start.value, InfoOf(init).careerStartDate.value, s[k].TransferDate().value);
          }
        }
      }
    }
  }

  /** A player without transfers gets zero counters, "0.00" rates, value 0, no date and no clubs. */
  lemma NoTransfersDefaults(reduced: seq<PlayerChain>, player: Player)
    requires PlayerTransfers(Flatten(reduced), player.playerId) == []
    ensures EnrichedFor(reduced, player) == EnrichedPlayer(player, 0, 0, 0, Rate(0, 0), Rate(0, 0), 0, None, [])
  {
  }

  /** The two rates agree with the counters and lie between 0 and 100 for well-flagged transfers. */
  lemma EnrichedRates(reduced: seq<PlayerChain>, player: Player)
    requires forall k :: 0 <= k < |Flatten(reduced)| ==> WellFlagged(Flatten(reduced)[k])
    ensures RatesConsistent(EnrichedFor(reduced, player))
    ensures var e := EnrichedFor(reduced, player);
      e.topRankedTransfers <= e.topLeagueTransfers <= e.totalTransfers
      && 0.0 <= e.topLeagueTransferRate.Percent() <= 100.0
      && 0.0 <= e.topRankedTransferRate.Percent() <= 100.0
  {
    var s := PlayerTransfers(Flatten(reduced), player.playerId);
    PlayerTransfersOwn(Flatten(reduced), player.playerId);
    forall k | 0 <= k < |s| ensures WellFlagged(s[k]) {
      var j :| 0 <= j < |Flatten(reduced)| && Flatten(reduced)[j] == s[k];
    }
    InfoCounts(s);
    var info := InfoOf(s);
    RateOfBounds(info.topLeagueTransfers, info.totalTransfers);
    RateOfBounds(info.topRankedTransfers, info.totalTransfers);
  }

  /** club_ids lists one club more than there are transfers, each origin then the last destination. */
  lemma ClubIdsShape(list: seq<FlaggedTransfer>)
    ensures list == [] ==> ClubIds(list) == []
    ensures list != [] ==> (|ClubIds(list)| == |list| + 1
      && (forall k :: 0 <= k < |list| ==> ClubIds(list)[k] == list[k].From())
      && ClubIds(list)[|list|] == list[|list| - 1].To())
  {
  }

  /** For chains of transfers between known clubs every listed club is a known club. */
  lemma ClubIdsKnown(all: set<ClubId>, list: seq<FlaggedTransfer>)
    requires forall k :: 0 <= k < |list| ==> InClubs(list[k].From(), all) && InClubs(list[k].To(), all)
    ensures forall k :: 0 <= k < |ClubIds(list)| ==> InClubs(ClubIds(list)[k], all)
  {
    ClubIdsShape(list);
  }

  /**
   * Keying by each transfer's own player id agrees with the keys of reduced_transfers.json
   * when every entry holds only its player's transfers and keys are distinct.
   */
  lemma FlattenByPlayer(reduced: seq<PlayerChain>, p: PlayerId)
    requires forall i, k :: 0 <= i < |reduced| && 0 <= k < |reduced[i].transfers| ==>
      reduced[i].transfers[k].transfer.playerId == reduced[i].playerId
    requires DistinctKeys(reduced)
    ensures forall i :: 0 <= i < |reduced| && reduced[i].playerId == p ==> PlayerTransfers(Flatten(reduced), p) == reduced[i].transfers
    ensures (forall i :: 0 <= i < |reduced| ==> reduced[i].playerId != p) ==> PlayerTransfers(Flatten(reduced), p) == []
  {
    forall i | 0 <= i < |reduced| && reduced[i].playerId == p
      ensures PlayerTransfers(Flatten(reduced), p) == reduced[i].transfers
    {
      FlattenOwnEntry(reduced, i);
    }
    if forall i :: 0 <= i < |reduced| ==> reduced[i].playerId != p {
      FlattenAbsent(reduced, p);
    }
  }

  /** Every entry holds only transfers of its own player. */
  predicate EntriesOwnTransfers(reduced: seq<PlayerChain>)
  {
    forall i, k :: 0 <= i < |reduced| && 0 <= k < |reduced[i].transfers| ==>
      reduced[i].transfers[k].transfer.playerId == reduced[i].playerId
  }

  /** The entries but the last, and the transfers read once the last is added. */
  lemma FlattenStep(reduced: seq<PlayerChain>, p: PlayerId)
    requires reduced != [] && EntriesOwnTransfers(reduced)
    ensures EntriesOwnTransfers(reduced[..|reduced| - 1])
    ensures PlayerTransfers(Flatten(reduced), p) == PlayerTransfers(Flatten(reduced[..|reduced| - 1]), p)
      + (if reduced[|reduced| - 1].playerId == p then reduced[|reduced| - 1].transfers else [])
  {
    var n := |reduced| - 1;
    var init, last := reduced[..n], reduced[n];
    forall i, k | 0 <= i < n && 0 <= k < |init[i].transfers|
      ensures init[i].transfers[k].transfer.playerId == init[i].playerId
    {
      assert init[i] == reduced[i];
    }
    assert Flatten(reduced) == Flatten(init) + last.transfers;
    PlayerTransfersAppend(Flatten(init), last.transfers, p);
    OwnOrNone(last.transfers, last.playerId, p);
  }

  /** A player with no entry has no transfers in the flattened file. */
  lemma {:induction false} FlattenAbsent(reduced: seq<PlayerChain>, p: PlayerId)
    requires EntriesOwnTransfers(reduced)
    requires forall i :: 0 <= i < |reduced| ==> reduced[i].playerId != p
    ensures PlayerTransfers(Flatten(reduced), p) == []
  {
    if reduced != [] {
      FlattenStep(reduced, p);
      FlattenAbsent(reduced[..|reduced| - 1], p);
    }
  }

  /** With distinct keys, the transfers of an entry's player read across the file are that entry's. */
  lemma {:induction false} FlattenOwnEntry(reduced: seq<PlayerChain>, i: nat)
    requires EntriesOwnTransfers(reduced) && DistinctKeys(reduced) && i < |reduced|
    ensures PlayerTransfers(Flatten(reduced), reduced[i].playerId) == reduced[i].transfers
  {
    var n := |reduced| - 1;
    var init, p := reduced[..n], reduced[i].playerId;
    FlattenStep(reduced, p);
    if i == n {
      FlattenAbsent(init, p);
    } else {
      assert init[i] == reduced[i];
      assert DistinctKeys(init);
      FlattenOwnEntry(init, i);
    }
  }

  /** Filtering a list of `owner`'s transfers by player keeps all of it or none of it. */
  lemma {:induction false} OwnOrNone(s: seq<FlaggedTransfer>, owner: PlayerId, p: PlayerId)
    requires forall k :: 0 <= k < |s| ==> s[k].transfer.playerId == owner
    ensures PlayerTransfers(s, p) == if owner == p then s else []
  {
    if s != [] {
      OwnOrNone(s[..|s| - 1], owner, p);
      assert s == s[..|s| - 1] + [s[|s| - 1]];
    }
  }
}
