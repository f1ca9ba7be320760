/**
 * Stage 05, filter_top_players: the players that pass six thresholds, in file order.
 * The thresholds are tested left to right and Python stops at the first that fails,
 * so the career start date is only parsed for players that passed the first three;
 * an empty date reaching the parser raises ValueError and ends the script.
 */
module TopPlayers {
  import opened Wrappers
  import opened Values
  import opened Records

  /** `datetime(1998, 1, 1)` */
  const CareerStartCutoff: Date := Date(1998, 1, 1)

  /** The outcome of the `if` for one player. */
  datatype Verdict = Selected | Rejected | UnparsableCareerStart

  function Judge(p: EnrichedPlayer): Verdict
  {
    if !(p.topLeagueTransferRate.Above(80) && p.maxValueAtTransfer >= 15000000 && p.totalTransfers >= 4) then Rejected
    else if p.careerStartDate.None? then UnparsableCareerStart
    else if !DateLe(CareerStartCutoff, p.careerStartDate.value) then Rejected
    else if p.topRankedTransfers >= 2 && p.topRankedTransferRate.AtLeast(25) then Selected
    else Rejected
  }

  /** A player is selected exactly when it passes all six thresholds. */
  lemma SelectedIff(p: EnrichedPlayer)
    ensures Judge(p) == Selected <==>
      (p.topLeagueTransferRate.Above(80) && p.maxValueAtTransfer >= 15000000 && p.totalTransfers >= 4
       && p.careerStartDate.Some? && DateLe(CareerStartCutoff, p.careerStartDate.value)
       && p.topRankedTransfers >= 2 && p.topRankedTransferRate.AtLeast(25))
  {
  }

  /** The content of top_players.json when no date error occurs: the selected players in order. */
  function SelectTop(players: seq<EnrichedPlayer>): seq<EnrichedPlayer>
  {
    if players == [] then []
    else
      var last := players[|players| - 1];
      SelectTop(players[..|players| - 1]) + (if Judge(last) == Selected then [last] else [])
  }

  /** The error that ends the script: the player whose empty career start date reached the parser. */
  datatype FilterError = UnparsableCareerStartOf(playerId: PlayerId)

  predicate FirstUnparsable(players: seq<EnrichedPlayer>, i: int)
  {
    0 <= i < |players| && Judge(players[i]) == UnparsableCareerStart
    && forall k :: 0 <= k < i ==> Judge(players[k]) != UnparsableCareerStart
  }

  method FilterTopPlayers(players: seq<EnrichedPlayer>) returns (r: Result<seq<EnrichedPlayer>, FilterError>)
    ensures r.Ok? <==> forall i :: 0 <= i < |players| ==> Judge(players[i]) != UnparsableCareerStart
    ensures r.Ok? ==> r.value == SelectTop(players)
    ensures r.Err? ==> exists i :: FirstUnparsable(players, i) && r.error == UnparsableCareerStartOf(players[i].player.playerId)
  {
    var top: seq<EnrichedPlayer> := [];
    for i := 0 to |players|
      invariant top == SelectTop(players[..i])
      invariant forall k :: 0 <= k < i ==> Judge(players[k]) != UnparsableCareerStart
    {
      var p := players[i];
      assert players[..i + 1][..i] == players[..i];
      if p.topLeagueTransferRate.Above(80) && p.maxValueAtTransfer >= 15000000 && p.totalTransfers >= 4 {
        if p.careerStartDate.None? {
          assert FirstUnparsable(players, i);
          return Err(UnparsableCareerStartOf(p.player.playerId));
        }
        if DateLe(CareerStartCutoff, p.careerStartDate.value)
          && p.topRankedTransfers >= 2 && p.topRankedTransferRate.AtLeast(25)
        {
          top := top + [p];
        }
      }
    }
    assert players[..|players|] == players;
    return Ok(top);
  }

  /** Selection keeps exactly the selected players. */
  lemma {:induction false} SelectTopMembers(players: seq<EnrichedPlayer>, p: EnrichedPlayer)
    ensures p in SelectTop(players) <==> p in players && Judge(p) == Selected
  {
    if players != [] {
      var init := players[..|players| - 1];
      SelectTopMembers(init, p);
      assert players == init + [players[|players| - 1]];
    }
  }

  /** Selection keeps file order: it distributes over concatenation. */
  lemma {:induction false} SelectTopAppend(a: seq<EnrichedPlayer>, b: seq<EnrichedPlayer>)
    ensures SelectTop(a + b) == SelectTop(a) + SelectTop(b)
  {
    if b == [] {
      assert a + b == a;
    } else {
      var n := |b| - 1;
      SelectTopAppend(a, b[..n]);
      assert (a + b)[..|a + b| - 1] == a + b[..n];
    }
  }

  /** Filtering top_players.json again changes nothing. */
  lemma {:induction false} SelectTopIdempotent(players: seq<EnrichedPlayer>)
    ensures SelectTop(SelectTop(players)) == SelectTop(players)
  {
    if players != [] {
      var init, last := players[..|players| - 1], players[|players| - 1];
      SelectTopIdempotent(init);
      SelectTopAppend(SelectTop(init), if Judge(last) == Selected then [last] else []);
      if Judge(last) == Selected {
        assert [last][..0] == [];
      }
    }
  }

  /** The league-rate test is strict: exactly 80% is not enough. */
  lemma ExactlyEightyRejected(p: EnrichedPlayer)
    requires p.topLeagueTransferRate == Rate(4, 5)
    ensures Judge(p) == Rejected
  {
  }

  /**
   * A player with 17 top-league and 6 top-ranked transfers out of 20 (85% and 30%),
   * a best value of 16 000 000 and a first transfer on 1999-01-01 is selected; the
   * same record with total_transfers 3 is rejected.
   */
  lemma SelectionExample(player: Player)
    ensures Judge(EnrichedPlayer(player, 17, 6, 20, Rate(17, 20), Rate(6, 20), 16000000, Some(Date(1999, 1, 1)), []))
      == Selected
    ensures Judge(EnrichedPlayer(player, 17, 6, 3, Rate(17, 20), Rate(6, 20), 16000000, Some(Date(1999, 1, 1)), []))
      == Rejected
  {
  }

  /** A player with fewer than four transfers is rejected before its date is parsed, whatever the date. */
  lemma FewTransfersRejected(p: EnrichedPlayer)
    requires p.totalTransfers < 4
    ensures Judge(p) == Rejected
  {
  }

  /** For consistently enriched players selection implies the counts behind the two rates. */
  lemma SelectedCounts(p: EnrichedPlayer)
    requires RatesConsistent(p) && Judge(p) == Selected
    ensures 5 * p.topLeagueTransfers > 4 * p.totalTransfers
    ensures 4 * p.topRankedTransfers >= p.totalTransfers
    ensures p.topLeagueTransfers >= 1
  {
  }
}
