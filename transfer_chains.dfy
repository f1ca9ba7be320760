/**
 * Stage 03, reduce_transfers: the flagged transfers are grouped by player in file
 * order; a player with any undated transfer is skipped; the others are sorted by
 * date, their club ids replaced by parent ids, and the chain reduced to transfers
 * that end at a known club, a transfer from an unknown club being re-attached to
 * the last known club the player was seen at.
 */
module TransferChains {
  import opened Wrappers
  import opened Values
  import opened Records
  import opened TransferFlags
  import opened DateSort

  /** club_parent_map: each club id to its parent id, a later record of the same id winning. */
  function ParentMap(clubs: seq<ParentedClub>): map<ClubId, ClubId>
  {
    if clubs == [] then map[]
    else
      var last := clubs[|clubs| - 1];
      ParentMap(clubs[..|clubs| - 1])[last.Id() := last.parentClubId]
  }

  /** The map has an entry for every club and the entry is the parent of the last record of that id. */
  lemma ParentMapEntries(clubs: seq<ParentedClub>)
    ensures ParentMap(clubs).Keys == AllClubs(clubs)
    ensures forall id :: id in ParentMap(clubs) ==>
      exists i :: (0 <= i < |clubs| && clubs[i].Id() == id && ParentMap(clubs)[id] == clubs[i].parentClubId
        && forall k :: i < k < |clubs| ==> clubs[k].Id() != id)
  {
    ParentMapKeys(clubs);
    forall id | id in ParentMap(clubs)
      ensures exists i :: (0 <= i < |clubs| && clubs[i].Id() == id && ParentMap(clubs)[id] == clubs[i].parentClubId
        && forall k :: i < k < |clubs| ==> clubs[k].Id() != id)
    {
      var i := ParentMapEntry(clubs, id);
    }
  }

  lemma {:induction false} ParentMapKeys(clubs: seq<ParentedClub>)
    ensures ParentMap(clubs).Keys == AllClubs(clubs)
  {
    if clubs != [] {
      var n := |clubs| - 1;
      ParentMapKeys(clubs[..n]);
      assert clubs == clubs[..n] + [clubs[n]];
    }
  }

  /** The last record of `id`, the one whose parent the map holds. */
  lemma {:induction false} ParentMapEntry(clubs: seq<ParentedClub>, id: ClubId) returns (i: nat)
    requires id in ParentMap(clubs)
    ensures i < |clubs| && clubs[i].Id() == id && ParentMap(clubs)[id] == clubs[i].parentClubId
    ensures forall k :: i < k < |clubs| ==> clubs[k].Id() != id
  {
    var n := |clubs| - 1;
    var init := clubs[..n];
    if id == clubs[n].Id() {
      i := n;
    } else {
      i := ParentMapEntry(init, id);
      assert clubs[i] == init[i];
      forall k | i < k < |clubs| ensures clubs[k].Id() != id {
        if k < n { assert clubs[k] == init[k]; }
      }
    }
  }

  /** `club_parent_map.get(team_id)`: None for a missing id and for an id without an entry. */
  function Lookup(parentMap: map<ClubId, ClubId>, team: Option<ClubId>): Option<ClubId>
  {
    if team.Some? && team.value in parentMap then Some(parentMap[team.value]) else None
  }

  /** A transfer with both of its team ids replaced by their parent ids. */
  function Remap(parentMap: map<ClubId, ClubId>, t: FlaggedTransfer): FlaggedTransfer
  {
    t.(transfer := t.transfer.(fromTeamId := Lookup(parentMap, t.From()), toTeamId := Lookup(parentMap, t.To())))
  }

  function RemapAll(parentMap: map<ClubId, ClubId>, s: seq<FlaggedTransfer>): seq<FlaggedTransfer>
  {
    seq(|s|, i requires 0 <= i < |s| => Remap(parentMap, s[i]))
  }

  /** Remapping touches nothing but the two team ids. */
  lemma RemapKeepsRest(parentMap: map<ClubId, ClubId>, t: FlaggedTransfer)
    ensures var r := Remap(parentMap, t);
      r.transfer.playerId == t.transfer.playerId && r.TransferDate() == t.TransferDate()
      && r.transfer.valueAtTransfer == t.transfer.valueAtTransfer
      && r.isExistingClubs == t.isExistingClubs && r.isTopLeagueTransfer == t.isTopLeagueTransfer
      && r.isTopRankedTransfer == t.isTopRankedTransfer
      && (r.To().Some? <==> t.To().Some? && t.To().value in parentMap)
      && (r.To().Some? ==> r.To().value == parentMap[t.To().value])
      && (r.From().Some? <==> t.From().Some? && t.From().value in parentMap)
      && (r.From().Some? ==> r.From().value == parentMap[t.From().value])
  {
  }

  /** The replacement loop: every transfer of the sorted chain gets parent ids. */
  method RemapChain(parentMap: map<ClubId, ClubId>, sorted: seq<FlaggedTransfer>) returns (chain: seq<FlaggedTransfer>)
    ensures chain == RemapAll(parentMap, sorted)
  {
    chain := sorted;
    for i := 0 to |chain|
      invariant |chain| == |sorted|
      invariant forall k :: 0 <= k < i ==> chain[k] == Remap(parentMap, sorted[k])
      invariant forall k :: i <= k < |chain| ==> chain[k] == sorted[k]
    {
      chain := chain[i := Remap(parentMap, chain[i])];
    }
  }

  /** Python truthiness of `last_valid_team_id`: None and "" are false. */
  predicate Truthy(team: Option<ClubId>)
  {
    team.Some? && team.value != ""
  }

  /** The state of the reduction loop: the transfers kept so far and last_valid_team_id. */
  datatype Progress = Progress(valid: seq<FlaggedTransfer>, lastValidTeamId: Option<ClubId>)

  /** One iteration of the reduction loop. */
  function Step(all: set<ClubId>, p: Progress, t: FlaggedTransfer): Progress
  {
    var valid :=
      if t.From() == t.To() then p.valid
      else if InClubs(t.From(), all) && InClubs(t.To(), all) then p.valid + [t]
      else if Truthy(p.lastValidTeamId) && InClubs(t.To(), all) then p.valid + [t.WithFrom(p.lastValidTeamId)]
      else p.valid;
    var last :=
      if InClubs(t.To(), all) then t.To()
      else if InClubs(t.From(), all) then t.From()
      else p.lastValidTeamId;
    Progress(valid, last)
  }

  /**
   * One step appends at most one transfer: the transfer itself, or, when only its
   * origin is unknown, the transfer re-attached to the last_valid_team_id held
   * before the step. The anchor becomes the destination when that is known, else
   * the origin when that is known, and is otherwise kept.
   */
  lemma StepRules(all: set<ClubId>, p: Progress, t: FlaggedTransfer)
    ensures Step(all, p, t).valid == p.valid || Step(all, p, t).valid == p.valid + [t]
      || (Truthy(p.lastValidTeamId) && !InClubs(t.From(), all) && InClubs(t.To(), all)
          && Step(all, p, t).valid == p.valid + [t.WithFrom(p.lastValidTeamId)])
    ensures InClubs(t.To(), all) ==> Step(all, p, t).lastValidTeamId == t.To()
    ensures !InClubs(t.To(), all) && InClubs(t.From(), all) ==> Step(all, p, t).lastValidTeamId == t.From()
    ensures !InClubs(t.To(), all) && !InClubs(t.From(), all) ==> Step(all, p, t).lastValidTeamId == p.lastValidTeamId
  {
  }

  /** The loop run over a whole chain, from an empty list and last_valid_team_id = None. */
  function Reduce(all: set<ClubId>, chain: seq<FlaggedTransfer>): Progress
  {
    if chain == [] then Progress([], None)
    else Step(all, Reduce(all, chain[..|chain| - 1]), chain[|chain| - 1])
  }

  method ReduceChain(all: set<ClubId>, chain: seq<FlaggedTransfer>) returns (valid: seq<FlaggedTransfer>)
    ensures valid == Reduce(all, chain).valid
  {
    valid := [];
    var lastValidTeamId: Option<ClubId> := None;
    for i := 0 to |chain|
      invariant Progress(valid, lastValidTeamId) == Reduce(all, chain[..i])
    {
      var t := chain[i];
      assert chain[..i + 1][..i] == chain[..i];
      if t.From() != t.To() {
        if InClubs(t.From(), all) && InClubs(t.To(), all) {
          valid := valid + [t];
        } else if Truthy(lastValidTeamId) && InClubs(t.To(), all) {
          valid := valid + [t.WithFrom(lastValidTeamId)];
        }
      }
      if InClubs(t.To(), all) {
        lastValidTeamId := t.To();
      } else if InClubs(t.From(), all) {
        lastValidTeamId := t.From();
      }
    }
    assert chain[..|chain|] == chain;
  }

  /** `v` is `t`, except possibly for its origin. */
  predicate SameButOrigin(v: FlaggedTransfer, t: FlaggedTransfer)
  {
    v.WithFrom(t.From()) == t
  }

  /** What the reduced chain consists of. */
  predicate ReducedFrom(all: set<ClubId>, chain: seq<FlaggedTransfer>, valid: seq<FlaggedTransfer>)
  {
    forall i :: 0 <= i < |valid| ==>
      InClubs(valid[i].From(), all) && InClubs(valid[i].To(), all)
      && exists j :: 0 <= j < |chain| && chain[j].From() != chain[j].To() && SameButOrigin(valid[i], chain[j])
  }

  /**
   * Every kept transfer runs between two known clubs and is a transfer of the chain,
   * unchanged or re-attached to another origin; no more transfers are kept than read;
   * last_valid_team_id is always a known club.
   */
  lemma {:induction false} ReduceKeepsKnownTransfers(all: set<ClubId>, chain: seq<FlaggedTransfer>)
    ensures ReducedFrom(all, chain, Reduce(all, chain).valid)
    ensures |Reduce(all, chain).valid| <= |chain|
    ensures Reduce(all, chain).lastValidTeamId.Some? ==> Reduce(all, chain).lastValidTeamId.value in all
  {
    if chain != [] {
      var n := |chain| - 1;
      var init := chain[..n];
      ReduceKeepsKnownTransfers(all, init);
      var valid := Reduce(all, chain).valid;
      forall i | 0 <= i < |valid|
        ensures InClubs(valid[i].From(), all) && InClubs(valid[i].To(), all)
        ensures exists j :: 0 <= j < |chain| && chain[j].From() != chain[j].To() && SameButOrigin(valid[i], chain[j])
      {
        if i < |Reduce(all, init).valid| {
          var j :| 0 <= j < |init| && init[j].From() != init[j].To() && SameButOrigin(Reduce(all, init).valid[i], init[j]);
          assert chain[j] == init[j];
        } else {
          assert SameButOrigin(valid[i], chain[n]);
        }
      }
    }
  }

  /** The transfer of the chain a kept transfer comes from. */
  lemma ReducedOrigin(all: set<ClubId>, chain: seq<FlaggedTransfer>, k: nat) returns (j: nat)
    requires k < |Reduce(all, chain).valid|
    ensures j < |chain| && chain[j].From() != chain[j].To() && SameButOrigin(Reduce(all, chain).valid[k], chain[j])
  {
    ReduceKeepsKnownTransfers(all, chain);
    var v := Reduce(all, chain).valid;
    assert exists j :: 0 <= j < |chain| && chain[j].From() != chain[j].To() && SameButOrigin(v[k], chain[j]);
    j :| 0 <= j < |chain| && chain[j].From() != chain[j].To() && SameButOrigin(v[k], chain[j]);
  }

  /**
   * `v` is picked from `s` in order: its k-th transfer is the transfer at position
   * js[k] of `s`, except possibly for its origin, and the positions increase.
   */
  predicate InOrderFrom(v: seq<FlaggedTransfer>, s: seq<FlaggedTransfer>, js: seq<nat>)
  {
    && |js| == |v|
    && (forall k :: 0 <= k < |js| ==> js[k] < |s| && SameButOrigin(v[k], s[js[k]]))
    && (forall a, b :: 0 <= a < b < |js| ==> js[a] < js[b])
  }

  /** Picking one more transfer, from a later position. */
  lemma InOrderSnoc(v: seq<FlaggedTransfer>, s: seq<FlaggedTransfer>, js: seq<nat>, x: FlaggedTransfer, j: nat)
    requires InOrderFrom(v, s, js)
    requires j < |s| && SameButOrigin(x, s[j])
    requires forall k :: 0 <= k < |js| ==> js[k] < j
    ensures InOrderFrom(v + [x], s, js + [j])
  {
  }

  /** A prefix of an in-order pick is an in-order pick. */
  lemma InOrderPrefix(v: seq<FlaggedTransfer>, s: seq<FlaggedTransfer>, js: seq<nat>, n: nat)
    requires InOrderFrom(v, s, js) && n <= |v|
    ensures InOrderFrom(v[..n], s, js[..n])
  {
  }

  /** The kept transfers come from distinct transfers of the chain, in the chain's order. */
  lemma {:induction false} ReduceInOrder(all: set<ClubId>, chain: seq<FlaggedTransfer>) returns (js: seq<nat>)
    ensures InOrderFrom(Reduce(all, chain).valid, chain, js)
    ensures forall k :: 0 <= k < |js| ==> chain[js[k]].From() != chain[js[k]].To()
  {
    if chain == [] {
      js := [];
    } else {
      var n := |chain| - 1;
      var init := chain[..n];
      var prev := ReduceInOrder(all, init);
      var t := chain[n];
      StepRules(all, Reduce(all, init), t);
      var before := Reduce(all, init).valid;
      var after := Reduce(all, chain).valid;
      forall k | 0 <= k < |prev|
        ensures prev[k] < n && chain[prev[k]] == init[prev[k]]
      {
      }
      if after == before {
        js := prev;
      } else {
        assert after == before + [after[|before|]];
        assert SameButOrigin(after[|before|], t) && t.From() != t.To();
        js := prev + [n];
      }
    }
  }

  /** The reduced chain of a date-sorted chain is still in date order. */
  lemma {:induction false} ReduceSorted(all: set<ClubId>, chain: seq<FlaggedTransfer>)
    requires SortedByDate(chain)
    ensures SortedByDate(Reduce(all, chain).valid)
  {
    if chain != [] {
      var n := |chain| - 1;
      var init := chain[..n];
      assert SortedByDate(init);
      ReduceSorted(all, init);
      var prev := Reduce(all, init).valid;
      var t := chain[n];
      forall k | 0 <= k < |prev|
        ensures KeyLe(prev[k].TransferDate(), t.TransferDate())
      {
        var j := ReducedOrigin(all, init, k);
        assert prev[k].TransferDate() == chain[j].TransferDate();
      }
      if Reduce(all, chain).valid != prev {
        SortedAppend(prev, Reduce(all, chain).valid[|prev|]);
      }
    }
  }

  /** A chain already made of transfers between two different known clubs is kept as it is. */
  lemma {:induction false} ReduceKeepsCleanChain(all: set<ClubId>, chain: seq<FlaggedTransfer>)
    requires forall k :: 0 <= k < |chain| ==>
      chain[k].From() != chain[k].To() && InClubs(chain[k].From(), all) && InClubs(chain[k].To(), all)
    ensures Reduce(all, chain).valid == chain
  {
    if chain != [] {
      ReduceKeepsCleanChain(all, chain[..|chain| - 1]);
      assert chain == chain[..|chain| - 1] + [chain[|chain| - 1]];
    }
  }

  /** last_valid_team_id stays None exactly as long as no transfer touches a known club. */
  lemma {:induction false} NoKnownClubNoneKept(all: set<ClubId>, chain: seq<FlaggedTransfer>)
    ensures Reduce(all, chain).lastValidTeamId.None?
      <==> forall k :: 0 <= k < |chain| ==> !InClubs(chain[k].From(), all) && !InClubs(chain[k].To(), all)
    ensures Reduce(all, chain).lastValidTeamId.None? ==> Reduce(all, chain).valid == []
  {
    if chain != [] {
      var n := |chain| - 1;
      NoKnownClubNoneKept(all, chain[..n]);
      assert forall k :: 0 <= k < n ==> chain[k] == chain[..n][k];
    }
  }

  /**
   * The re-attachment can produce a transfer from a club to itself: a move 1 -> 2
   * followed by a move from an unknown club to 2 keeps a transfer 2 -> 2.
   */
  lemma BridgedSelfLoop(flags: FlaggedTransfer)
    ensures var t1 := flags.(transfer := flags.transfer.(fromTeamId := Some("1"), toTeamId := Some("2")));
      var t2 := flags.(transfer := flags.transfer.(fromTeamId := Some("9"), toTeamId := Some("2")));
      var valid := Reduce({"1", "2"}, [t1, t2]).valid;
      |valid| == 2 && valid[1].From() == Some("2") && valid[1].To() == Some("2")
  {
    var all: set<ClubId> := {"1", "2"};
    var t1 := flags.(transfer := flags.transfer.(fromTeamId := Some("1"), toTeamId := Some("2")));
    var t2 := flags.(transfer := flags.transfer.(fromTeamId := Some("9"), toTeamId := Some("2")));
    assert [t1, t2][..1] == [t1];
    assert [t1][..0] == [];
    assert "1" != "2" && "9" !in all;
    assert Reduce(all, [t1]) == Progress([t1], Some("2"));
    assert Reduce(all, [t1, t2]) == Progress([t1, t2.WithFrom(Some("2"))], Some("2"));
  }

  /** A move 1 -> 2 followed by a move whose two ids now name the same club 2 keeps only the first. */
  lemma SelfTransferDropped(flags: FlaggedTransfer)
    ensures var t1 := flags.(transfer := flags.transfer.(fromTeamId := Some("1"), toTeamId := Some("2")));
      var t2 := flags.(transfer := flags.transfer.(fromTeamId := Some("2"), toTeamId := Some("2")));
      Reduce({"1", "2"}, [t1, t2]) == Progress([t1], Some("2"))
  {
    var all: set<ClubId> := {"1", "2"};
    var t1 := flags.(transfer := flags.transfer.(fromTeamId := Some("1"), toTeamId := Some("2")));
    var t2 := flags.(transfer := flags.transfer.(fromTeamId := Some("2"), toTeamId := Some("2")));
    assert [t1, t2][..1] == [t1];
    assert [t1][..0] == [];
    assert "1" != "2";
    assert Reduce(all, [t1]) == Progress([t1], Some("2"));
  }

  /** A transfer without a date: `not t['transfer_date']`. */
  predicate AllDated(s: seq<FlaggedTransfer>)
  {
    forall k :: 0 <= k < |s| ==> s[k].TransferDate().Some?
  }

  /** The transfers of player `p`, in file order. */
  function PlayerTransfers(transfers: seq<FlaggedTransfer>, p: PlayerId): seq<FlaggedTransfer>
  {
    if transfers == [] then []
    else
      var last := transfers[|transfers| - 1];
      PlayerTransfers(transfers[..|transfers| - 1], p) + (if last.transfer.playerId == p then [last] else [])
  }

  /** The keys of transfers_by_player in insertion order: players by first appearance. */
  function PlayerOrder(transfers: seq<FlaggedTransfer>): seq<PlayerId>
  {
    if transfers == [] then []
    else
      var order := PlayerOrder(transfers[..|transfers| - 1]);
      var p := transfers[|transfers| - 1].transfer.playerId;
      if p in order then order else order + [p]
  }

  predicate DistinctIds(ids: seq<PlayerId>)
  {
    forall i, j :: 0 <= i < j < |ids| ==> ids[i] != ids[j]
  }

  /** No two chains have the same player: the keys of a JSON object. */
  predicate DistinctKeys(chains: seq<PlayerChain>)
  {
    forall i, j :: 0 <= i < j < |chains| ==> chains[i].playerId != chains[j].playerId
  }

  /** Every player appears once in the order, and exactly the players that have a transfer. */
  lemma {:induction false} PlayerOrderMembers(transfers: seq<FlaggedTransfer>)
    ensures DistinctIds(PlayerOrder(transfers))
    ensures forall p :: p in PlayerOrder(transfers) <==> PlayerTransfers(transfers, p) != []
  {
    if transfers != [] {
      PlayerOrderMembers(transfers[..|transfers| - 1]);
    }
  }

  /** The reduced chain of one player that passed the date gate. */
  function ChainOf(all: set<ClubId>, parentMap: map<ClubId, ClubId>, p: PlayerId, group: seq<FlaggedTransfer>): PlayerChain
  {
    PlayerChain(p, Reduce(all, RemapAll(parentMap, SortByDate(group))).valid)
  }

  /** cleaned_transfers after the loop has visited the players `ids`. */
  function CleanedChains(all: set<ClubId>, parentMap: map<ClubId, ClubId>, ids: seq<PlayerId>, transfers: seq<FlaggedTransfer>): seq<PlayerChain>
  {
    if ids == [] then []
    else
      var p := ids[|ids| - 1];
      var group := PlayerTransfers(transfers, p);
      CleanedChains(all, parentMap, ids[..|ids| - 1], transfers)
        + (if AllDated(group) then [ChainOf(all, parentMap, p, group)] else [])
  }

  /** The content of reduced_transfers.json. */
  function ReducedTransfers(clubs: seq<ParentedClub>, transfers: seq<FlaggedTransfer>): seq<PlayerChain>
  {
    CleanedChains(AllClubs(clubs), ParentMap(clubs), PlayerOrder(transfers), transfers)
  }

  /** Every element of PlayerTransfers(transfers, p) is a transfer of `p` from the file. */
  lemma {:induction false} PlayerTransfersOwn(transfers: seq<FlaggedTransfer>, p: PlayerId)
    ensures forall k :: 0 <= k < |PlayerTransfers(transfers, p)| ==>
      PlayerTransfers(transfers, p)[k].transfer.playerId == p && PlayerTransfers(transfers, p)[k] in transfers
  {
    if transfers != [] {
      var init := transfers[..|transfers| - 1];
      PlayerTransfersOwn(init, p);
      assert forall t :: t in init ==> t in transfers;
    }
  }

  /** A kept transfer's destination is the parent of the destination of a transfer of the group. */
  predicate KeptFrom(all: set<ClubId>, parentMap: map<ClubId, ClubId>, p: PlayerId, group: seq<FlaggedTransfer>, v: FlaggedTransfer)
  {
    && v.transfer.playerId == p
    && InClubs(v.From(), all) && InClubs(v.To(), all)
    && exists j :: (0 <= j < |group| && group[j].To().Some? && group[j].To().value in parentMap
      && v.To() == Some(parentMap[group[j].To().value]) && SameDateAndFlags(v, group[j]))
  }

  /** Picking in order survives keeping only the transfers of one date on both sides. */
  lemma {:induction false} WithDateInOrder(v: seq<FlaggedTransfer>, s: seq<FlaggedTransfer>, js: seq<nat>, d: Option<Date>)
    returns (ds: seq<nat>)
    requires InOrderFrom(v, s, js)
    ensures InOrderFrom(WithDate(v, d), WithDate(s, d), ds)
    ensures v != [] ==> forall k :: 0 <= k < |ds| ==> ds[k] < |WithDate(s[..js[|v| - 1] + 1], d)|
    ensures v == [] ==> ds == []
  {
    if v == [] {
      ds := [];
    } else {
      var n := |v| - 1;
      var j := js[n];
      InOrderPrefix(v, s, js, n);
      var prev := WithDateInOrder(v[..n], s, js[..n], d);
      var pos := |WithDate(s[..j], d)|;
      if n > 0 {
        assert js[..n][n - 1] == js[n - 1];
        WithDatePrefixMono(s, js[n - 1] + 1, j, d);
      }
      assert forall k :: 0 <= k < |prev| ==> prev[k] < pos;
      assert s[..j + 1] == s[..j] + [s[j]];
      WithDateAppend(s[..j], s[j], d);
      var bound := |WithDate(s[..j + 1], d)|;
      if v[n].TransferDate() == d {
        assert v[n].TransferDate() == s[j].TransferDate();
        WithDateAt(s, j, d);
        InOrderSnoc(WithDate(v[..n], d), WithDate(s, d), prev, v[n], pos);
        assert WithDate(v, d) == WithDate(v[..n], d) + [v[n]];
        ds := prev + [pos];
        assert bound == pos + 1;
      } else {
        assert WithDate(v, d) == WithDate(v[..n], d);
        ds := prev;
        assert bound >= pos;
      }
      assert forall k :: 0 <= k < |ds| ==> ds[k] < bound;
    }
  }

  /** Remapping keeps dates, so it commutes with keeping the transfers of one date. */
  lemma {:induction false} RemapWithDate(parentMap: map<ClubId, ClubId>, s: seq<FlaggedTransfer>, d: Option<Date>)
    ensures WithDate(RemapAll(parentMap, s), d) == RemapAll(parentMap, WithDate(s, d))
  {
    if s != [] {
      var n := |s| - 1;
      RemapWithDate(parentMap, s[..n], d);
      assert RemapAll(parentMap, s)[..n] == RemapAll(parentMap, s[..n]);
      RemapKeepsRest(parentMap, s[n]);
      var w := WithDate(s[..n], d);
      assert RemapAll(parentMap, w + [s[n]]) == RemapAll(parentMap, w) + [Remap(parentMap, s[n])];
    }
  }

  /**
   * Within each date, a player's chain keeps the input order: its transfers of date
   * `d` are picked in order from the player's transfers of date `d`, remapped.
   */
  lemma ChainOfInOrder(all: set<ClubId>, parentMap: map<ClubId, ClubId>, p: PlayerId, group: seq<FlaggedTransfer>, d: Option<Date>)
    returns (js: seq<nat>)
    ensures InOrderFrom(WithDate(ChainOf(all, parentMap, p, group).transfers, d), RemapAll(parentMap, WithDate(group, d)), js)
  {
    var sorted := SortByDate(group);
    var chain := RemapAll(parentMap, sorted);
    var picked := ReduceInOrder(all, chain);
    js := WithDateInOrder(Reduce(all, chain).valid, chain, picked, d);
    RemapWithDate(parentMap, sorted, d);
    SortByDateStable(group, d);
  }

  /** Date, value and the three flags are those of `t`. */
  predicate SameDateAndFlags(v: FlaggedTransfer, t: FlaggedTransfer)
  {
    v.TransferDate() == t.TransferDate() && v.transfer.valueAtTransfer == t.transfer.valueAtTransfer
    && v.isExistingClubs == t.isExistingClubs && v.isTopLeagueTransfer == t.isTopLeagueTransfer
    && v.isTopRankedTransfer == t.isTopRankedTransfer
  }

  /**
   * The chain of one player is in date order and made of transfers of that player
   * between known clubs, each ending at the parent of the club one of the player's
   * transfers ends at, with that transfer's date, value and flags.
   */
  lemma ChainOfProps(all: set<ClubId>, parentMap: map<ClubId, ClubId>, p: PlayerId, group: seq<FlaggedTransfer>)
    requires forall k :: 0 <= k < |group| ==> group[k].transfer.playerId == p
    ensures SortedByDate(ChainOf(all, parentMap, p, group).transfers)
    ensures forall k :: 0 <= k < |ChainOf(all, parentMap, p, group).transfers| ==>
      KeptFrom(all, parentMap, p, group, ChainOf(all, parentMap, p, group).transfers[k])
  {
    var sorted := SortByDate(group);
    SortByDateSorted(group);
    var chain := RemapAll(parentMap, sorted);
    assert SortedByDate(chain) by {
      forall i, j | 0 <= i < j < |chain|
        ensures KeyLe(chain[i].TransferDate(), chain[j].TransferDate())
      {
        assert chain[i].TransferDate() == sorted[i].TransferDate();
      }
    }
    ReduceSorted(all, chain);
    ReduceKeepsKnownTransfers(all, chain);
    var valid := Reduce(all, chain).valid;
    forall k | 0 <= k < |valid|
      ensures KeptFrom(all, parentMap, p, group, valid[k])
    {
      var j :| 0 <= j < |chain| && chain[j].From() != chain[j].To() && SameButOrigin(valid[k], chain[j]);
      assert sorted[j] in multiset(group);
      var g :| 0 <= g < |group| && group[g] == sorted[j];
      RemapKeepsRest(parentMap, sorted[j]);
    }
  }

  /**
   * What cleaned_transfers holds after visiting `ids`: one chain per visited player
   * whose transfers are all dated, in visiting order, and no other.
   */
  lemma CleanedChainsMembers(all: set<ClubId>, parentMap: map<ClubId, ClubId>, ids: seq<PlayerId>, transfers: seq<FlaggedTransfer>)
    ensures var cleaned := CleanedChains(all, parentMap, ids, transfers);
      forall i :: 0 <= i < |cleaned| ==> (cleaned[i].playerId in ids
        && AllDated(PlayerTransfers(transfers, cleaned[i].playerId))
        && cleaned[i] == ChainOf(all, parentMap, cleaned[i].playerId, PlayerTransfers(transfers, cleaned[i].playerId)))
    ensures forall p :: p in ids && AllDated(PlayerTransfers(transfers, p)) ==> HasEntry(CleanedChains(all, parentMap, ids, transfers), p)
    ensures DistinctIds(ids) ==> DistinctKeys(CleanedChains(all, parentMap, ids, transfers))
  {
    CleanedChainsOwn(all, parentMap, ids, transfers);
    CleanedChainsCover(all, parentMap, ids, transfers);
    if DistinctIds(ids) {
      CleanedChainsDistinct(all, parentMap, ids, transfers);
    }
  }

  /** Some chain of `chains` belongs to `p`. */
  predicate HasEntry(chains: seq<PlayerChain>, p: PlayerId)
  {
    exists i :: 0 <= i < |chains| && chains[i].playerId == p
  }

  /** Every listed player whose transfers are all dated has an entry. */
  lemma {:induction false} CleanedChainsCover(all: set<ClubId>, parentMap: map<ClubId, ClubId>, ids: seq<PlayerId>, transfers: seq<FlaggedTransfer>)
    ensures forall p :: p in ids && AllDated(PlayerTransfers(transfers, p)) ==> HasEntry(CleanedChains(all, parentMap, ids, transfers), p)
  {
    forall p | p in ids && AllDated(PlayerTransfers(transfers, p))
      ensures HasEntry(CleanedChains(all, parentMap, ids, transfers), p)
    {
      var i := CleanedChainIndex(all, parentMap, ids, transfers, p);
    }
  }

  /** `c` is the chain of one of `ids`, built from all of that player's transfers, which are all dated. */
  predicate ChainFor(all: set<ClubId>, parentMap: map<ClubId, ClubId>, ids: seq<PlayerId>, transfers: seq<FlaggedTransfer>, c: PlayerChain)
  {
    c.playerId in ids && AllDated(PlayerTransfers(transfers, c.playerId))
    && c == ChainOf(all, parentMap, c.playerId, PlayerTransfers(transfers, c.playerId))
  }

  lemma {:induction false} CleanedChainOwn(all: set<ClubId>, parentMap: map<ClubId, ClubId>, ids: seq<PlayerId>, transfers: seq<FlaggedTransfer>, i: nat)
    requires i < |CleanedChains(all, parentMap, ids, transfers)|
    ensures ChainFor(all, parentMap, ids, transfers, CleanedChains(all, parentMap, ids, transfers)[i])
  {
    var init := ids[..|ids| - 1];
    var q := ids[|ids| - 1];
    var prev := CleanedChains(all, parentMap, init, transfers);
    assert ids == init + [q];
    if i < |prev| {
      CleanedChainOwn(all, parentMap, init, transfers, i);
    }
  }

  lemma CleanedChainsOwn(all: set<ClubId>, parentMap: map<ClubId, ClubId>, ids: seq<PlayerId>, transfers: seq<FlaggedTransfer>)
    ensures var cleaned := CleanedChains(all, parentMap, ids, transfers);
      forall i :: 0 <= i < |cleaned| ==> ChainFor(all, parentMap, ids, transfers, cleaned[i])
  {
    var cleaned := CleanedChains(all, parentMap, ids, transfers);
    forall i | 0 <= i < |cleaned|
      ensures ChainFor(all, parentMap, ids, transfers, cleaned[i])
    {
      CleanedChainOwn(all, parentMap, ids, transfers, i);
    }
  }

  /** Where the chain of a player of `ids` whose transfers are all dated sits. */
  lemma {:induction false} CleanedChainIndex(all: set<ClubId>, parentMap: map<ClubId, ClubId>, ids: seq<PlayerId>, transfers: seq<FlaggedTransfer>, p: PlayerId)
    returns (i: nat)
    requires p in ids && AllDated(PlayerTransfers(transfers, p))
    ensures i < |CleanedChains(all, parentMap, ids, transfers)| && CleanedChains(all, parentMap, ids, transfers)[i].playerId == p
  {
    var init := ids[..|ids| - 1];
    var q := ids[|ids| - 1];
    var prev := CleanedChains(all, parentMap, init, transfers);
    assert ids == init + [q];
    if p != q {
      assert p in init;
      i := CleanedChainIndex(all, parentMap, init, transfers, p);
    } else {
      i := |prev|;
    }
  }

  lemma {:induction false} CleanedChainsDistinct(all: set<ClubId>, parentMap: map<ClubId, ClubId>, ids: seq<PlayerId>, transfers: seq<FlaggedTransfer>)
    requires DistinctIds(ids)
    ensures DistinctKeys(CleanedChains(all, parentMap, ids, transfers))
  {
    if ids != [] {
      var init := ids[..|ids| - 1];
      var q := ids[|ids| - 1];
      assert ids == init + [q];
      assert DistinctIds(init) by {
        forall i, j | 0 <= i < j < |init|
          ensures init[i] != init[j]
        {
          assert init[i] == ids[i] && init[j] == ids[j];
        }
      }
      assert q !in init;
      CleanedChainsDistinct(all, parentMap, init, transfers);
      var prev := CleanedChains(all, parentMap, init, transfers);
      var cleaned := CleanedChains(all, parentMap, ids, transfers);
      forall i, j | 0 <= i < j < |cleaned|
        ensures cleaned[i].playerId != cleaned[j].playerId
      {
        assert cleaned[i] == prev[i];
        if j == |prev| {
          CleanedChainOwn(all, parentMap, init, transfers, i);
          assert cleaned[j].playerId == q;
        } else {
          assert cleaned[j] == prev[j];
        }
      }
    }
  }

  /**
   * reduced_transfers.json has one entry per player that has transfers, all of them
   * dated, and no other; each player once; each entry is that player's reduced chain.
   */
  lemma ReducedTransfersMembers(clubs: seq<ParentedClub>, transfers: seq<FlaggedTransfer>, p: PlayerId)
    ensures (exists i :: 0 <= i < |ReducedTransfers(clubs, transfers)| && ReducedTransfers(clubs, transfers)[i].playerId == p)
      <==> PlayerTransfers(transfers, p) != [] && AllDated(PlayerTransfers(transfers, p))
    ensures forall i :: 0 <= i < |ReducedTransfers(clubs, transfers)| && ReducedTransfers(clubs, transfers)[i].playerId == p ==>
      (SortedByDate(ReducedTransfers(clubs, transfers)[i].transfers)
        && forall k :: 0 <= k < |ReducedTransfers(clubs, transfers)[i].transfers| ==>
          KeptFrom(AllClubs(clubs), ParentMap(clubs), p, PlayerTransfers(transfers, p), ReducedTransfers(clubs, transfers)[i].transfers[k]))
  {
    var all, parentMap, order := AllClubs(clubs), ParentMap(clubs), PlayerOrder(transfers);
    var reduced := ReducedTransfers(clubs, transfers);
    assert reduced == CleanedChains(all, parentMap, order, transfers);
    PlayerOrderMembers(transfers);
    if PlayerTransfers(transfers, p) != [] && AllDated(PlayerTransfers(transfers, p)) {
      var i := CleanedChainIndex(all, parentMap, order, transfers, p);
    }
    PlayerTransfersOwn(transfers, p);
    ChainOfProps(all, parentMap, p, PlayerTransfers(transfers, p));
    forall i | 0 <= i < |reduced| && reduced[i].playerId == p
      ensures PlayerTransfers(transfers, p) != [] && AllDated(PlayerTransfers(transfers, p))
      ensures reduced[i] == ChainOf(all, parentMap, p, PlayerTransfers(transfers, p))
    {
      CleanedChainOwn(all, parentMap, order, transfers, i);
    }
  }

  /** Every entry of reduced_transfers.json keeps the input order among transfers of one date. */
  lemma ReducedTransfersInOrder(clubs: seq<ParentedClub>, transfers: seq<FlaggedTransfer>, i: nat, d: Option<Date>)
    returns (js: seq<nat>)
    requires i < |ReducedTransfers(clubs, transfers)|
    ensures InOrderFrom(WithDate(ReducedTransfers(clubs, transfers)[i].transfers, d),
      RemapAll(ParentMap(clubs), WithDate(PlayerTransfers(transfers, ReducedTransfers(clubs, transfers)[i].playerId), d)), js)
  {
    var all, parentMap, order := AllClubs(clubs), ParentMap(clubs), PlayerOrder(transfers);
    CleanedChainOwn(all, parentMap, order, transfers, i);
    var c := ReducedTransfers(clubs, transfers)[i];
    js := ChainOfInOrder(all, parentMap, c.playerId, PlayerTransfers(transfers, c.playerId), d);
  }

  /** No player has two entries in reduced_transfers.json. */
  lemma ReducedTransfersDistinct(clubs: seq<ParentedClub>, transfers: seq<FlaggedTransfer>)
    ensures DistinctKeys(ReducedTransfers(clubs, transfers))
  {
    PlayerOrderMembers(transfers);
    CleanedChainsMembers(AllClubs(clubs), ParentMap(clubs), PlayerOrder(transfers), transfers);
  }

  /** Every entry holds only transfers of its own player. */
  lemma ReducedTransfersOwn(clubs: seq<ParentedClub>, transfers: seq<FlaggedTransfer>)
    ensures var reduced := ReducedTransfers(clubs, transfers);
      forall i, k :: 0 <= i < |reduced| && 0 <= k < |reduced[i].transfers| ==>
        reduced[i].transfers[k].transfer.playerId == reduced[i].playerId
  {
    var reduced := ReducedTransfers(clubs, transfers);
    forall i, k | 0 <= i < |reduced| && 0 <= k < |reduced[i].transfers|
      ensures reduced[i].transfers[k].transfer.playerId == reduced[i].playerId
    {
      ReducedTransfersMembers(clubs, transfers, reduced[i].playerId);
    }
  }

  /** The grouping loop: each player's transfers in reading order, and the players in first-appearance order. */
  method GroupTransfers(transfers: seq<FlaggedTransfer>) returns (groups: map<PlayerId, seq<FlaggedTransfer>>, order: seq<PlayerId>)
    ensures order == PlayerOrder(transfers)
    ensures forall p :: p in groups <==> p in order
    ensures forall p :: p in groups ==> groups[p] == PlayerTransfers(transfers, p)
  {
    groups := map[];
    order := [];
    for i := 0 to |transfers|
      invariant order == PlayerOrder(transfers[..i])
      invariant forall p :: p in groups <==> p in order
      invariant forall p :: PlayerTransfers(transfers[..i], p) == (if p in groups then groups[p] else [])
    {
      var t := transfers[i];
      assert transfers[..i + 1][..i] == transfers[..i];
      var p := t.transfer.playerId;
      if p !in groups {
        order := order + [p];
        groups := groups[p := [t]];
      } else {
        groups := groups[p := groups[p] + [t]];
      }
    }
    assert transfers[..|transfers|] == transfers;
  }

  method ReduceTransfers(clubs: seq<ParentedClub>, transfers: seq<FlaggedTransfer>) returns (cleaned: seq<PlayerChain>)
    ensures cleaned == ReducedTransfers(clubs, transfers)
  {
    var all := AllClubs(clubs);
    var parentMap := ParentMap(clubs);
    var groups, order := GroupTransfers(transfers);

    cleaned := [];
    for j := 0 to |order|
      invariant cleaned == CleanedChains(all, parentMap, order[..j], transfers)
    {
      var p := order[j];
      assert order[..j + 1][..j] == order[..j];
      var group := groups[p];
      if exists k :: 0 <= k < |group| && group[k].TransferDate().None? {
        continue;
      }
      var sorted := SortByDate(group);
      var chain := RemapChain(parentMap, sorted);
      var valid := ReduceChain(all, chain);
      cleaned := cleaned + [PlayerChain(p, valid)];
    }
    assert order[..|order|] == order;
  }
}
