# footble pipeline, footble game state and gym-class parser, modelled in Dafny

This project models three parts of the repository:

- **The footble offline pipeline**, stages 00 to 06 under `footble/scripting/`:
  - **00**: resolve every child club to the parent of its earliest mapping row.
  - **01**: count each club's top-league and top-ranked seasons since 1990, then attach its parent club.
  - **02**: flag every transfer by whether its destination is a known, top-league or top-ranked club.
  - **03**: reduce each player's transfers to a date-sorted chain between known parent clubs. Players with an undated transfer are dropped. Gaps are bridged with `last_valid_team_id`.
  - **04**: fold the chains into per-player counters, rates, best value, career start and club list.
  - **05**: clean the player names and select the top players with six thresholds.
  - **06**: project the public player records and keep the public players.
- **The guessing game state** of the front end, in two versions:
  - `footble/src/models/GameState.ts`, whose guesses are saved under the target player's key;
  - the older `footble/src/game-state.ts`, whose target is the player of the day and whose guesses are saved under the day number.
- **The class-list parser of the gym crawler**, `swedishfit/crawler/classes.ts`: the `parseTimeText` weekday arithmetic and the status cascade of `parsePage`.

Each script becomes one module; the two GameState files become two classes. Their shared guessing rules are pure functions in `Guesses`.

How the source's code shapes map to Dafny:

- **Loops that build a list, a counter dictionary or a grouping map** are methods with loop invariants. Each method is proved equal to a specification function defined on the input:
  - `BuildParentClubMap`, `EnrichClubsWithPerformance`, `EnrichTransfersWithClubPerformance`, `ReduceTransfers`, `ReduceChain`, `RemapChain`, `ComputeTransfersInfo`, `FilterTopPlayers`, `ParsePage`.
  - The properties are lemmas about those functions.
- **Scripts that raise** return a `Result`:
  - a `KeyError` for a club missing from the parent map in stage 01;
  - a `ValueError` for an empty career start date in stage 05.
- **The GameState classes** keep the fields the source updates in place. Their methods state the complete new state.

Representation choices:

- Dates are `(year, month, day)` triples, compared lexicographically as the ISO strings are. An empty date is `None`.
- Rates are exact fractions.
- Money is an integer.
- Storage is a map from keys to lists of guess ids.

### Behaviour worth noting

The model keeps these behaviours of the code:

- **Stage 01, unmapped clubs.** `enrich_clubs_with_parent_club` indexes the parent map directly. A club with no mapping row raises `KeyError`, and nothing is written (`ClubEnrichment.EnrichClubsWithParentClub`).
- **Stage 03, self-loops.** The bridging branch can produce a transfer from a club to itself. A move 1 → 2 followed by a move from an unknown club to 2 keeps a transfer 2 → 2 (`TransferChains.BridgedSelfLoop`).
- **Stage 03, undated transfers.** A player with an undated transfer gets no entry in `reduced_transfers.json`, not an empty chain.
- **Stage 03, flags after remapping.** The flags of stage 02 are computed on the raw destination. They are not recomputed after remapping (`TransferFlags.FlagsIgnoreOrigin`, `TransferChains.RemapKeepsRest`).

## Model

| member | source | states |
|---|---|---|
| ParentClubMap.BuildParentClubMap | footble/scripting/00_build_parent_club_map.py:108-119 | the map built by grouping rows per child and keeping each group's minimum has an entry for a child exactly when the resolved parent exists, and that entry is the resolved parent |
| ParentClubMap.ResolvedParent | footble/scripting/00_build_parent_club_map.py:112-116 | reference definition: the parent of the earliest-timestamped row naming the child, the first such row on ties, None when no row names it; its properties are the lemmas below |
| ParentClubMap.EarliestIndex | footble/scripting/00_build_parent_club_map.py:116 | `min(..., key=timestamp)` picks a candidate with the least timestamp, and the first such one in file order |
| ParentClubMap.EarliestStep | footble/scripting/00_build_parent_club_map.py:112-116 | reading one more row changes a child's winner only when the row names that child and is strictly earlier |
| ParentClubMap.ResolvedIffListed | footble/scripting/00_build_parent_club_map.py:109-116 | a child is in the output map iff some row names it |
| ParentClubMap.ResolvedParentIsEarliestRow | footble/scripting/00_build_parent_club_map.py:113-116 | the winner is the first row of the child with minimal timestamp: no row of the child is earlier, no earlier-placed row ties |
| ParentClubMap.ResolvedParentIsListed | footble/scripting/00_build_parent_club_map.py:113-116 | the resolved parent is one listed for that child in some row, never another child's parent; no chain-following |
| ParentClubMap.CandidatesAppend | footble/scripting/00_build_parent_club_map.py:112-113 | the per-child grouping distributes over concatenation of the CSV |
| ParentClubMap.OtherChildrenIrrelevant | footble/scripting/00_build_parent_club_map.py:113-116 | inserting a row for another child anywhere does not change a child's parent |
| ParentClubMap.EarlierRowWins | footble/scripting/00_build_parent_club_map.py:113-116 | rows (A→X, 2020) and (A→Y, 2019) resolve A to Y |
| ClubEnrichment.TopLeagues | footble/scripting/01_enrich_clubs.py:7-13 | the five top leagues and their cutoff ranks 3, 5, 3, 4, 3 |
| ClubEnrichment.IsTopLeagueSeason | footble/scripting/01_enrich_clubs.py:25-29 | reference definition: a season from 1990 on in one of the top leagues |
| ClubEnrichment.IsTopRankedSeason | footble/scripting/01_enrich_clubs.py:31-35 | reference definition: a top-league season finished within its league's cutoff rank |
| ClubEnrichment.TopLeagueCount | footble/scripting/01_enrich_clubs.py:23-29 | reference definition: the number of a club's top-league seasons; `CountsAppend` and `OldSeasonIgnored` state it |
| ClubEnrichment.TopRankedCount | footble/scripting/01_enrich_clubs.py:23-35 | reference definition: the number of a club's top-ranked seasons; `RankedWithinLeague` bounds it by the league count |
| ClubEnrichment.EnrichClubsWithPerformance | footble/scripting/01_enrich_clubs.py:16-55 | every club, in order, receives its count of top-league seasons since 1990, of those within the league's cutoff rank, and their rate |
| ClubEnrichment.PerformanceOf | footble/scripting/01_enrich_clubs.py:23-35 | reference definition: the counts of one club over the season list, skipping seasons before 1990 and counting ranked seasons within the league cutoff |
| ClubEnrichment.RankedWithinLeague | footble/scripting/01_enrich_clubs.py:28-35 | a club never has more top-ranked seasons than top-league seasons |
| ClubEnrichment.PerformanceRateBounds | footble/scripting/01_enrich_clubs.py:41-47 | the rate is "0.00" without top-league seasons and otherwise between 0 and 100 |
| ClubEnrichment.NoQualifyingSeason | footble/scripting/01_enrich_clubs.py:20-47 | a club none of whose seasons qualifies gets 0, 0 and "0.00" (the default entry) |
| ClubEnrichment.CountsAppend | footble/scripting/01_enrich_clubs.py:23-35 | both counters are sums over the season file: they distribute over concatenation |
| ClubEnrichment.OldSeasonIgnored | footble/scripting/01_enrich_clubs.py:24-26 | a season before 1990 changes no counter, whatever its league and rank |
| ClubEnrichment.EnrichClubsWithParentClub | footble/scripting/01_enrich_clubs.py:61-71 | succeeds iff every club id is in the parent map, then attaches `parent_map[id]` to every club in order; otherwise fails with the first missing club |
| Values.RateOf | footble/scripting/01_enrich_clubs.py:43-47 | a zero denominator gives "0.00"; the rate is above 0 iff both counts are positive; at least 25% iff 4·count ≥ total |
| Values.RateOfBounds | footble/scripting/04_enrich_players.py:64-73 | a count within its total gives a percentage between 0 and 100, never above 100 |
| TransferFlags.AllClubs | footble/scripting/02_enrich_transfers.py:9 | reference definition of `all_clubs`: the ids of the club records |
| TransferFlags.IsTopLeagueClub | footble/scripting/02_enrich_transfers.py:10 | reference definition: a club record with a positive top-league count |
| TransferFlags.IsTopRankedClub | footble/scripting/02_enrich_transfers.py:11 | reference definition: a club record with rate ≥ 10 and at least 10 top-league seasons |
| TransferFlags.TopLeagueClubs | footble/scripting/02_enrich_transfers.py:10 | reference definition of `top_league_clubs`; `ClubSetsNested` and `ClassifyMeaning` state it |
| TransferFlags.TopRankedClubs | footble/scripting/02_enrich_transfers.py:11 | reference definition of `top_ranked_clubs`; `ClubSetsNested` and `ClassifyMeaning` state it |
| TransferFlags.ClubSetsNested | footble/scripting/02_enrich_transfers.py:9-11 | top-ranked clubs ⊆ top-league clubs ⊆ known clubs |
| TransferFlags.Classify | footble/scripting/02_enrich_transfers.py:18-27 | reference definition: the transfer with the three flags of its destination; `TransferFlags.ClassifyMeaning` states them |
| TransferFlags.ClassifyMeaning | footble/scripting/02_enrich_transfers.py:9-21 | each flag holds iff some club record with the destination's id is known / has a top-league season / has rate ≥ 10 and ≥ 10 top-league seasons |
| TransferFlags.EnrichTransfersWithClubPerformance | footble/scripting/02_enrich_transfers.py:6-27 | one flagged transfer per transfer, in order, carrying the transfer unchanged and the three flags with the meaning above; every result is well flagged |
| TransferFlags.FlagsIgnoreOrigin | footble/scripting/02_enrich_transfers.py:19-21 | the flags depend only on the destination: changing the origin changes none of them |
| Values.DateLeTotal | footble/scripting/03_reduce_transfers.py:29 | the date order used as sort key is total and antisymmetric |
| DateSort.Insert | footble/scripting/03_reduce_transfers.py:29 | reference definition: the new transfer goes just after the last transfer not later than it; `InsertSorted` and `InsertStable` state it |
| DateSort.SortByDate | footble/scripting/03_reduce_transfers.py:29 | reference definition of `sorted(..., key=date)` as insertion sort; `SortByDateSorted` and `SortByDateStable` state it |
| DateSort.SortByDateSorted | footble/scripting/03_reduce_transfers.py:29 | `sorted(..., key=date)` returns its input in date order, as a permutation (multiset equality) |
| DateSort.InsertSorted | footble/scripting/03_reduce_transfers.py:29 | inserting one transfer into a date-sorted list keeps it sorted and adds exactly that transfer |
| DateSort.SortByDateStable | footble/scripting/03_reduce_transfers.py:29 | the sort is stable: the transfers of any one date keep their input order |
| DateSort.WithDatePrefixMono | footble/scripting/03_reduce_transfers.py:29 | a longer prefix never has fewer transfers of a date |
| DateSort.WithDateAt | footble/scripting/03_reduce_transfers.py:29 | a transfer of date d sits in the list of date-d transfers right after those before it |
| DateSort.InsertStable | footble/scripting/03_reduce_transfers.py:29 | an insertion appends the new transfer after the others of its date |
| DateSort.SortSortedUnchanged | footble/scripting/03_reduce_transfers.py:29 | sorting an already sorted chain changes nothing |
| TransferChains.ParentMap | footble/scripting/03_reduce_transfers.py:12 | reference definition: each club id maps to the parent of its last record; `ParentMapEntries` states it |
| TransferChains.ParentMapEntries | footble/scripting/03_reduce_transfers.py:11-12 | the parent map's keys are exactly the known clubs, and each maps to the parent of its last record |
| TransferChains.ParentMapEntry | footble/scripting/03_reduce_transfers.py:11-12 | a club id in the parent map maps to the parent of the last record of that id: no later record has the id |
| TransferChains.Remap | footble/scripting/03_reduce_transfers.py:32-34 | reference definition of one remapped transfer; `RemapKeepsRest` states it |
| TransferChains.RemapKeepsRest | footble/scripting/03_reduce_transfers.py:32-34 | remapping replaces each team id by its parent, None when unmapped, and leaves player, date, value and flags alone |
| TransferChains.RemapChain | footble/scripting/03_reduce_transfers.py:32-34 | the in-place loop leaves every transfer of the chain remapped |
| TransferChains.Step | footble/scripting/03_reduce_transfers.py:40-55 | reference definition of one iteration of the reduction loop on the kept list and `last_valid_team_id` |
| TransferChains.StepRules | footble/scripting/03_reduce_transfers.py:40-55 | one step keeps nothing, the transfer itself, or (only when its origin is unknown, its destination known and the anchor truthy) the transfer re-attached to the anchor; the anchor becomes the destination when known, else the origin when known, else stays |
| TransferChains.Reduce | footble/scripting/03_reduce_transfers.py:37-55 | reference definition: the loop run over a whole chain from an empty list and `None`; the lemmas below state its properties |
| TransferChains.ReduceChain | footble/scripting/03_reduce_transfers.py:36-55 | the reduction loop with `last_valid_team_id` computes the reduction of the chain |
| TransferChains.ReduceKeepsKnownTransfers | footble/scripting/03_reduce_transfers.py:39-55 | every kept transfer runs between two known clubs and is a non-self-loop input transfer with at most its origin replaced; no more transfers are kept than read; the anchor is always a known club |
| TransferChains.ReducedOrigin | footble/scripting/03_reduce_transfers.py:39-55 | each kept transfer comes from a transfer of the chain between two different clubs, with at most its origin replaced |
| TransferChains.ReduceInOrder | footble/scripting/03_reduce_transfers.py:37-55 | the kept transfers come, one each, from distinct non-self-loop transfers of the chain at increasing positions, equal to them except for the origin |
| TransferChains.ReduceSorted | footble/scripting/03_reduce_transfers.py:29-55 | the reduction of a date-sorted chain is date-sorted; `ReduceInOrder` adds that it keeps the chain's order |
| TransferChains.ReduceKeepsCleanChain | footble/scripting/03_reduce_transfers.py:41-44 | a chain of transfers between two different known clubs is kept unchanged |
| TransferChains.NoKnownClubNoneKept | footble/scripting/03_reduce_transfers.py:38-55 | the anchor stays None iff no transfer touches a known club, and then nothing is kept |
| TransferChains.BridgedSelfLoop | footble/scripting/03_reduce_transfers.py:46-50 | known clubs {1, 2}, moves 1→2 then 9→2: the second is kept as the self-loop 2→2 |
| TransferChains.SelfTransferDropped | footble/scripting/03_reduce_transfers.py:41 | moves 1→2 then 2→2: the self-transfer is dropped and the anchor is 2 |
| TransferChains.PlayerOrderMembers | footble/scripting/03_reduce_transfers.py:18-23 | the grouping visits each player once, exactly the players that have transfers |
| TransferChains.PlayerTransfersOwn | footble/scripting/03_reduce_transfers.py:18-20 | a player's group holds only that player's transfers, all from the input |
| TransferChains.PlayerTransfers | footble/scripting/03_reduce_transfers.py:18-20 | reference definition of `transfers_by_player[p]`: the player's transfers in file order; `PlayerTransfersOwn` states it |
| TransferChains.PlayerOrder | footble/scripting/03_reduce_transfers.py:18-23 | reference definition of the dictionary's key order: players by first appearance; `PlayerOrderMembers` states it |
| TransferChains.ChainOf | footble/scripting/03_reduce_transfers.py:29-55 | reference definition of one player's cleaned chain: sort, remap, reduce |
| TransferChains.CleanedChains | footble/scripting/03_reduce_transfers.py:22-57 | reference definition of `cleaned_transfers` after visiting some players; `CleanedChainsMembers` states it |
| TransferChains.ReducedTransfers | footble/scripting/03_reduce_transfers.py:8-57 | reference definition of reduced_transfers.json; `ReducedTransfersMembers`, `ReducedTransfersDistinct`, `ReducedTransfersOwn` and `ReducedTransfersInOrder` state it |
| TransferChains.ChainOfProps | footble/scripting/03_reduce_transfers.py:24-55 | a player's chain is date-sorted and each entry is a transfer of the player between known clubs, with the destination and the date, value and flags of one of its transfers |
| TransferChains.WithDateInOrder | footble/scripting/03_reduce_transfers.py:29-55 | an in-order pick stays an in-order pick when both sides keep only the transfers of one date |
| TransferChains.RemapWithDate | footble/scripting/03_reduce_transfers.py:32-34 | remapping keeps dates, so the transfers of one date of a remapped chain are the remapped transfers of that date |
| TransferChains.ChainOfInOrder | footble/scripting/03_reduce_transfers.py:29-55 | within each date, a player's chain is picked in order from the player's transfers of that date in file order, remapped, origins aside |
| TransferChains.CleanedChainsMembers | footble/scripting/03_reduce_transfers.py:22-57 | after visiting some players, there is one chain per visited player whose transfers are all dated, in visiting order, and no other |
| TransferChains.CleanedChainOwn | footble/scripting/03_reduce_transfers.py:22-57 | every chain written is the reduced chain of a visited player all of whose transfers are dated |
| TransferChains.CleanedChainIndex | footble/scripting/03_reduce_transfers.py:22-57 | every visited player whose transfers are all dated has a chain written |
| TransferChains.CleanedChainsCover | footble/scripting/03_reduce_transfers.py:22-57 | no visited player whose transfers are all dated is skipped: each has an entry |
| TransferChains.CleanedChainsDistinct | footble/scripting/03_reduce_transfers.py:22-57 | visiting distinct players writes one chain per player id |
| TransferChains.ReducedTransfersMembers | footble/scripting/03_reduce_transfers.py:8-57 | a player has an entry iff it has transfers and all are dated; the entry is sorted and made of kept transfers |
| TransferChains.ReducedTransfersInOrder | footble/scripting/03_reduce_transfers.py:18-57 | every entry keeps, within each date, the file order of its player's transfers |
| TransferChains.ReducedTransfersDistinct | footble/scripting/03_reduce_transfers.py:22-57 | no player has two entries |
| TransferChains.ReducedTransfersOwn | footble/scripting/03_reduce_transfers.py:18-57 | every transfer of an entry belongs to that entry's player |
| TransferChains.GroupTransfers | footble/scripting/03_reduce_transfers.py:18-20 | the grouping loop gives every player its transfers in reading order, and lists the players in first-appearance order |
| TransferChains.ReduceTransfers | footble/scripting/03_reduce_transfers.py:8-57 | the grouping loop and the per-player loop with its `continue` compute `reduced_transfers.json` as specified above |
| PlayerEnrichment.AddTransfer | footble/scripting/04_enrich_players.py:26-49 | reference definition of the inner loop body for one transfer |
| PlayerEnrichment.InfoOf | footble/scripting/04_enrich_players.py:13-49 | reference definition: a player's entry after all its transfers, from the default entry; `InfoCountsExact`, `InfoMaxValue`, `InfoCareerStart` and `InfoKeepsList` state it |
| PlayerEnrichment.ClubIds | footble/scripting/04_enrich_players.py:85-94 | reference definition of `club_ids`; `ClubIdsShape` states it |
| PlayerEnrichment.EnrichPlayer | footble/scripting/04_enrich_players.py:57-107 | reference definition of the record written for one player from its entry; `EnrichedRates` states the rates |
| PlayerEnrichment.AddChainTransfers | footble/scripting/04_enrich_players.py:25-49 | the inner loop extends the per-player entries from the transfers read so far to those read with one more chain |
| PlayerEnrichment.ComputeTransfersInfo | footble/scripting/04_enrich_players.py:13-49 | the nested loop leaves every player's entry equal to the fold of that player's transfers across all chains, the default entry for others |
| PlayerEnrichment.InfoStep | footble/scripting/04_enrich_players.py:25-49 | one more transfer updates only its own player's entry |
| PlayerEnrichment.InfosStep | footble/scripting/04_enrich_players.py:23-49 | the per-transfer update of the counter map preserves the loop invariant |
| PlayerEnrichment.EnrichPlayersWithTransfersInfo | footble/scripting/04_enrich_players.py:8-107 | every player, in order, gets the enrichment computed from its own transfers |
| PlayerEnrichment.FlattenMember | footble/scripting/04_enrich_players.py:23-25 | every transfer read is a transfer of some entry |
| PlayerEnrichment.PlayerTransfersAppend | footble/scripting/04_enrich_players.py:23-26 | a player's transfers distribute over concatenation of the file |
| PlayerEnrichment.InfoKeepsList | footble/scripting/04_enrich_players.py:26 | `transfer_list` is exactly the player's transfers in reading order |
| PlayerEnrichment.InfoCounts | footble/scripting/04_enrich_players.py:27-32 | `total_transfers` ≤ number of transfers; for well-flagged transfers ranked ≤ league ≤ total |
| PlayerEnrichment.InfoCountsExact | footble/scripting/04_enrich_players.py:27-32 | `top_league_transfers`, `top_ranked_transfers` and `total_transfers` equal the number of transfers whose league, ranked and existing-clubs flag is set |
| PlayerEnrichment.FlaggedAtStep | footble/scripting/04_enrich_players.py:27-32 | one more transfer adds one to the number of flagged positions exactly when its flag is set |
| PlayerEnrichment.InfoMaxValue | footble/scripting/04_enrich_players.py:33-36 | the best value is ≥ 0, ≥ every transfer's value, and is 0 or one of those values |
| PlayerEnrichment.InfoCareerStart | footble/scripting/04_enrich_players.py:37-49 | the career start is None iff no transfer is dated, otherwise the date of a transfer and no later than any dated transfer |
| PlayerEnrichment.NoTransfersDefaults | footble/scripting/04_enrich_players.py:57-94 | a player without transfers gets 0, 0, 0, "0.00", "0.00", 0, no career start date and `[]` |
| PlayerEnrichment.EnrichedRates | footble/scripting/04_enrich_players.py:64-73 | both rates are the rates of the counters, "0.00" when there is no transfer, between 0 and 100 |
| PlayerEnrichment.ClubIdsShape | footble/scripting/04_enrich_players.py:85-94 | club_ids is every origin in order followed by the last destination, one longer than the list; empty without transfers |
| PlayerEnrichment.ClubIdsKnown | footble/scripting/04_enrich_players.py:85-94 | for chains between known clubs every listed club is known |
| PlayerEnrichment.FlattenByPlayer | footble/scripting/04_enrich_players.py:23-26 | with one entry per player whose transfers are its own, a player's transfers read across the file are exactly its entry |
| PlayerEnrichment.FlattenOwnEntry | footble/scripting/04_enrich_players.py:23-26 | with distinct keys, an entry's player reads exactly that entry's transfers across the file |
| PlayerEnrichment.FlattenAbsent | footble/scripting/04_enrich_players.py:23-26 | a player without an entry reads no transfers across the file |
| PlayerEnrichment.OwnOrNone | footble/scripting/04_enrich_players.py:23-26 | a chain holding only one player's transfers contributes to that player only |
| PlayerNames.CleanPlayerName | footble/scripting/05_clean_players.py:6-7 | reference definition: the first "(" piece, stripped; the lemmas below state it |
| PlayerNames.CleanPlayerNameCut | footble/scripting/05_clean_players.py:6-7 | the name is cut just before its first "(" and stripped; a name without "(" is only stripped |
| PlayerNames.CleanPlayerNameShape | footble/scripting/05_clean_players.py:6-7 | the cleaned name holds no "(" and has no whitespace at either end |
| PlayerNames.CleanPlayerNameInfix | footble/scripting/05_clean_players.py:6-7 | the cleaned name is a contiguous piece of the original name |
| Strings.StripBounds | footble/scripting/05_clean_players.py:6-7 | `strip()` keeps a contiguous middle of the text and cuts off only whitespace on either side |
| PlayerNames.CleanPlayerNameIdempotent | footble/scripting/05_clean_players.py:6-7 | cleaning a cleaned name changes nothing |
| PlayerNames.CleanPlayerNameExample | footble/scripting/05_clean_players.py:6-7 | "Pele (Edson)" becomes "Pele" |
| PlayerNames.CleanPlayers | footble/scripting/05_clean_players.py:14-20 | every player keeps all fields but the name, which is cleaned |
| PlayerNames.CleanPlayersIdempotent | footble/scripting/05_clean_players.py:14-20 | running the stage twice is the same as once |
| TopPlayers.Judge | footble/scripting/05_filter_top_players.py:13-27 | reference definition of the six-part test, with the date parse error on an empty career start; `SelectedIff` states it |
| TopPlayers.SelectedIff | footble/scripting/05_filter_top_players.py:13-27 | a player is selected iff rate > 80, value ≥ 15 000 000, ≥ 4 transfers, a career start on or after 1998-01-01, ≥ 2 top-ranked transfers and top-ranked rate ≥ 25 |
| TopPlayers.SelectTop | footble/scripting/05_filter_top_players.py:11-28 | reference definition of top_players.json: the selected players in order; `SelectTopMembers` and `SelectTopAppend` state it |
| TopPlayers.FilterTopPlayers | footble/scripting/05_filter_top_players.py:7-28 | succeeds iff no player reaches the date parse with an empty date, returning the selected players in order; otherwise fails naming the first such player |
| TopPlayers.SelectTopMembers | footble/scripting/05_filter_top_players.py:12-28 | a player is in the output iff it is in the input and selected |
| TopPlayers.SelectTopAppend | footble/scripting/05_filter_top_players.py:12-28 | selection keeps file order: it distributes over concatenation |
| TopPlayers.SelectTopIdempotent | footble/scripting/05_filter_top_players.py:12-28 | filtering the top players again changes nothing |
| TopPlayers.ExactlyEightyRejected | footble/scripting/05_filter_top_players.py:15 | the league-rate test is strict: exactly 80% is rejected |
| TopPlayers.SelectionExample | footble/scripting/05_filter_top_players.py:13-27 | 17/20 league, 6/20 ranked, 16 000 000, 1999-01-01 is selected; with 3 transfers in all it is rejected |
| TopPlayers.FewTransfersRejected | footble/scripting/05_filter_top_players.py:19-22 | fewer than four transfers is rejected before the date is parsed, whatever the date |
| TopPlayers.SelectedCounts | footble/scripting/05_filter_top_players.py:15-26 | for consistently enriched players selection means 5·league > 4·total, 4·ranked ≥ total and at least one league transfer |
| PublicData.MakePlayerDict | footble/scripting/06_generate_public_data.py:5-17 | the public record copies id, slug, name, citizenship, position, date of birth and club ids and takes the image's file name |
| Strings.LastPiece | footble/scripting/06_generate_public_data.py:10 | `split("/")[-1]` is a suffix of the URL that holds no "/" and is either the whole URL or follows a "/" |
| PublicData.ImageName | footble/scripting/06_generate_public_data.py:10-12 | reference definition of the image field; `ImageNameShape` and `DefaultImageDropped` state it |
| PublicData.ImageNameShape | footble/scripting/06_generate_public_data.py:10-12 | the image is never "default.jpg", has no "/" and is what follows the URL's last "/" |
| PublicData.DefaultImageDropped | footble/scripting/06_generate_public_data.py:10-12 | an URL ending in "/default.jpg" gives no image |
| PublicData.PublicPlayers | footble/scripting/06_generate_public_data.py:25-34 | reference definition of public/players.json; `PublicPlayersMembers` and `PublicPlayersAppend` state it |
| PublicData.IsPublicPlayer | footble/scripting/06_generate_public_data.py:29-33 | reference definition: ≥ 1 top-league, ≥ 1 top-ranked transfer and value ≥ 10 000 000 |
| PublicData.PublicPlayersMembers | footble/scripting/06_generate_public_data.py:26-34 | a record is in players.json iff it is the record of a player with ≥ 1 league, ≥ 1 ranked transfer and value ≥ 10 000 000 |
| PublicData.PublicPlayersAppend | footble/scripting/06_generate_public_data.py:26-34 | the public list keeps file order |
| PublicData.PublicTopPlayers | footble/scripting/06_generate_public_data.py:43-46 | reference definition of public/top_players.json: every top player's record, in order; `TopPlayersArePublic` relates it to players.json |
| PublicData.TopPlayerIsPublic | footble/scripting/06_generate_public_data.py:29-33 | a consistently enriched top player passes the looser public condition |
| PublicData.TopPlayersArePublic | footble/scripting/06_generate_public_data.py:26-46 | every record of top_players.json is a record of players.json |
| Pipeline.ReducedTransferOrigin | footble/scripting/03_reduce_transfers.py:36-57 | every transfer of reduced_transfers.json is dated and has the date, value and flags of an input transfer |
| Pipeline.FilterNeverFailsAfterReduce | footble/scripting/05_filter_top_players.py:21-22 | after stages 03 to 05 clean, the date parse of stage 05 never meets an empty date |
| Pipeline.DatedAfterReduce | footble/scripting/05_filter_top_players.py:19-22 | for any player of the enriched file, a transfer count that passes the test comes with a career start date |
| Pipeline.EnrichedRatesAfterFlags | footble/scripting/04_enrich_players.py:64-73 | after stages 02 to 04, ranked ≤ league ≤ total and both rates lie between 0 and 100 |
| Pipeline.PublishedTopPlayersArePublic | footble/scripting/06_generate_public_data.py:26-46 | for any input, every published top player is a published public player |
| Pipeline.PublicIdsUnique | footble/scripting/06_generate_public_data.py:26-34 | distinct player ids give a players.json with distinct ids |
| Guesses.IsWon | footble/src/models/GameState.ts:74-76 | reference definition of `isGameWon`; `WonIffTargetIdSaved` states it |
| Guesses.IsOver | footble/src/models/GameState.ts:78-80 | reference definition of `isGameOver`: won, or at least `maxGuesses` guesses |
| Guesses.AfterGuess | footble/src/models/GameState.ts:67-72 | reference definition of the guesses after `addGuess`; `AfterGuessShape` and the lemmas below state it |
| Guesses.FindById | footble/src/models/GameState.ts:109 | reference definition of `allPlayers.find`; `FindByIdFirst` states it |
| Guesses.LoadGuesses | footble/src/models/GameState.ts:104-111 | reference definition of the guesses `loadGuessesFromStorage` builds; `LoadGuessesKnown` states it |
| Guesses.GuessIds | footble/src/models/GameState.ts:114 | the saved list has one id per guess, in guess order |
| Guesses.WonIffTargetIdSaved | footble/src/models/GameState.ts:74-76 | the game is won iff there is a target and its id is among the guess ids; never without a target |
| Guesses.FindByIdFirst | footble/src/models/GameState.ts:109 | `find` gives nothing iff no player has the id, else the first player with it |
| Guesses.FindByIdUnique | footble/src/models/GameState.ts:109 | among players of distinct ids `find` returns the one with that id |
| Guesses.LoadGuessesKnown | footble/src/models/GameState.ts:104-111 | loading keeps exactly the stored ids that name a player, in stored order, and loads only players of the list |
| Guesses.SaveLoadRoundTrip | footble/src/models/GameState.ts:104-116 | loading the saved ids restores the same guesses when every guess is a player of a list with distinct ids |
| Guesses.GuessAfterOverIgnored | footble/src/models/GameState.ts:68 | once the game is over a guess changes nothing |
| Guesses.AfterGuessShape | footble/src/models/GameState.ts:67-72 | a guess changes nothing iff the game is over or its id was guessed, and otherwise appends the player |
| Guesses.AfterGuessUnique | footble/src/models/GameState.ts:69 | guessed ids stay distinct |
| Guesses.AfterGuessWithinLimit | footble/src/models/GameState.ts:67-80 | the number of guesses never grows past `maxGuesses` once within it |
| Guesses.GuessingTargetWins | footble/src/models/GameState.ts:67-76 | guessing the target in a game still on wins it |
| Guesses.OverStaysOver | footble/src/models/GameState.ts:67-80 | a game over, or won, stays so after any guess |
| Guesses.RetrieveStore | footble/src/models/Storage.ts:8-14 | what is stored under a key is retrieved from it, other keys keep their values |
| Guesses.NothingStoredNoGuesses | footble/src/models/GameState.ts:105-106 | nothing stored under the key loads as no guesses |
| GameStateModel.PlayerKey | footble/src/models/GameState.ts:96-102 | reference definition of `storageKey`: `player-<id>`, or "" without a target |
| GameStateModel.GuessesKeysDistinct | footble/src/models/GameState.ts:96-102 | the keys `player-<id>/guesses` and `/guesses` coincide iff both games have no target or targets of the same id |
| GameStateModel.GameState.constructor | footble/src/models/GameState.ts:16-26 | empty lists, no target, the given storage and limit; the game is on iff the limit is positive |
| GameStateModel.GameState.AddGuess | footble/src/models/GameState.ts:67-72 | no change when over or when the id is guessed, otherwise the player is appended; nothing else changes |
| GameStateModel.GameState.LoadGuessesFromStorage | footble/src/models/GameState.ts:104-111 | the guesses become the known stored ids' players, in stored order; nothing else changes |
| GameStateModel.GameState.SaveGuessesToStorage | footble/src/models/GameState.ts:113-116 | the guess ids are stored under the target's key, from which loading restores the guesses |
| GameStateModel.GameState.SaveToStorage | footble/src/models/GameState.ts:82-84 | saving stores the guess ids under the target's key |
| DailyGameState.JsRem | footble/src/game-state.ts:25 | JavaScript's `%` truncates: the remainder has the dividend's sign, is smaller than the divisor in size and completes a truncated division |
| DailyGameState.DailyPlayer | footble/src/game-state.ts:25 | reference definition of `topPlayers[dayIndex % topPlayers.length]` with JavaScript's remainder, None when no element exists |
| DailyGameState.DailyPlayerInBounds | footble/src/game-state.ts:25 | from 2000-01-01 on, with top players, the target is `topPlayers[day mod length]`, an element of the list |
| DailyGameState.DailyPlayerPeriodic | footble/src/game-state.ts:25 | the daily target repeats every `topPlayers.length` days |
| DailyGameState.NoDailyPlayer | footble/src/game-state.ts:25 | there is no target iff the list is empty or the day is before 2000 and not a multiple of its length |
| DailyGameState.DayKey | footble/src/game-state.ts:54-56 | reference definition of `storageKey`: the day index as decimal text; `GuessesKeysDistinct` states that it is injective |
| DailyGameState.GuessesKeysDistinct | footble/src/game-state.ts:54-56 | two days share the key `<day>/guesses` iff they are the same day |
| DailyGameState.GameState.constructor | footble/src/game-state.ts:13-20 | empty lists, no target, the given storage and limit; the game is on iff the limit is positive |
| DailyGameState.GameState.Init | footble/src/game-state.ts:22-27 | the lists are set, the target is the daily player and the guesses are those loaded for the day |
| DailyGameState.GameState.AddGuess | footble/src/game-state.ts:29-34 | no change when over or when the id is guessed, otherwise the player is appended; nothing else changes |
| DailyGameState.GameState.LoadGuessesFromStorage | footble/src/game-state.ts:58-65 | the guesses become the known stored ids' players, in stored order |
| DailyGameState.GameState.SaveGuessesToStorage | footble/src/game-state.ts:67-70 | the guess ids are stored under the day's key, other days keep theirs, loading the day restores the guesses |
| DailyGameState.GameState.SaveToStorage | footble/src/game-state.ts:44-46 | saving stores the guess ids under the day's key |
| GymClasses.DayMap | swedishfit/crawler/classes.ts:34-42 | the seven French day abbreviations DIM..SAM mapped to 0..6 |
| GymClasses.NumberOf | swedishfit/crawler/classes.ts:52 | reference definition of `Number(piece)` on decimal digit strings |
| GymClasses.HoursMinutes | swedishfit/crawler/classes.ts:52 | reference definition of `timePart.split(':').map(Number)` read as hours and minutes, minutes missing without a ":" |
| GymClasses.ParseTimeText | swedishfit/crawler/classes.ts:32-74 | reference definition of `parseTimeText`, with `currentDay` for the clock; the lemmas below state it |
| GymClasses.DaysToAdd | swedishfit/crawler/classes.ts:62-67 | the offset lies in 0..6 and lands on the target weekday |
| GymClasses.ParseTimeTextFallbacks | swedishfit/crawler/classes.ts:34-57 | the current time is returned iff the text has no second space-separated piece, or its first piece is neither a day abbreviation nor a property every object inherits; an invalid date is returned iff there is a second piece and the first is such an inherited property |
| GymClasses.InheritedKeyInvalid | swedishfit/crawler/classes.ts:34-70 | "toString 10:00" finds `Object.prototype.toString` in the day map, passes the `undefined` test and yields an invalid date |
| GymClasses.KeysApart | swedishfit/crawler/classes.ts:34-42 | no day abbreviation is an inherited property name |
| GymClasses.ParseTimeTextScheduled | swedishfit/crawler/classes.ts:32-74 | a scheduled class falls on the named weekday at most six days ahead, with the text's hours and minutes and zero seconds and milliseconds |
| GymClasses.SameDayIsToday | swedishfit/crawler/classes.ts:62-67 | a class on today's weekday is today, not next week |
| GymClasses.SundayFromWednesday | swedishfit/crawler/classes.ts:32-74 | on a Wednesday "DIM 10:00" is four days ahead at 10:00 |
| GymClasses.StatusOf | swedishfit/crawler/classes.ts:110-118 | reference definition of the status cascade; `StatusPrecedence` states it |
| GymClasses.StatusPrecedence | swedishfit/crawler/classes.ts:110-118 | PASSED iff the text holds "PASSÉ"; FULL iff "COMPLET" but not "PASSÉ"; CANCELLED iff "ANNULÉ" and neither; otherwise AVAILABLE |
| GymClasses.ClassOf | swedishfit/crawler/classes.ts:94-134 | reference definition of the object pushed for one row; `ParsePage` states that every row gives its own |
| GymClasses.ParsePage | swedishfit/crawler/classes.ts:76-138 | one class per row, in order, with its parsed time, location, activity (empty when an attribute is missing), teacher, status and link |

## Left out

- **I/O.** Every file, JSON and CSV read and write, `tqdm` progress bars, `print` messages, the `__main__` entry points, `fetch` and the `crawl` loop are left out. Each stage works on values.
- **Dates.**
  - `datetime.strptime`/`strftime` become `(year, month, day)` triples. Malformed date strings are not modelled; only the empty date (`None`) is.
  - The CSV's `_last_modified_at` becomes a natural number ordered as the timestamps are.
- **Number formatting.** The `%.2f` text of the rates and of `max_value_at_transfer`, and the `float(...)` parsing of them, are not modelled.
  - Rates are exact fractions, and the thresholds of stages 02, 05 and 06 compare them exactly.
  - Exact and two-decimal comparisons agree whenever the denominator is below 2000.
  - Values are integers.
- TopPlayers.Judge: compares the exact rates instead of the two-decimal text. The two could differ only for a player with at least 4000 transfers.
- TransferFlags.IsTopRankedClub: compares the exact club rate instead of the two-decimal text. The two could differ only for a club with at least 2000 top-league seasons.
- ClubEnrichment.TeamSeason: `season_id` and `season_rank` are integers. The script's `int(team_season["season_id"])` (footble/scripting/01_enrich_clubs.py:25) raises on a missing or non-integer value, for every season. Its `int(team_season["season_rank"])` (footble/scripting/01_enrich_clubs.py:32) does so only for a top-league season from 1990 on. Those failures, which end stage 01 before anything is written, are not modelled.
- **Stage 00.** The commented-out logo-similarity code of stage 00 is not code that runs, and is not modelled.
- **Stage 03.** Python dictionaries keep insertion order; the grouping map of stage 03 is modelled as a map plus the list of player ids in first-appearance order.
- **GameState.ts `init`.**
  - The fetches, the `clubs` and `customClub` fields and the player-by-id and club branches are not modelled, because they depend on files fetched at run time.
  - The daily pick `Math.floor(rand(dayNumber) * length)` is not modelled, because it is float arithmetic over a mulberry32 generator.
  - The `dayNumber` and `randomNumber` getters are left out for the same reasons.
- **Player names in the front end.** The front end's `cleanPlayerName` (Unicode NFD normalisation and regular expressions) is not modelled.
- **Players in the game state.** Both GameState classes hold players as the public records of stage 06.
  - The older `game-state.ts` reads only some of their fields.
  - `Player.ts` and `Club.ts` are used only as data.
- **Storage.**
  - `Storage` is a map from `<key>/<subKey>` to the list of saved ids.
  - `JSON.stringify`/`JSON.parse` are taken to be inverse, and a stored text that is not a JSON array is not modelled.
  - `localStorage` itself, shared between instances, is not modelled.
- DailyGameState.GameState.Init: the day number is one parameter. The source reads the clock twice, once for the pick and once for the storage key, and the two readings could straddle midnight.
- **The crawler's dates.**
  - `parseTimeText` returns `Scheduled(daysToAdd, hours, minutes, 0, 0)`, the arguments of `setDate`/`setHours`, and not a calendar date. `Date` arithmetic (month rollover, time zones) is not modelled.
  - A first piece that names a property every object inherits (`toString`, `constructor`, `__proto__`, ...) gives `InvalidDate`, since `setDate(NaN)` makes the date invalid.
  - Hours or minutes that are missing or not decimal digits are kept as `Missing` or `NotDecimal` inside `Scheduled`. The model does not turn them into `InvalidDate`, although `setHours(NaN, ...)` would.
  - `new Date()` and `getDay()` become the parameter `currentDay`. `parsePage` takes that single reading for all rows.
- GymClasses.NumberOf: `Number(piece)` is modelled for decimal digit strings only; any other text, including signs, decimals and surrounding spaces, is `NotDecimal`.
- **cheerio.** HTML parsing with cheerio is not modelled: `parsePage` receives the rows with their texts already extracted and trimmed. The non-null assertion on a missing link is not modelled.
