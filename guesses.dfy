/**
 * The guessing rules both GameState classes of the front end share: a guess is
 * refused once the game is over or when its player was already guessed; the game
 * is won when some guess is the target player and over when won or out of guesses.
 * Guesses are saved as the list of their player ids and loaded back by looking
 * every id up among all players.
 */
module Guesses {
  import opened Wrappers
  import opened Records
  import opened PublicData

  /** `guesses.some(p => p.id === id)` */
  predicate HasId(guesses: seq<PublicPlayer>, id: PlayerId)
  {
    exists k | 0 <= k < |guesses| :: guesses[k].id == id
  }

  /** isGameWon; a missing target (`player?.id` is undefined) matches no guess. */
  predicate IsWon(guesses: seq<PublicPlayer>, target: Option<PublicPlayer>)
  {
    target.Some? && HasId(guesses, target.value.id)
  }

  /** isGameOver */
  predicate IsOver(guesses: seq<PublicPlayer>, target: Option<PublicPlayer>, maxGuesses: int)
  {
    IsWon(guesses, target) || |guesses| >= maxGuesses
  }

  /** The guesses after addGuess(p): unchanged when the game is over or p's id is already guessed. */
  function AfterGuess(guesses: seq<PublicPlayer>, target: Option<PublicPlayer>, maxGuesses: int, p: PublicPlayer): seq<PublicPlayer>
  {
    if IsOver(guesses, target, maxGuesses) || HasId(guesses, p.id) then guesses else guesses + [p]
  }

  /** `guessedPlayers.map(p => p.id)`: what is saved. */
  function GuessIds(guesses: seq<PublicPlayer>): (ids: seq<PlayerId>)
    ensures |ids| == |guesses| && forall k :: 0 <= k < |guesses| ==> ids[k] == guesses[k].id
  {
    seq(|guesses|, k requires 0 <= k < |guesses| => guesses[k].id)
  }

  /** No two guesses (or players) share an id. */
  predicate UniqueIds(players: seq<PublicPlayer>)
  {
    forall i, j :: 0 <= i < j < |players| ==> players[i].id != players[j].id
  }

  /** `allPlayers.find(p => p.id === id)`: the first player with that id. */
  function FindById(all: seq<PublicPlayer>, id: PlayerId): Option<PublicPlayer>
  {
    if all == [] then None
    else if all[0].id == id then Some(all[0])
    else FindById(all[1..], id)
  }

  /** The guess list loadGuessesFromStorage builds: find each id, drop those not found. */
  function LoadGuesses(all: seq<PublicPlayer>, ids: seq<PlayerId>): seq<PublicPlayer>
  {
    if ids == [] then []
    else
      var found := FindById(all, ids[|ids| - 1]);
      LoadGuesses(all, ids[..|ids| - 1]) + (if found.Some? then [found.value] else [])
  }

  /** The stored ids that name some player, in stored order. */
  function KnownIds(all: seq<PublicPlayer>, ids: seq<PlayerId>): seq<PlayerId>
  {
    if ids == [] then []
    else KnownIds(all, ids[..|ids| - 1]) + (if HasId(all, ids[|ids| - 1]) then [ids[|ids| - 1]] else [])
  }

  /** The game is won exactly when the target's id is among the saved guess ids. */
  lemma WonIffTargetIdSaved(guesses: seq<PublicPlayer>, target: Option<PublicPlayer>)
    ensures IsWon(guesses, target) <==> target.Some? && target.value.id in GuessIds(guesses)
    ensures target.None? ==> !IsWon(guesses, target)
  {
    if target.Some? && target.value.id in GuessIds(guesses) {
      var k :| 0 <= k < |guesses| && GuessIds(guesses)[k] == target.value.id;
    }
  }

  /** find returns the first player carrying the id, and nothing when no player does. */
  lemma {:induction false} FindByIdFirst(all: seq<PublicPlayer>, id: PlayerId)
    ensures FindById(all, id).None? <==> !HasId(all, id)
    ensures FindById(all, id).Some? ==> exists i :: (0 <= i < |all| && all[i] == FindById(all, id).value
      && all[i].id == id && forall k :: 0 <= k < i ==> all[k].id != id)
  {
    if all != [] && all[0].id != id {
      FindByIdFirst(all[1..], id);
      if FindById(all, id).Some? {
        var i :| 0 <= i < |all[1..]| && all[1..][i] == FindById(all, id).value
          && all[1..][i].id == id && forall k :: 0 <= k < i ==> all[1..][k].id != id;
        assert all[i + 1] == FindById(all, id).value;
      }
      if HasId(all, id) {
        var k :| 0 <= k < |all| && all[k].id == id;
        assert all[1..][k - 1].id == id;
      }
    } else if all != [] {
      assert all[0] == FindById(all, id).value;
    }
  }

  /** With unique ids, find returns the one player of that id. */
  lemma FindByIdUnique(all: seq<PublicPlayer>, i: int)
    requires UniqueIds(all) && 0 <= i < |all|
    ensures FindById(all, all[i].id) == Some(all[i])
  {
    FindByIdFirst(all, all[i].id);
    assert HasId(all, all[i].id);
    var j :| 0 <= j < |all| && all[j] == FindById(all, all[i].id).value
      && all[j].id == all[i].id && forall k :: 0 <= k < j ==> all[k].id != all[i].id;
    assert j == i;
  }

  /** Loading drops the ids no player has and keeps the order of the others; everything loaded is a known player. */
  lemma {:induction false} LoadGuessesKnown(all: seq<PublicPlayer>, ids: seq<PlayerId>)
    ensures GuessIds(LoadGuesses(all, ids)) == KnownIds(all, ids)
    ensures forall k :: 0 <= k < |LoadGuesses(all, ids)| ==> LoadGuesses(all, ids)[k] in all
  {
    if ids != [] {
      var init, id := ids[..|ids| - 1], ids[|ids| - 1];
      LoadGuessesKnown(all, init);
      FindByIdFirst(all, id);
      var found := FindById(all, id);
      var r := LoadGuesses(all, init);
      assert LoadGuesses(all, ids) == r + (if found.Some? then [found.value] else []);
      if found.Some? {
        var i :| 0 <= i < |all| && all[i] == found.value && all[i].id == id
          && forall k :: 0 <= k < i ==> all[k].id != id;
        assert GuessIds(r + [found.value]) == GuessIds(r) + [id];
      } else {
        assert r + [] == r;
      }
    }
  }

  /** Loading the saved ids gives back the same guesses when every guess is a player of a unique-id list. */
  lemma {:induction false} SaveLoadRoundTrip(all: seq<PublicPlayer>, guesses: seq<PublicPlayer>)
    requires UniqueIds(all)
    requires forall k :: 0 <= k < |guesses| ==> guesses[k] in all
    ensures LoadGuesses(all, GuessIds(guesses)) == guesses
  {
    if guesses != [] {
      var init, g := guesses[..|guesses| - 1], guesses[|guesses| - 1];
      SaveLoadRoundTrip(all, init);
      assert GuessIds(guesses)[..|guesses| - 1] == GuessIds(init);
      var i :| 0 <= i < |all| && all[i] == g;
      FindByIdUnique(all, i);
      assert guesses == init + [g];
    }
  }

  /** A finished game ignores further guesses. */
  lemma GuessAfterOverIgnored(guesses: seq<PublicPlayer>, target: Option<PublicPlayer>, maxGuesses: int, p: PublicPlayer)
    requires IsOver(guesses, target, maxGuesses)
    ensures AfterGuess(guesses, target, maxGuesses, p) == guesses
    ensures IsOver(AfterGuess(guesses, target, maxGuesses, p), target, maxGuesses)
  {
  }

  /** A guess either changes nothing or appends the new player, whose id was not guessed before. */
  lemma AfterGuessShape(guesses: seq<PublicPlayer>, target: Option<PublicPlayer>, maxGuesses: int, p: PublicPlayer)
    ensures var after := AfterGuess(guesses, target, maxGuesses, p);
      (after == guesses <==> IsOver(guesses, target, maxGuesses) || p.id in GuessIds(guesses))
      && (after != guesses ==> after == guesses + [p])
  {
    if p.id in GuessIds(guesses) {
      var k :| 0 <= k < |guesses| && GuessIds(guesses)[k] == p.id;
    }
    assert HasId(guesses, p.id) ==> p.id in GuessIds(guesses);
  }

  /** Guessed ids stay unique. */
  lemma AfterGuessUnique(guesses: seq<PublicPlayer>, target: Option<PublicPlayer>, maxGuesses: int, p: PublicPlayer)
    requires UniqueIds(guesses)
    ensures UniqueIds(AfterGuess(guesses, target, maxGuesses, p))
  {
    var after := AfterGuess(guesses, target, maxGuesses, p);
    if after != guesses {
      forall i, j | 0 <= i < j < |after|
        ensures after[i].id != after[j].id
      {
        if j == |guesses| {
          assert !HasId(guesses, p.id);
          assert guesses[i].id != p.id;
        }
      }
    }
  }

  /** The number of guesses never goes past maxGuesses once it is within it. */
  lemma AfterGuessWithinLimit(guesses: seq<PublicPlayer>, target: Option<PublicPlayer>, maxGuesses: int, p: PublicPlayer)
    requires |guesses| <= maxGuesses
    ensures |guesses| <= |AfterGuess(guesses, target, maxGuesses, p)| <= maxGuesses
  {
  }

  /** Guessing the target in a game still on wins it. */
  lemma GuessingTargetWins(guesses: seq<PublicPlayer>, target: Option<PublicPlayer>, maxGuesses: int, p: PublicPlayer)
    requires !IsOver(guesses, target, maxGuesses)
    requires target.Some? && p.id == target.value.id
    ensures IsWon(AfterGuess(guesses, target, maxGuesses, p), target)
  {
    var after := AfterGuess(guesses, target, maxGuesses, p);
    assert after[|after| - 1] == p;
  }

  /** A game once over stays over whatever is guessed next. */
  lemma OverStaysOver(guesses: seq<PublicPlayer>, target: Option<PublicPlayer>, maxGuesses: int, p: PublicPlayer)
    ensures IsOver(guesses, target, maxGuesses) ==> IsOver(AfterGuess(guesses, target, maxGuesses, p), target, maxGuesses)
    ensures IsWon(guesses, target) ==> IsWon(AfterGuess(guesses, target, maxGuesses, p), target)
  {
  }

  /**
   * A Storage instance: localStorage entries under `<key>/<subKey>`. A stored
   * value is the list of guess ids (its JSON text is not modelled).
   */
  datatype Storage = Storage(key: string, items: map<string, seq<PlayerId>>)
  {
    function FullKey(subKey: string): string
    {
      key + "/" + subKey
    }

    /** store(subKey, value) */
    function Store(subKey: string, value: seq<PlayerId>): Storage
    {
      this.(items := items[FullKey(subKey) := value])
    }

    /** retrieve(subKey): null when nothing is stored there. */
    function Retrieve(subKey: string): Option<seq<PlayerId>>
    {
      if FullKey(subKey) in items then Some(items[FullKey(subKey)]) else None
    }

    /** `guesses ? JSON.parse(guesses) : []` */
    function StoredIds(subKey: string): seq<PlayerId>
    {
      var stored := Retrieve(subKey);
      if stored.Some? then stored.value else []
    }
  }

  /** What is stored under a sub-key is retrieved from it, and other sub-keys keep their values. */
  lemma RetrieveStore(st: Storage, subKey: string, value: seq<PlayerId>, other: string)
    ensures st.Store(subKey, value).Retrieve(subKey) == Some(value)
    ensures other != subKey ==> st.Store(subKey, value).Retrieve(other) == st.Retrieve(other)
  {
    if other != subKey {
      var n := |st.key + "/"|;
      assert st.FullKey(other)[n..] == other && st.FullKey(subKey)[n..] == subKey;
    }
  }

  /** Nothing stored under a sub-key loads as no guesses. */
  lemma NothingStoredNoGuesses(st: Storage, subKey: string, all: seq<PublicPlayer>)
    requires st.Retrieve(subKey).None?
    ensures LoadGuesses(all, st.StoredIds(subKey)) == []
  {
  }
}
