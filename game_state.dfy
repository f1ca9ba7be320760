/**
 * The GameState class of footble/src/models/GameState.ts: the guess list of the
 * current game, whose guesses are saved under the target player's key.
 */
module GameStateModel {
  import opened Wrappers
  import opened Records
  import opened PublicData
  import opened Guesses

  /** storageKey: `player-<id>`, or "" without a target player. */
  function PlayerKey(target: Option<PublicPlayer>): string
  {
    if target.Some? then "player-" + target.value.id else ""
  }

  /** The sub-key the guesses of a game are stored under. */
  function GuessesKey(target: Option<PublicPlayer>): string
  {
    PlayerKey(target) + "/guesses"
  }

  /** Games of players with different ids save their guesses under different keys, and apart from the no-target key. */
  lemma GuessesKeysDistinct(a: Option<PublicPlayer>, b: Option<PublicPlayer>)
    ensures GuessesKey(a) == GuessesKey(b) <==> (a.None? && b.None?) || (a.Some? && b.Some? && a.value.id == b.value.id)
  {
    if GuessesKey(a) == GuessesKey(b) {
      var ka, kb := PlayerKey(a), PlayerKey(b);
      assert |ka| == |kb|;
      assert ka == GuessesKey(a)[..|ka|];
      assert kb == GuessesKey(b)[..|kb|];
      if a.Some? && b.Some? {
        assert a.value.id == ka[7..] && b.value.id == kb[7..];
      }
    }
  }

  class GameState {
    var topPlayers: seq<PublicPlayer>
    var allPlayers: seq<PublicPlayer>
    var player: Option<PublicPlayer>
    var guessedPlayers: seq<PublicPlayer>
    var storage: Storage
    var maxGuesses: int

    constructor(storage: Storage, maxGuesses: int)
      ensures topPlayers == [] && allPlayers == [] && player == None && guessedPlayers == []
      ensures this.storage == storage && this.maxGuesses == maxGuesses
      ensures !IsGameOver() <==> maxGuesses > 0
    {
      topPlayers := [];
      allPlayers := [];
      player := None;
      guessedPlayers := [];
      this.storage := storage;
      this.maxGuesses := maxGuesses;
    }

    /** isGameWon */
    predicate IsGameWon()
      reads this
    {
      IsWon(guessedPlayers, player)
    }

    /** isGameOver */
    predicate IsGameOver()
      reads this
    {
      IsOver(guessedPlayers, player, maxGuesses)
    }

    /** addGuess: refused once the game is over or when a guess already has the player's id. */
    method AddGuess(p: PublicPlayer)
      modifies this
      ensures old(IsGameOver()) ==> guessedPlayers == old(guessedPlayers)
      ensures p.id in GuessIds(old(guessedPlayers)) ==> guessedPlayers == old(guessedPlayers)
      ensures !old(IsGameOver()) && p.id !in GuessIds(old(guessedPlayers)) ==> guessedPlayers == old(guessedPlayers) + [p]
      ensures guessedPlayers == AfterGuess(old(guessedPlayers), player, maxGuesses, p)
      ensures topPlayers == old(topPlayers) && allPlayers == old(allPlayers) && player == old(player)
      ensures storage == old(storage) && maxGuesses == old(maxGuesses)
    {
      AfterGuessShape(guessedPlayers, player, maxGuesses, p);
      if IsGameOver() {
        return;
      }
      if HasId(guessedPlayers, p.id) {
        return;
      }
      guessedPlayers := guessedPlayers + [p];
    }

    /** loadGuessesFromStorage: the stored ids that name a player of allPlayers, as those players. */
    method LoadGuessesFromStorage()
      modifies this
      ensures guessedPlayers == LoadGuesses(allPlayers, storage.StoredIds(GuessesKey(player)))
      ensures GuessIds(guessedPlayers) == KnownIds(allPlayers, storage.StoredIds(GuessesKey(player)))
      ensures forall k :: 0 <= k < |guessedPlayers| ==> guessedPlayers[k] in allPlayers
      ensures topPlayers == old(topPlayers) && allPlayers == old(allPlayers) && player == old(player)
      ensures storage == old(storage) && maxGuesses == old(maxGuesses)
    {
      var guessIds := storage.StoredIds(GuessesKey(player));
      LoadGuessesKnown(allPlayers, guessIds);
      guessedPlayers := LoadGuesses(allPlayers, guessIds);
    }

    /** saveGuessesToStorage: the guess ids go under the target's key, and nothing else is stored. */
    method SaveGuessesToStorage()
      modifies this
      ensures storage == old(storage).Store(GuessesKey(player), GuessIds(guessedPlayers))
      ensures storage.Retrieve(GuessesKey(player)) == Some(GuessIds(guessedPlayers))
      ensures UniqueIds(allPlayers) && (forall k :: 0 <= k < |guessedPlayers| ==> guessedPlayers[k] in allPlayers)
        ==> LoadGuesses(allPlayers, storage.StoredIds(GuessesKey(player))) == guessedPlayers
      ensures topPlayers == old(topPlayers) && allPlayers == old(allPlayers) && player == old(player)
      ensures guessedPlayers == old(guessedPlayers) && maxGuesses == old(maxGuesses)
    {
      RetrieveStore(storage, GuessesKey(player), GuessIds(guessedPlayers), "");
      if UniqueIds(allPlayers) && (forall k :: 0 <= k < |guessedPlayers| ==> guessedPlayers[k] in allPlayers) {
        SaveLoadRoundTrip(allPlayers, guessedPlayers);
      }
      storage := storage.Store(GuessesKey(player), GuessIds(guessedPlayers));
    }

    /** saveToStorage */
    method SaveToStorage()
      modifies this
      ensures storage == old(storage).Store(GuessesKey(player), GuessIds(guessedPlayers))
      ensures topPlayers == old(topPlayers) && allPlayers == old(allPlayers) && player == old(player)
      ensures guessedPlayers == old(guessedPlayers) && maxGuesses == old(maxGuesses)
    {
      SaveGuessesToStorage();
    }
  }
}
