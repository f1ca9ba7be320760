/**
 * The older GameState class of footble/src/game-state.ts: the target is the
 * player of the day, `topPlayers[dayIndex % topPlayers.length]`, and the guesses
 * are saved under the day number. The clock reading `dayIndex` (whole days since
 * 2000-01-01, rounded down) is a parameter of the methods that read it.
 */
module DailyGameState {
  import opened Wrappers
  import opened Records
  import opened Strings
  import opened PublicData
  import opened Guesses

  /** JavaScript's `a % b` for b > 0: the remainder truncates toward zero, so it takes the sign of `a`. */
  function JsRem(a: int, b: int): (r: int)
    requires b > 0
    ensures -b < r < b
    ensures a >= 0 ==> r >= 0
    ensures a <= 0 ==> r <= 0
    ensures a == JsQuot(a, b) * b + r
  {
    if a >= 0 then a % b else -((-a) % b)
  }

  /** The quotient rounded toward zero that goes with JsRem. */
  function JsQuot(a: int, b: int): int
    requires b > 0
  {
    if a >= 0 then a / b else -((-a) / b)
  }

  lemma MulAtLeast(k: int, n: int)
    requires k >= 1 && n > 0
    ensures k * n >= n
  {
  }

  /** Dafny's `%` is the only remainder in [0, n) of a decomposition x == q * n + r. */
  lemma ModUnique(x: int, n: int, q: int, r: int)
    requires n > 0 && 0 <= r < n && x == q * n + r
    ensures x % n == r
  {
    var q', r' := x / n, x % n;
    assert (q - q') * n == r' - r;
    if q > q' {
      MulAtLeast(q - q', n);
    } else if q < q' {
      MulAtLeast(q' - q, n);
    }
  }

  /**
   * `topPlayers[dayIndex % topPlayers.length]`, where a missing element is None:
   * an empty list gives NaN and a negative remainder an index with no element.
   * A remainder of -0 indexes element 0.
   */
  function DailyPlayer(topPlayers: seq<PublicPlayer>, dayIndex: int): Option<PublicPlayer>
  {
    if |topPlayers| == 0 then None
    else
      var i := JsRem(dayIndex, |topPlayers|);
      if i >= 0 then Some(topPlayers[i]) else None
  }

  /** storageKey: `dayIndex.toString()` */
  function DayKey(dayIndex: int): string
  {
    IntToString(dayIndex)
  }

  function GuessesKey(dayIndex: int): string
  {
    DayKey(dayIndex) + "/guesses"
  }

  /** From 2000-01-01 on the daily player is an element of the list at position dayIndex mod its length. */
  lemma DailyPlayerInBounds(topPlayers: seq<PublicPlayer>, dayIndex: int)
    requires |topPlayers| > 0 && dayIndex >= 0
    ensures DailyPlayer(topPlayers, dayIndex) == Some(topPlayers[dayIndex % |topPlayers|])
    ensures DailyPlayer(topPlayers, dayIndex).value in topPlayers
  {
  }

  /** The daily player repeats every |topPlayers| days. */
  lemma DailyPlayerPeriodic(topPlayers: seq<PublicPlayer>, dayIndex: int)
    requires |topPlayers| > 0 && dayIndex >= 0
    ensures DailyPlayer(topPlayers, dayIndex + |topPlayers|) == DailyPlayer(topPlayers, dayIndex)
  {
    var n := |topPlayers|;
    ModUnique(dayIndex + n, n, dayIndex / n + 1, dayIndex % n);
  }

  /** Without top players, or before 2000 on a day not a multiple of the list length, there is no target. */
  lemma NoDailyPlayer(topPlayers: seq<PublicPlayer>, dayIndex: int)
    ensures DailyPlayer(topPlayers, dayIndex).None? <==>
      (|topPlayers| == 0 || (dayIndex < 0 && (-dayIndex) % |topPlayers| != 0))
  {
  }

  /** Each day has its own guesses key. */
  lemma GuessesKeysDistinct(d1: int, d2: int)
    ensures GuessesKey(d1) == GuessesKey(d2) <==> d1 == d2
  {
    if GuessesKey(d1) == GuessesKey(d2) {
      var k1, k2 := DayKey(d1), DayKey(d2);
      assert |k1| == |k2|;
      assert k1 == GuessesKey(d1)[..|k1|] && k2 == GuessesKey(d2)[..|k2|];
      IntToStringInjective(d1, d2);
    }
  }

  class GameState {
    var allPlayers: seq<PublicPlayer>
    var topPlayers: seq<PublicPlayer>
    var player: Option<PublicPlayer>
    var guessedPlayers: seq<PublicPlayer>
    var storage: Storage
    var maxGuesses: int

    constructor(storage: Storage, maxGuesses: int)
      ensures allPlayers == [] && topPlayers == [] && player == None && guessedPlayers == []
      ensures this.storage == storage && this.maxGuesses == maxGuesses
      ensures !IsGameOver() <==> maxGuesses > 0
    {
      allPlayers := [];
      topPlayers := [];
      player := None;
      guessedPlayers := [];
      this.storage := storage;
      this.maxGuesses := maxGuesses;
    }

    /** init, with the two player lists already fetched: picks the daily player, then loads the day's guesses. */
    method Init(allPlayers: seq<PublicPlayer>, topPlayers: seq<PublicPlayer>, dayIndex: int)
      modifies this
      ensures this.allPlayers == allPlayers && this.topPlayers == topPlayers
      ensures player == DailyPlayer(topPlayers, dayIndex)
      ensures guessedPlayers == LoadGuesses(allPlayers, storage.StoredIds(GuessesKey(dayIndex)))
      ensures forall k :: 0 <= k < |guessedPlayers| ==> guessedPlayers[k] in allPlayers
      ensures storage == old(storage) && maxGuesses == old(maxGuesses)
    {
      this.allPlayers := allPlayers;
      this.topPlayers := topPlayers;
      player := DailyPlayer(topPlayers, dayIndex);
      LoadGuessesFromStorage(dayIndex);
    }

    predicate IsGameWon()
      reads this
    {
      IsWon(guessedPlayers, player)
    }

    predicate IsGameOver()
      reads this
    {
      IsOver(guessedPlayers, player, maxGuesses)
    }

    /** addGuess: refused once the game is over or when a guess already has the player's id. */
    method AddGuess(p: PublicPlayer)
      modifies this
      ensures old(IsGameOver()) ==> guessedPlayers == old(guessedPlayers)
      ensures p.id in GuessIds(old(guessedPlayers)) ==> guessedPlayers == old(guessedPlayers)
      ensures !old(IsGameOver()) && p.id !in GuessIds(old(guessedPlayers)) ==> guessedPlayers == old(guessedPlayers) + [p]
      ensures guessedPlayers == AfterGuess(old(guessedPlayers), player, maxGuesses, p)
      ensures allPlayers == old(allPlayers) && topPlayers == old(topPlayers) && player == old(player)
      ensures storage == old(storage) && maxGuesses == old(maxGuesses)
    {
      AfterGuessShape(guessedPlayers, player, maxGuesses, p);
      if IsGameOver() {
        return;
      }
      if HasId(guessedPlayers, p.id) {
        return;
      }
      guessedPlayers := guessedPlayers + [p];
    }

    /** loadGuessesFromStorage: the ids stored for the day that name a player of allPlayers, as those players. */
    method LoadGuessesFromStorage(dayIndex: int)
      modifies this
      ensures guessedPlayers == LoadGuesses(allPlayers, storage.StoredIds(GuessesKey(dayIndex)))
      ensures GuessIds(guessedPlayers) == KnownIds(allPlayers, storage.StoredIds(GuessesKey(dayIndex)))
      ensures forall k :: 0 <= k < |guessedPlayers| ==> guessedPlayers[k] in allPlayers
      ensures allPlayers == old(allPlayers) && topPlayers == old(topPlayers) && player == old(player)
      ensures storage == old(storage) && maxGuesses == old(maxGuesses)
    {
      var guessIds := storage.StoredIds(GuessesKey(dayIndex));
      LoadGuessesKnown(allPlayers, guessIds);
      guessedPlayers := LoadGuesses(allPlayers, guessIds);
    }

    /** saveGuessesToStorage: the guess ids go under the day's key, and loading that day gives them back. */
    method SaveGuessesToStorage(dayIndex: int)
      modifies this
      ensures storage == old(storage).Store(GuessesKey(dayIndex), GuessIds(guessedPlayers))
      ensures forall d :: d != dayIndex ==> storage.Retrieve(GuessesKey(d)) == old(storage).Retrieve(GuessesKey(d))
      ensures UniqueIds(allPlayers) && (forall k :: 0 <= k < |guessedPlayers| ==> guessedPlayers[k] in allPlayers)
        ==> LoadGuesses(allPlayers, storage.StoredIds(GuessesKey(dayIndex))) == guessedPlayers
      ensures allPlayers == old(allPlayers) && topPlayers == old(topPlayers) && player == old(player)
      ensures guessedPlayers == old(guessedPlayers) && maxGuesses == old(maxGuesses)
    {
      var key := GuessesKey(dayIndex);
      RetrieveStore(storage, key, GuessIds(guessedPlayers), "");
      forall d | d != dayIndex
        ensures storage.Store(key, GuessIds(guessedPlayers)).Retrieve(GuessesKey(d)) == storage.Retrieve(GuessesKey(d))
      {
        GuessesKeysDistinct(d, dayIndex);
        RetrieveStore(storage, key, GuessIds(guessedPlayers), GuessesKey(d));
      }
      if UniqueIds(allPlayers) && (forall k :: 0 <= k < |guessedPlayers| ==> guessedPlayers[k] in allPlayers) {
        SaveLoadRoundTrip(allPlayers, guessedPlayers);
      }
      storage := storage.Store(key, GuessIds(guessedPlayers));
    }

    method SaveToStorage(dayIndex: int)
      modifies this
      ensures storage == old(storage).Store(GuessesKey(dayIndex), GuessIds(guessedPlayers))
      ensures allPlayers == old(allPlayers) && topPlayers == old(topPlayers) && player == old(player)
      ensures guessedPlayers == old(guessedPlayers) && maxGuesses == old(maxGuesses)
    {
      SaveGuessesToStorage(dayIndex);
    }
  }
}
