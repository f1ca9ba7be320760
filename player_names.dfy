/**
 * Stage 05, clean_players: every player name is cut at its first "(" and stripped
 * of surrounding whitespace, as in "Pele (Edson)" becoming "Pele"; nothing else of
 * the record changes.
 */
module PlayerNames {
  import opened Records
  import opened Strings

  /** clean_player_name: `player_name.split("(")[0].strip()` */
  function CleanPlayerName(name: string): string
  {
    Strip(Split(name, '(')[0])
  }

  /** The cleaned name holds no "(" and no surrounding whitespace. */
  lemma CleanPlayerNameShape(name: string)
    ensures '(' !in CleanPlayerName(name)
    ensures var r := CleanPlayerName(name); r == [] || (!IsWhitespace(r[0]) && !IsWhitespace(r[|r| - 1]))
  {
    if '(' in CleanPlayerName(name) {
      StripChars(Split(name, '(')[0], '(');
    }
  }

  /** The cleaned name is a piece of the original name. */
  lemma CleanPlayerNameInfix(name: string)
    ensures exists i, j :: 0 <= i <= j <= |name| && CleanPlayerName(name) == name[i..j]
  {
    CleanPlayerNameCut(name);
    var n: nat := |name|;
    if '(' in name {
      n := IndexOf(name, '(');
    } else {
      assert name[..n] == name;
    }
    var i, j := StripPrefixBounds(name, n);
  }

  lemma StripPrefixBounds(name: string, n: nat) returns (i: nat, j: nat)
    requires n <= |name|
    ensures i <= j <= |name| && Strip(name[..n]) == name[i..j]
  {
    var piece := name[..n];
    i, j := StripBounds(piece);
    assert piece[i..j] == name[i..j];
  }

  /** A name is cut just before its first "(" and then stripped; a name without "(" is only stripped. */
  lemma CleanPlayerNameCut(name: string)
    ensures '(' !in name ==> CleanPlayerName(name) == Strip(name)
    ensures '(' in name ==> CleanPlayerName(name) == Strip(name[..IndexOf(name, '(')])
  {
    FirstPiece(name, '(');
  }

  /** Cleaning a cleaned name changes nothing. */
  lemma CleanPlayerNameIdempotent(name: string)
    ensures CleanPlayerName(CleanPlayerName(name)) == CleanPlayerName(name)
  {
    var r := CleanPlayerName(name);
    CleanPlayerNameShape(name);
    StripTrimmed(r);
  }

  /** A concrete name: the part in parentheses and the space before it are dropped. */
  lemma CleanPlayerNameExample()
    ensures CleanPlayerName("Pele (Edson)") == "Pele"
  {
    var name := "Pele (Edson)";
    CleanPlayerNameCut(name);
    PeleCut();
    StripPele();
  }

  lemma PeleCut()
    ensures var name := "Pele (Edson)"; '(' in name && name[..IndexOf(name, '(')] == "Pele "
  {
    var name := "Pele (Edson)";
    var piece := name[..5];
    assert piece == "Pele ";
    assert name[5] == '(' && '(' !in piece;
    var n := IndexOf(name, '(');
  }

  lemma StripPele()
    ensures Strip("Pele ") == "Pele"
  {
    var piece := "Pele ";
    assert !IsWhitespace(piece[0]);
    assert TrimStart(piece) == piece;
    assert IsWhitespace(piece[4]) && !IsWhitespace(piece[3]);
    assert piece[..4] == "Pele";
    assert TrimEnd(piece) == TrimEnd("Pele");
  }

  /** The rewritten players.json: same players, same order, only the names cleaned. */
  function CleanPlayers(players: seq<EnrichedPlayer>): (cleaned: seq<EnrichedPlayer>)
    ensures |cleaned| == |players|
    ensures forall i :: 0 <= i < |players| ==>
      cleaned[i] == players[i].(player := players[i].player.(playerName := CleanPlayerName(players[i].player.playerName)))
  {
    seq(|players|, i requires 0 <= i < |players| =>
      players[i].(player := players[i].player.(playerName := CleanPlayerName(players[i].player.playerName))))
  }

  /** Running clean_players twice gives the same file as running it once. */
  lemma CleanPlayersIdempotent(players: seq<EnrichedPlayer>)
    ensures CleanPlayers(CleanPlayers(players)) == CleanPlayers(players)
  {
    forall i | 0 <= i < |players| {
      CleanPlayerNameIdempotent(players[i].player.playerName);
    }
  }
}
