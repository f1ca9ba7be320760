/**
 * Stage 06, generate_public_data: the records the game downloads. players.json
 * holds every player with at least one top-league and one top-ranked transfer and a
 * best value of 10 000 000 or more; top_players.json holds every top player.
 */
module PublicData {
  import opened Wrappers
  import opened Records
  import opened Strings
  import opened TopPlayers

  /** The dictionary make_player_dict builds. */
  datatype PublicPlayer = PublicPlayer(
    id: PlayerId,
    slug: string,
    name: string,
    image: Option<string>,
    citizenship: string,
    position: string,
    dateOfBirth: string,
    clubIds: seq<Option<ClubId>>)

  const DefaultImage: string := "default.jpg"

  /** The file name of the image URL (its last "/" piece); None for the placeholder image. */
  function ImageName(url: string): Option<string>
  {
    var last := LastPieceOf(url, '/');
    if last != DefaultImage then Some(last) else None
  }

  /** The image is never the placeholder, has no "/" and is what follows the URL's last "/". */
  lemma ImageNameShape(url: string)
    ensures ImageName(url) != Some(DefaultImage)
    ensures ImageName(url).Some? ==> var name := ImageName(url).value;
      '/' !in name && |name| <= |url| && url[|url| - |name|..] == name
      && (|name| == |url| || url[|url| - |name| - 1] == '/')
  {
    LastPiece(url, '/');
    var r := LastPieceOf(url, '/');
    if r != DefaultImage {
      assert ImageName(url).value == r;
      assert '/' !in r;
    }
  }

  /** An URL ending in "/default.jpg" has no image. */
  lemma DefaultImageDropped(prefix: string)
    requires '/' !in prefix
    ensures ImageName(prefix + "/" + DefaultImage) == None
  {
    var url := prefix + "/" + DefaultImage;
    LastPiece(url, '/');
    var r := LastPieceOf(url, '/');
    assert url[|prefix|] == '/';
    assert url[|prefix| + 1..] == DefaultImage;
    assert r == url[|url| - |DefaultImage|..];
  }

  function MakePlayerDict(p: EnrichedPlayer): (d: PublicPlayer)
    ensures d.id == p.player.playerId && d.slug == p.player.playerSlug && d.name == p.player.playerName
    ensures d.image == ImageName(p.player.playerImageUrl) && d.clubIds == p.clubIds
    ensures d.citizenship == p.player.citizenship && d.position == p.player.position
    ensures d.dateOfBirth == p.player.dateOfBirth
  {
    PublicPlayer(
      p.player.playerId,
      p.player.playerSlug,
      p.player.playerName,
      ImageName(p.player.playerImageUrl),
      p.player.citizenship,
      p.player.position,
      p.player.dateOfBirth,
      p.clubIds)
  }

  /** The condition of write_players_json. */
  predicate IsPublicPlayer(p: EnrichedPlayer)
  {
    p.topLeagueTransfers >= 1 && p.topRankedTransfers >= 1 && p.maxValueAtTransfer >= 10_000_000
  }

  /** public/players.json */
  function PublicPlayers(players: seq<EnrichedPlayer>): seq<PublicPlayer>
  {
    if players == [] then []
    else
      var last := players[|players| - 1];
      PublicPlayers(players[..|players| - 1]) + (if IsPublicPlayer(last) then [MakePlayerDict(last)] else [])
  }

  /** public/top_players.json: every top player, in order. */
  function PublicTopPlayers(top: seq<EnrichedPlayer>): seq<PublicPlayer>
  {
    seq(|top|, i requires 0 <= i < |top| => MakePlayerDict(top[i]))
  }

  /** A public record comes from a qualifying player, and every qualifying player has one. */
  lemma {:induction false} PublicPlayersMembers(players: seq<EnrichedPlayer>, d: PublicPlayer)
    ensures d in PublicPlayers(players) <==> exists p :: p in players && IsPublicPlayer(p) && d == MakePlayerDict(p)
  {
    if players != [] {
      var init := players[..|players| - 1];
      PublicPlayersMembers(init, d);
      assert players == init + [players[|players| - 1]];
    }
  }

  /** The public list keeps file order: it distributes over concatenation. */
  lemma {:induction false} PublicPlayersAppend(a: seq<EnrichedPlayer>, b: seq<EnrichedPlayer>)
    ensures PublicPlayers(a + b) == PublicPlayers(a) + PublicPlayers(b)
  {
    if b == [] {
      assert a + b == a;
    } else {
      var n := |b| - 1;
      PublicPlayersAppend(a, b[..n]);
      assert (a + b)[..|a + b| - 1] == a + b[..n];
    }
  }

  /** A consistently enriched top player passes the (weaker) public condition. */
  lemma TopPlayerIsPublic(p: EnrichedPlayer)
    requires RatesConsistent(p) && Judge(p) == Selected
    ensures IsPublicPlayer(p)
  {
  }

  /** Hence every record of top_players.json is also a record of players.json. */
  lemma TopPlayersArePublic(players: seq<EnrichedPlayer>, d: PublicPlayer)
    requires forall i :: 0 <= i < |players| ==> RatesConsistent(players[i])
    requires d in PublicTopPlayers(SelectTop(players))
    ensures d in PublicPlayers(players)
  {
    var top := SelectTop(players);
    var i :| 0 <= i < |top| && PublicTopPlayers(top)[i] == d;
    SelectTopMembers(players, top[i]);
    var k :| 0 <= k < |players| && players[k] == top[i];
    TopPlayerIsPublic(players[k]);
    PublicPlayersMembers(players, d);
  }
}
