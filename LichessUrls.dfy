/** The two request URLs of the exporter: the paginated game list of a user and
    the PGN export of one game. Both are `str.format` on a fixed template. */
module LichessUrls {
  import opened PyText

  const ListUrlPrefix: string := "https://en.lichess.org/api/user/"
  const ListUrlPage: string := "/games?page="
  const ListUrlSize: string := "&nb="
  const PgnUrlPrefix: string := "https://en.lichess.org/game/export/"
  const PgnUrlSuffix: string := ".pgn"

  /** "https://en.lichess.org/api/user/{}/games?page={}&nb={}", written as its
      literal pieces around the three fields. */
  const ListUrlTemplate: string := ListUrlPrefix + "{}" + ListUrlPage + "{}" + ListUrlSize + "{}"
  /** "https://en.lichess.org/game/export/{}.pgn" */
  const PgnUrlTemplate: string := PgnUrlPrefix + "{}" + PgnUrlSuffix

  /** Page size asked of the listing API when the caller gives none. */
  const DefaultBlockSize: int := 100

  /** `getGamesListUrl(user_name, page, block_size=100)`: the template with the
      user, the page number and the page size substituted, in that order. */
  function GamesListUrl(userName: string, page: int, blockSize: int := DefaultBlockSize): (url: string)
    ensures url == ListUrlPrefix + userName + ListUrlPage + IntDecimal(page)
                   + ListUrlSize + IntDecimal(blockSize)
  {
    FormatThreeFields(ListUrlTemplate, ListUrlPrefix, ListUrlPage, ListUrlSize, "",
                      userName, IntDecimal(page), IntDecimal(blockSize));
    Format(ListUrlTemplate, [userName, IntDecimal(page), IntDecimal(blockSize)]).value
  }

  /** Two list requests of one user and page size differ exactly when their pages do. */
  lemma ListUrlPagesDistinct(userName: string, p: int, q: int, blockSize: int)
    ensures GamesListUrl(userName, p, blockSize) == GamesListUrl(userName, q, blockSize) <==> p == q
  {
    if GamesListUrl(userName, p, blockSize) == GamesListUrl(userName, q, blockSize) {
      MiddleEqual(ListUrlPrefix + userName + ListUrlPage, IntDecimal(p), IntDecimal(q),
                  ListUrlSize, IntDecimal(blockSize));
      DecimalInjective(p, q);
    }
  }

  lemma MiddleEqual(head: string, x: string, y: string, sep: string, tail: string)
    requires head + x + sep + tail == head + y + sep + tail
    ensures x == y
  {
    assert |x| == |y|;
    assert x == (head + x + sep + tail)[|head|..|head| + |x|];
  }

  /** `getGamePgnUrl(game_id)`: the export endpoint of one game. */
  function GamePgnUrl(gameId: string): (url: string)
    ensures url == PgnUrlPrefix + gameId + PgnUrlSuffix
  {
    FormatOneField(PgnUrlTemplate, PgnUrlPrefix, PgnUrlSuffix, gameId);
    Format(PgnUrlTemplate, [gameId]).value
  }

  /** The game identifier named by an export URL, if the URL has the export shape. */
  function GameIdOfPgnUrl(url: string): Option<string>
  {
    if |url| >= |PgnUrlPrefix| + |PgnUrlSuffix|
       && url[..|PgnUrlPrefix|] == PgnUrlPrefix
       && url[|url| - |PgnUrlSuffix|..] == PgnUrlSuffix
    then Some(url[|PgnUrlPrefix|..|url| - |PgnUrlSuffix|])
    else None
  }

  /** Round trip: the export URL of a game names that game, so distinct games are
      fetched from distinct URLs. */
  lemma PgnUrlRoundTrip(gameId: string)
    ensures GameIdOfPgnUrl(GamePgnUrl(gameId)) == Some(gameId)
  {
    var url := GamePgnUrl(gameId);
    assert url[..|PgnUrlPrefix|] == PgnUrlPrefix;
    assert url[|url| - |PgnUrlSuffix|..] == PgnUrlSuffix;
    assert url[|PgnUrlPrefix|..|url| - |PgnUrlSuffix|] == gameId;
  }
}
