# lichess-export in Dafny

`lichess.py` exports all games of a lichess user. It pages through the user's
game list (`getGamesList`), fetches the PGN text of every listed game through
a request pool and appends the texts to one file (`downloadGamesToFile`,
`writePgn`). The file then gets one of two fates. It is moved to the output
name, with `.pgn` added unless the last dot-separated component of the
lower-cased name is `pgn`. Or it is converted into a
Scid database by `pgnscid`, unless that database already exists
(`createScidFromPgn`).

This project models that control core:

- `PyText.dfy` covers the Python string operations the core relies on. These
  are `str.format` with `{}` fields, `str(int)`, ASCII `str.lower`, and
  `str.split` / `str.join` on one character.
- `LichessUrls.dfy` holds the two URL builders.
- `GameLister.dfy` holds the paging loop of `getGamesList`. It is a method
  whose `while true` loop consumes the HTTP answers it is given, one per
  request. It is proved against the functions `Pass` (one loop pass),
  `RunPrefix` (the loop's state after its first answers) and `Run` (the whole
  run). Each pass is recorded as a `Round`: the page asked
  for, the status answered, the seconds slept and the batch yielded. Every
  property about sleeping, yielding, counting and stopping is proved over
  `Run`. A truthful listing service (`ServicePage`) ties these properties to
  the user's actual games.
- `GameDownloader.dfy` holds `downloadGamesToFile` as two loops that append
  to a `PgnFile` object, and `writePgn` as their composition. The pool's
  completion order is an input: for each batch, a rearrangement of its
  request indices.
- `OutputName.dfy` holds the `.pgn` suffix rule of the `pgn` mode, as written
  and as evidently intended.
- `ScidGuard.dfy` holds the "Scid base already exists" guard of
  `createScidFromPgn` over a set of existing paths.
- `ExportTarget.dfy` holds the final `pgn`/`scid` dispatch.

Two behaviours of the code are worth stating plainly:

- The lister does not treat a status other than 200 and 429 as an error. It
  asks for the same page again, with no sleep.
- The lister yields a batch for every 200 answer, even an empty one. The
  listing service `ServicePage` assumes that a user without games has one
  page, which is empty and has no next page. Under that assumption such a
  user gets one empty batch.

## Model

| member | source | states |
|---|---|---|
| LichessUrls.GamesListUrl | lichess.py:34-36 | The list URL is the template with the user name, the decimal page number and the decimal page size (default 100) substituted, in that order. |
| LichessUrls.ListUrlPagesDistinct | lichess.py:34-36 | For one user and page size, two list URLs are equal exactly when their page numbers are equal. |
| LichessUrls.GamePgnUrl | lichess.py:39-41 | The export URL is `https://en.lichess.org/game/export/` + id + `.pgn`. |
| LichessUrls.PgnUrlRoundTrip | lichess.py:39-41 | The game id can be read back from its export URL, so distinct games are fetched from distinct URLs. |
| PyText.DecimalRoundTrip | lichess.py:36 | Parsing `str(n)` gives back `n` for every integer, so the page number in a URL identifies the page. |
| PyText.JoinSplit | lichess.py:164 | Joining the pieces of `split('.')` with `.` restores the name. |
| PyText.LastPieceShape | lichess.py:164 | `split('.')[-1]` contains no dot. It is either the whole name, or the text after the name's last dot. |
| GameLister.PageIds | lichess.py:65 | One identifier per entry of `currentPageResults`, the `id` of that entry, in order. |
| GameLister.Pass | lichess.py:55-73 | One pass requests the current page and records the status. 429 sleeps `SLEEP_TIME`, yields nothing and keeps the state. 200 yields the page's ids, adds their number to `games_count`, and then either stops (null `nextPage`) or moves to the next page. Any other status yields nothing, does not sleep and keeps the state. |
| GameLister.Run | lichess.py:44-76 | A run never records more passes than there are answers. |
| GameLister.GetGamesList | lichess.py:44-76 | The loop yields `Batches` of the rounds `Run` records, in that order. It requests the list URL of each round's page. Its final count, finished flag and rounds are those of `Run`, and the count is the total number of identifiers yielded. |
| GameLister.RunPrefixIsRun | lichess.py:54-73 | Once the loop breaks on a last page, or has used every answer, the state and rounds it carried pass by pass are those of the whole run. |
| GameLister.RunPrefixBatches | lichess.py:66-67 | The batches the loop carries are exactly the batches of its rounds. |
| GameLister.RunPrefixCount | lichess.py:65-66 | `games_count` after any number of answers is the total length of the batches yielded so far. |
| GameLister.RoundsFollowResponses | lichess.py:54-67 | Each pass answers its response's status. 429 sleeps 60 seconds and yields nothing. 200 yields the ids of `currentPageResults` in order. Any other status yields nothing and does not sleep. |
| GameLister.PagesFollowBatches | lichess.py:52-73 | The page each pass requests is 1 plus the number of batches yielded before it, so pages go 1, 2, 3, … and none is skipped or revisited. |
| GameLister.CountMatchesBatches | lichess.py:51-73 | `games_count` equals the total length of the yielded batches. The page counter advances once per batch, except for the last batch when the loop stopped on it. |
| GameLister.StopsOnLastPage | lichess.py:69-71 | The loop finishes exactly when the last answer it used was a 200 with a null `nextPage`, and no earlier answer was one. An unfinished run used every answer. |
| GameLister.RateLimitedPageIsRetried | lichess.py:56-59 | A 429 yields no batch, sleeps `SLEEP_TIME`, and the next request is for the same page. |
| GameLister.OtherStatusIsRetried | lichess.py:54-60 | A status other than 200 and 429 yields no batch and does not sleep, and the next request is for the same page. |
| GameLister.OkPageAdvances | lichess.py:60-73 | A 200 followed by a further request yields exactly the page's ids, had a next page, and moves the request to the following page. |
| GameLister.ListsServicePages | lichess.py:44-76 | Against a listing service that answers every 200 truthfully, the batches yielded are a prefix of the user's pages. A finished run yields exactly the pages, and its identifiers are all the user's games in order. |
| GameDownloader.PgnFile.Open | lichess.py:87 | Opening with `"wb"` starts from an empty file. |
| GameDownloader.PgnFile.Write | lichess.py:94 | A write appends its text to the file and changes nothing else. |
| GameDownloader.PgnRequests | lichess.py:90 | One request per game of the batch: request `i` is the export URL of game `i`. |
| GameDownloader.Block | lichess.py:94 | What is written for one game is its text followed by exactly two newlines. |
| GameDownloader.AppendBatch | lichess.py:91-94 | The inner loop appends, in completion order, each fetched text followed by a blank line. |
| GameDownloader.DownloadGamesToFile | lichess.py:87-94 | The file is a new object. It holds the blocks of every batch in lister order. Within each batch, the blocks follow that batch's completion order. |
| GameDownloader.BatchIsPermutationOfRequests | lichess.py:90-94 | Whatever the completion order, a batch writes one block per game, and these blocks are a rearrangement of the blocks in request order. |
| GameDownloader.PermutedBlocks | lichess.py:91-94 | Reordering completions reorders the blocks written and nothing else. |
| GameDownloader.OutputIsPermutationOfIds | lichess.py:87-94 | The whole file has one block per listed identifier. These blocks are a rearrangement of the blocks of all identifiers in lister order. |
| GameDownloader.OutputFollowsBatchOrder | lichess.py:89-94 | Batches never interleave: the file for a run of batches is the file of its first batches followed by the file of the rest. |
| GameDownloader.WritePgn | lichess.py:100-101 | The file is a new object. The file written is the download of the batches the lister yields. |
| GameDownloader.ExportsEveryListedGame | lichess.py:100-101 | A finished export against a truthful listing holds exactly one block per game of the user. |
| GameDownloader.ThreeGamesScenario | lichess.py:44-101 | One 200 page with g1, g2, g3 and no next page yields the single batch `[g1, g2, g3]` and finishes. For any completion order, the file holds `[PGN g1]`, `[PGN g2]` and `[PGN g3]`, each once and each followed by a blank line. |
| OutputName.PgnOutputName | lichess.py:164-165 | The result is the name, or the name plus `.pgn`. Either way, the last dot-separated component of the lowered result is `pgn`. |
| OutputName.LastPieceIsPgn | lichess.py:164 | The last dot-separated component is `pgn` exactly when the lowered name is `pgn` or ends in `.pgn`. |
| OutputName.PgnOutputNameKeeps | lichess.py:164-165 | The name is kept exactly when, lowered, it is `pgn` or ends in `.pgn`. Otherwise `.pgn` is appended. |
| OutputName.PgnOutputNameIdempotent | lichess.py:164-165 | Applying the rule twice gives the result of applying it once. |
| OutputName.UpperCaseExtensionKept | lichess.py:164-165 | `FOO.PGN` is left unchanged. |
| OutputName.MissingExtensionAdded | lichess.py:164-165 | `foo` becomes `foo.pgn`. |
| OutputName.BareNameKeepsNoExtension | lichess.py:164-165 | The names `pgn` and `PGN` are kept as they are, so the saved file has no `.pgn` extension. |
| OutputName.CorrectedPgnOutputName | lichess.py:164-165 | The rule as intended: the result always ends in `.pgn` ignoring case, and it is the name itself exactly when the name already did. |
| OutputName.CorrectedPgnOutputNameIdempotent | lichess.py:164-165 | The intended rule is idempotent. |
| OutputName.RulesAgreeExceptBareName | lichess.py:164-165 | The written and intended rules agree on every name except those that lower to `pgn`. |
| ScidGuard.ConvertCommand | lichess.py:112-115 | The command is `pgnscid -f "<pgn>" "<scid>"`. |
| ScidGuard.CreateScidFromPgn | lichess.py:104-119 | It refuses exactly when `.si4`, `.sg4` or `.sn4` of the base exists, and then runs and removes nothing. Otherwise it runs the conversion command and removes the PGN file unless it is to be kept. |
| ScidGuard.GuardSeesOnlyBasePaths | lichess.py:106-108 | The decision depends only on whether the three database paths exist. |
| ScidGuard.GuardMonotone | lichess.py:106-110 | More files on disk can only turn a conversion into a refusal. |
| ScidGuard.ExistingIndexStopsConversion | lichess.py:106-110 | When `out.si4` exists, converting into `out` stops before the converter runs and keeps the PGN file. |
| ExportTarget.FinishExport | lichess.py:163-171 | `pgn` moves the file to `PgnOutputName(output)`. `scid` passes the file to `CreateScidFromPgn` with `is_save_pgn` false, which converts it and removes it unless the database already exists. Any other type is an error. |
| ExportTarget.PgnModeDestination | lichess.py:163-166 | In `pgn` mode, the file is moved to the output name itself when, lower-cased, it is `pgn` or ends in `.pgn`, and to the name plus `.pgn` otherwise. |
| ExportTarget.PgnModeFoo | lichess.py:163-166 | In `pgn` mode, output `foo` is saved as `foo.pgn`. |

## Left out

- HTTP is not modelled: `requests.get`, `grequests`, `r.json()` and the JSON decoding of a page. Listing answers are input records, and the export endpoint is a function from URL to the text it serves. The source assumes every export request succeeds.
- The lister's infinite retrying is bounded by its input. The loop is given a finite sequence of answers. When they run out before a last page, the run ends unfinished, where the program would keep asking.
- The lazy interleaving of the generator with the downloads is not modelled. `WritePgn` lists first and downloads afterwards. The file contents are the same, because the lister never reads the file.
- Concurrency is reduced to input. The pool size `thread_count` and the timing of `async.imap` are absent; only the per-batch completion order is an input.
- `time.sleep` is recorded as the seconds slept in each round, and is never performed. Logging is left out.
- Connection release (`release_conn`) is left out. It is resource plumbing.
- The UTF-8 encoding of the written text is left out. The file is a string of characters.
- The temporary file name, `shutil.move`, `os.system` and `os.remove` are left out. They are file-system and process effects. The model keeps the decision: the destination, or the command and the file to remove.
- Argument parsing and logging set-up (lichess.py:122-157) are left out, including the lower-casing of the user name.
- `str.lower` is modelled on ASCII letters only. `str.format` is modelled for `{}` fields only, without brace escapes.
- GameDownloader.AppendBatch is the inner loop of `downloadGamesToFile`, written as a method of its own. Its state changes are the same as the inlined loop's.

## Findings

| source | as written | input that shows it | evidently intended | confidence | as-written member | corrected member |
|---|---|---|---|---|---|---|
| lichess.py:164-165 | `.pgn` is appended when `output.lower().split('.')[-1] != 'pgn'` | `--type pgn --output pgn`: the name has no dot, so its last component is `pgn` itself, and the file is saved as `pgn` without an extension | append `.pgn` unless the name already ends in `.pgn`, ignoring case | low, not executed | OutputName.BareNameKeepsNoExtension | OutputName.CorrectedPgnOutputName |
