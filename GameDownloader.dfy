/** The game fetcher: `downloadGamesToFile` takes the batches of the lister in
    order, requests the PGN export of every game of a batch through a pool, and
    appends each text that comes back, followed by a blank line, to one file.
    The pool's completion order is given per batch; the export endpoint is a
    function from URL to the text it serves. */
module GameDownloader {
  import opened LichessUrls
  import opened GameLister
  import opened PyText

  /** The output file, opened for writing: it starts empty and each `write`
      appends. */
  class PgnFile {
    var contents: string

    /** `open(file_name, "wb")`: an existing file is truncated. */
    constructor Open()
      ensures contents == []
    {
      contents := [];
    }

    /** `file_pgn.write(...)`. */
    method Write(text: string)
      modifies this
      ensures contents == old(contents) + text
    {
      contents := contents + text;
    }
  }

  /** What is written for one fetched game: its text and a blank line. */
  function Block(text: string): (block: string)
    ensures |block| == |text| + 2 && block[..|text|] == text && block[|text|..] == "\n\n"
  {
    text + "\n\n"
  }

  function Indices(n: nat): (r: seq<nat>)
    ensures |r| == n && forall i :: 0 <= i < n ==> r[i] == i
  {
    seq(n, i requires 0 <= i < n => i)
  }

  /** An order in which the pool can hand back the `n` requests of a batch: a
      rearrangement of `0 .. n - 1`, so that each request comes back once. */
  predicate IsCompletionOrder(order: seq<nat>, n: nat)
  {
    multiset(order) == multiset(Indices(n))
  }

  lemma CompletionOrderInRange(order: seq<nat>, n: nat)
    requires IsCompletionOrder(order, n)
    ensures |order| == n
    ensures forall k :: 0 <= k < |order| ==> order[k] < n
  {
    assert |multiset(order)| == |multiset(Indices(n))|;
    forall k | 0 <= k < |order| ensures order[k] < n {
      assert order[k] in multiset(order);
      assert order[k] in multiset(Indices(n));
    }
  }

  /** `[async.get(getGamePgnUrl(game_id)) for game_id in chunk]`: the URLs requested
      for one batch, one per game, in the batch's order. */
  function PgnRequests(chunk: seq<string>): (reqs: seq<string>)
    ensures |reqs| == |chunk|
    ensures forall i :: 0 <= i < |chunk| ==> reqs[i] == GamePgnUrl(chunk[i])
  {
    seq(|chunk|, i requires 0 <= i < |chunk| => GamePgnUrl(chunk[i]))
  }

  /** The blocks written for one batch, taking its requests in the order given
      (an index outside the batch, which no completion order holds, writes
      nothing). */
  function BatchBlocks(reqs: seq<string>, order: seq<nat>, exportText: string -> string): (blocks: seq<string>)
  {
    seq(|order|, k requires 0 <= k < |order| => BlockAt(reqs, order[k], exportText))
  }

  function BlockAt(reqs: seq<string>, i: nat, exportText: string -> string): string
  {
    if i < |reqs| then Block(exportText(reqs[i])) else []
  }

  /** The blocks of a list of games taken in request order. */
  function RequestBlocks(ids: seq<string>, exportText: string -> string): seq<string>
  {
    seq(|ids|, i requires 0 <= i < |ids| => Block(exportText(GamePgnUrl(ids[i]))))
  }

  /** Whether `orders` gives a completion order for each batch. */
  predicate OrdersFit(batches: seq<seq<string>>, orders: seq<seq<nat>>)
  {
    |orders| == |batches| && forall b :: 0 <= b < |batches| ==> IsCompletionOrder(orders[b], |batches[b]|)
  }

  /** The blocks of each batch, in the lister's order of the batches. */
  function PerBatchBlocks(batches: seq<seq<string>>, orders: seq<seq<nat>>, exportText: string -> string): seq<seq<string>>
    requires |orders| == |batches|
  {
    seq(|batches|, b requires 0 <= b < |batches| => BatchBlocks(PgnRequests(batches[b]), orders[b], exportText))
  }

  /** Every block written, batch after batch. */
  function AllBlocks(batches: seq<seq<string>>, orders: seq<seq<nat>>, exportText: string -> string): seq<string>
    requires |orders| == |batches|
  {
    Flatten(PerBatchBlocks(batches, orders, exportText))
  }

  /** The blocks of the first `b + 1` batches: those of the first `b`, then
      those of batch `b`. */
  lemma AllBlocksPrefixStep(batches: seq<seq<string>>, orders: seq<seq<nat>>, b: nat, exportText: string -> string)
    requires |orders| == |batches| && b < |batches|
    ensures AllBlocks(batches[..b + 1], orders[..b + 1], exportText)
            == AllBlocks(batches[..b], orders[..b], exportText)
               + BatchBlocks(PgnRequests(batches[b]), orders[b], exportText)
  {
    var last := BatchBlocks(PgnRequests(batches[b]), orders[b], exportText);
    assert PerBatchBlocks(batches[..b + 1], orders[..b + 1], exportText)
           == PerBatchBlocks(batches[..b], orders[..b], exportText) + [last];
    FlattenSnoc(PerBatchBlocks(batches[..b], orders[..b], exportText), last);
  }

  /** Taking one more request of a batch adds its block at the end. */
  lemma BatchBlocksStep(written: string, reqs: seq<string>, order: seq<nat>, k: nat, exportText: string -> string)
    requires k < |order| && order[k] < |reqs|
    ensures written + Flatten(BatchBlocks(reqs, order[..k + 1], exportText))
            == (written + Flatten(BatchBlocks(reqs, order[..k], exportText))) + (exportText(reqs[order[k]]) + "\n\n")
  {
    var block := Block(exportText(reqs[order[k]]));
    assert BatchBlocks(reqs, order[..k + 1], exportText) == BatchBlocks(reqs, order[..k], exportText) + [block];
    FlattenSnoc(BatchBlocks(reqs, order[..k], exportText), block);
  }

  /** The text of the first `b + 1` batches extends that of the first `b` by the
      text of batch `b`. */
  lemma WrittenAfterBatch(batches: seq<seq<string>>, orders: seq<seq<nat>>, b: nat, exportText: string -> string)
    requires |orders| == |batches| && b < |batches|
    ensures Flatten(AllBlocks(batches[..b + 1], orders[..b + 1], exportText))
            == Flatten(AllBlocks(batches[..b], orders[..b], exportText))
               + Flatten(BatchBlocks(PgnRequests(batches[b]), orders[b], exportText))
  {
    AllBlocksPrefixStep(batches, orders, b, exportText);
    FlattenAppend(AllBlocks(batches[..b], orders[..b], exportText),
                 BatchBlocks(PgnRequests(batches[b]), orders[b], exportText));
  }

  lemma OrdersFitPrefix(batches: seq<seq<string>>, orders: seq<seq<nat>>, n: nat)
    requires OrdersFit(batches, orders) && n <= |batches|
    ensures OrdersFit(batches[..n], orders[..n])
  {
  }

  /** The inner loop of `downloadGamesToFile`: the requests of one batch come
      back from the pool in the order given, and each text is appended to the
      file with a blank line. */
  method AppendBatch(filePgn: PgnFile, reqs: seq<string>, order: seq<nat>, exportText: string -> string)
    requires forall j :: 0 <= j < |order| ==> order[j] < |reqs|
    modifies filePgn
    ensures filePgn.contents == old(filePgn.contents) + Flatten(BatchBlocks(reqs, order, exportText))
  {
    ghost var written := filePgn.contents;
    for k := 0 to |order|
      invariant filePgn.contents == written + Flatten(BatchBlocks(reqs, order[..k], exportText))
    {
      var req := reqs[order[k]];
      BatchBlocksStep(written, reqs, order, k, exportText);
      filePgn.Write(exportText(req) + "\n\n");
    }
    assert order[..|order|] == order;
  }

  /** `downloadGamesToFile(game_ids, file_name, thread_count)`: the file is
      opened once; the batches are taken in the lister's order, and the next
      batch is requested only once every request of the current one is back. */
  method DownloadGamesToFile(gameIds: seq<seq<string>>, completion: seq<seq<nat>>, exportText: string -> string)
    returns (filePgn: PgnFile)
    requires OrdersFit(gameIds, completion)
    ensures fresh(filePgn)
    ensures filePgn.contents == Flatten(AllBlocks(gameIds, completion, exportText))
  {
    filePgn := new PgnFile.Open();
    for b := 0 to |gameIds|
      invariant filePgn.contents == Flatten(AllBlocks(gameIds[..b], completion[..b], exportText))
    {
      var chunk := gameIds[b];
      var reqs := PgnRequests(chunk);
      WrittenAfterBatch(gameIds, completion, b, exportText);
      CompletionOrderInRange(completion[b], |chunk|);
      AppendBatch(filePgn, reqs, completion[b], exportText);
    }
    assert gameIds[..|gameIds|] == gameIds && completion[..|completion|] == completion;
  }

  // ---------------------------------------------------------------------------
  // Properties of the output

  /** Taking the same element out of two equal multisets leaves equal multisets. */
  lemma RemoveMatching(a: seq<nat>, b: seq<nat>, j: nat)
    requires a != [] && j < |b| && b[j] == a[0] && multiset(a) == multiset(b)
    ensures multiset(a[1..]) == multiset(b[..j] + b[j + 1..])
  {
    var x := a[0];
    var rest := multiset(b[..j] + b[j + 1..]);
    assert a == [x] + a[1..];
    assert b == b[..j] + [x] + b[j + 1..];
    assert multiset(a) == multiset([x]) + multiset(a[1..]);
    assert multiset(b) == multiset([x]) + rest;
    forall y ensures multiset(a[1..])[y] == rest[y] {
      assert multiset(a)[y] == multiset([x])[y] + multiset(a[1..])[y];
      assert multiset(b)[y] == multiset([x])[y] + rest[y];
    }
  }

  /** `f` applied along an order of indices. */
  function MapOrder(f: nat -> string, order: seq<nat>): seq<string>
  {
    seq(|order|, k requires 0 <= k < |order| => f(order[k]))
  }

  lemma MapOrderAround(f: nat -> string, b: seq<nat>, j: nat)
    requires j < |b|
    ensures multiset(MapOrder(f, b)) == multiset([f(b[j])]) + multiset(MapOrder(f, b[..j] + b[j + 1..]))
  {
    var left, right := MapOrder(f, b[..j]), MapOrder(f, b[j + 1..]);
    assert MapOrder(f, b) == left + [f(b[j])] + right;
    assert MapOrder(f, b[..j] + b[j + 1..]) == left + right;
  }

  /** Mapping two rearrangements of each other gives two rearrangements. */
  lemma {:induction false} PermutedMapOrder(f: nat -> string, a: seq<nat>, b: seq<nat>)
    requires multiset(a) == multiset(b)
    ensures multiset(MapOrder(f, a)) == multiset(MapOrder(f, b))
    decreases |a|
  {
    if a == [] {
      assert |multiset(b)| == 0;
    } else {
      var j := FindMatching(a, b);
      PermutedMapOrder(f, a[1..], b[..j] + b[j + 1..]);
      MapOrderAround(f, b, j);
      MapOrderAround(f, a, 0);
      assert a[..0] + a[1..] == a[1..];
    }
  }

  /** Where the first element of `a` sits in a rearrangement `b`, and what is
      left of both without it. */
  lemma FindMatching(a: seq<nat>, b: seq<nat>) returns (j: nat)
    requires a != [] && multiset(a) == multiset(b)
    ensures j < |b| && b[j] == a[0]
    ensures multiset(a[1..]) == multiset(b[..j] + b[j + 1..])
  {
    assert a[0] in multiset(b);
    j :| 0 <= j < |b| && b[j] == a[0];
    RemoveMatching(a, b, j);
  }

  /** Rearranging the order in which requests come back rearranges the blocks
      written, and nothing else. */
  lemma PermutedBlocks(reqs: seq<string>, a: seq<nat>, b: seq<nat>, exportText: string -> string)
    requires multiset(a) == multiset(b)
    ensures multiset(BatchBlocks(reqs, a, exportText)) == multiset(BatchBlocks(reqs, b, exportText))
  {
    var f := (i: nat) => BlockAt(reqs, i, exportText);
    PermutedMapOrder(f, a, b);
    assert BatchBlocks(reqs, a, exportText) == MapOrder(f, a);
    assert BatchBlocks(reqs, b, exportText) == MapOrder(f, b);
  }

  /** Within a batch, whatever order the pool completes in, the blocks written
      are the batch's texts, each exactly once: a rearrangement of the blocks in
      request order. */
  lemma BatchIsPermutationOfRequests(chunk: seq<string>, order: seq<nat>, exportText: string -> string)
    requires IsCompletionOrder(order, |chunk|)
    ensures |BatchBlocks(PgnRequests(chunk), order, exportText)| == |chunk|
    ensures multiset(BatchBlocks(PgnRequests(chunk), order, exportText)) == multiset(RequestBlocks(chunk, exportText))
  {
    CompletionOrderInRange(order, |chunk|);
    var reqs := PgnRequests(chunk);
    PermutedBlocks(reqs, order, Indices(|chunk|), exportText);
    assert BatchBlocks(reqs, Indices(|chunk|), exportText) == RequestBlocks(chunk, exportText);
  }

  lemma RequestBlocksAppend(u: seq<string>, v: seq<string>, exportText: string -> string)
    ensures RequestBlocks(u + v, exportText) == RequestBlocks(u, exportText) + RequestBlocks(v, exportText)
  {
    assert forall k :: 0 <= k < |u + v| ==> (u + v)[k] == if k < |u| then u[k] else v[k - |u|];
  }

  /** Over the whole run, every identifier the lister yielded contributes exactly
      one block: the blocks written are a rearrangement of the blocks of all
      identifiers in lister order. */
  lemma {:induction false} OutputIsPermutationOfIds(batches: seq<seq<string>>, orders: seq<seq<nat>>, exportText: string -> string)
    requires OrdersFit(batches, orders)
    ensures |AllBlocks(batches, orders, exportText)| == |Flatten(batches)|
    ensures multiset(AllBlocks(batches, orders, exportText)) == multiset(RequestBlocks(Flatten(batches), exportText))
    decreases |batches|
  {
    if batches == [] {
      assert PerBatchBlocks(batches, orders, exportText) == [];
    } else {
      var n := |batches| - 1;
      var front := AllBlocks(batches[..n], orders[..n], exportText);
      var last := BatchBlocks(PgnRequests(batches[n]), orders[n], exportText);
      AllBlocksUnfold(batches, orders, n, exportText);
      assert |front| == |Flatten(batches[..n])|
             && multiset(front) == multiset(RequestBlocks(Flatten(batches[..n]), exportText)) by {
        OrdersFitPrefix(batches, orders, n);
        OutputIsPermutationOfIds(batches[..n], orders[..n], exportText);
      }
      BatchIsPermutationOfRequests(batches[n], orders[n], exportText);
      RequestBlocksAppend(Flatten(batches[..n]), batches[n], exportText);
      assert Flatten(batches) == Flatten(batches[..n]) + batches[n];
    }
  }

  lemma OrdersFitAppend(b1: seq<seq<string>>, o1: seq<seq<nat>>, b2: seq<seq<string>>, o2: seq<seq<nat>>)
    requires OrdersFit(b1, o1) && OrdersFit(b2, o2)
    ensures OrdersFit(b1 + b2, o1 + o2)
  {
    forall b | 0 <= b < |b1 + b2| ensures IsCompletionOrder((o1 + o2)[b], |(b1 + b2)[b]|) {
      if b < |b1| {
        assert (o1 + o2)[b] == o1[b] && (b1 + b2)[b] == b1[b];
      } else {
        assert (o1 + o2)[b] == o2[b - |b1|] && (b1 + b2)[b] == b2[b - |b1|];
      }
    }
  }

  lemma AllBlocksUnfold(batches: seq<seq<string>>, orders: seq<seq<nat>>, n: nat, exportText: string -> string)
    requires |orders| == |batches| && n + 1 == |batches|
    ensures AllBlocks(batches, orders, exportText)
            == AllBlocks(batches[..n], orders[..n], exportText) + BatchBlocks(PgnRequests(batches[n]), orders[n], exportText)
  {
    AllBlocksPrefixStep(batches, orders, n, exportText);
    assert batches[..n + 1] == batches && orders[..n + 1] == orders;
  }

  /** The blocks of a run of batches are those of its first batches followed by
      those of the rest. */
  lemma AllBlocksAppend(b1: seq<seq<string>>, o1: seq<seq<nat>>,
                        b2: seq<seq<string>>, o2: seq<seq<nat>>,
                        exportText: string -> string)
    requires |o1| == |b1| && |o2| == |b2|
    ensures AllBlocks(b1 + b2, o1 + o2, exportText) == AllBlocks(b1, o1, exportText) + AllBlocks(b2, o2, exportText)
  {
    var p1, p2 := PerBatchBlocks(b1, o1, exportText), PerBatchBlocks(b2, o2, exportText);
    assert PerBatchBlocks(b1 + b2, o1 + o2, exportText) == p1 + p2;
    FlattenAppend(p1, p2);
  }

  /** Batches are never interleaved: the file written for a run is the file for
      its first batches followed by the file for the rest. */
  lemma OutputFollowsBatchOrder(b1: seq<seq<string>>, o1: seq<seq<nat>>,
                                b2: seq<seq<string>>, o2: seq<seq<nat>>,
                                exportText: string -> string)
    requires OrdersFit(b1, o1) && OrdersFit(b2, o2)
    ensures OrdersFit(b1 + b2, o1 + o2)
    ensures Flatten(AllBlocks(b1 + b2, o1 + o2, exportText))
            == Flatten(AllBlocks(b1, o1, exportText)) + Flatten(AllBlocks(b2, o2, exportText))
  {
    OrdersFitAppend(b1, o1, b2, o2);
    AllBlocksAppend(b1, o1, b2, o2, exportText);
    FlattenAppend(AllBlocks(b1, o1, exportText), AllBlocks(b2, o2, exportText));
  }

  // ---------------------------------------------------------------------------
  // writePgn

  /** `writePgn(user_name, file_name, thread_count)`: the lister's batches fed to
      the fetcher. The generator is consumed lazily in the source; since the
      lister never looks at the file, listing first and then fetching writes
      the same contents. */
  method WritePgn(userName: string, responses: seq<ListResponse>, completion: seq<seq<nat>>,
                  exportText: string -> string)
    returns (filePgn: PgnFile)
    requires OrdersFit(Batches(Run(Initial, responses).1), completion)
    ensures fresh(filePgn)
    ensures filePgn.contents == Flatten(AllBlocks(Batches(Run(Initial, responses).1), completion, exportText))
  {
    var batches, urls, rounds, gamesCount, finished := GetGamesList(userName, responses);
    filePgn := DownloadGamesToFile(batches, completion, exportText);
  }

  /** A finished export of a truthful listing holds one block per game of the
      user and nothing else, whatever the pool's completion orders. */
  lemma ExportsEveryListedGame(pages: seq<seq<string>>, responses: seq<ListResponse>,
                               completion: seq<seq<nat>>, exportText: string -> string)
    requires Truthful(pages, Initial, responses) && Run(Initial, responses).0.finished
    requires OrdersFit(Batches(Run(Initial, responses).1), completion)
    ensures multiset(AllBlocks(Batches(Run(Initial, responses).1), completion, exportText))
            == multiset(RequestBlocks(Flatten(pages), exportText))
  {
    ListsServicePages(pages, responses);
    OutputIsPermutationOfIds(Batches(Run(Initial, responses).1), completion, exportText);
  }

  lemma RequestBlocksOfThree(ids: seq<string>, t1: string, t2: string, t3: string, exportText: string -> string)
    requires |ids| == 3
    requires exportText(GamePgnUrl(ids[0])) == t1
    requires exportText(GamePgnUrl(ids[1])) == t2
    requires exportText(GamePgnUrl(ids[2])) == t3
    ensures RequestBlocks(ids, exportText) == [Block(t1), Block(t2), Block(t3)]
  {
  }

  /** One 200 page with three games and no next page is listed as one batch. */
  lemma ThreeGamesListed()
    ensures Run(Initial, [ListResponse(OkStatusCode, PageBody(Entries(["g1", "g2", "g3"]), None))]).0.finished
    ensures Batches(Run(Initial, [ListResponse(OkStatusCode, PageBody(Entries(["g1", "g2", "g3"]), None))]).1)
            == [["g1", "g2", "g3"]]
  {
    var ids := ["g1", "g2", "g3"];
    var body := PageBody(Entries(ids), None);
    assert PageIds(body) == ids;
    var r := Run(Initial, [ListResponse(OkStatusCode, body)]);
    assert r.1 == [Round(1, OkStatusCode, 0, Some(ids))];
    BatchesSnoc([], r.1[0]);
    assert [] + [r.1[0]] == r.1;
  }

  /** A user with three games on one page: whatever order the three
      exports complete in, the file holds each text once, with its blank line. */
  lemma ThreeGamesScenario(order: seq<nat>, exportText: string -> string)
    requires IsCompletionOrder(order, 3)
    requires exportText(GamePgnUrl("g1")) == "[PGN g1]"
    requires exportText(GamePgnUrl("g2")) == "[PGN g2]"
    requires exportText(GamePgnUrl("g3")) == "[PGN g3]"
    ensures Run(Initial, [ListResponse(OkStatusCode, PageBody(Entries(["g1", "g2", "g3"]), None))]).0.finished
    ensures Batches(Run(Initial, [ListResponse(OkStatusCode, PageBody(Entries(["g1", "g2", "g3"]), None))]).1)
            == [["g1", "g2", "g3"]]
    ensures OrdersFit([["g1", "g2", "g3"]], [order])
    ensures multiset(AllBlocks([["g1", "g2", "g3"]], [order], exportText))
            == multiset{Block("[PGN g1]"), Block("[PGN g2]"), Block("[PGN g3]")}
  {
    var ids := ["g1", "g2", "g3"];
    ThreeGamesListed();
    assert OrdersFit([ids], [order]);
    OutputIsPermutationOfIds([ids], [order], exportText);
    assert Flatten([ids]) == ids by {
      assert Flatten([ids]) == Flatten([]) + ids;
    }
    RequestBlocksOfThree(ids, "[PGN g1]", "[PGN g2]", "[PGN g3]", exportText);
  }
}
