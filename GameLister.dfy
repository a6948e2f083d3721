/** The game-identifier lister: `getGamesList` walks the paginated listing API of
    one user, retrying on rate limiting, and yields one batch of identifiers per
    page. The HTTP layer is abstracted into the sequence of responses the server
    gives, one per request, in request order. */
module GameLister {
  import opened PyText
  import opened LichessUrls

  /** The status that makes the lister sleep and ask again (`SLEEP_STATUS_CODE`). */
  const SleepStatusCode: int := 429
  /** Seconds slept after a rate-limited answer (`SLEEP_TIME`). */
  const SleepTime: nat := 60
  const OkStatusCode: int := 200

  /** One object of `currentPageResults`; only its `id` is read. */
  datatype GameEntry = GameEntry(id: string)

  /** The JSON body of a successful listing response. */
  datatype PageBody = PageBody(currentPageResults: seq<GameEntry>, nextPage: Option<int>)

  /** One answer of the listing API; the body is read only when the status is 200. */
  datatype ListResponse = ListResponse(statusCode: int, body: PageBody)

  /** What one pass through the body of the `while True` loop did: the page it
      asked for, the status it got back, how long it slept, and the batch it
      yielded, if any. */
  datatype Round = Round(page: int, statusCode: int, sleptSeconds: nat, batch: Option<seq<string>>)

  /** The generator's local state between two requests. */
  datatype ListerState = ListerState(curPageInd: int, gamesCount: int, finished: bool)

  /** `games_count = 0`, `cur_page_ind = 1`. */
  const Initial: ListerState := ListerState(1, 0, false)

  /** `[game['id'] for game in r_json["currentPageResults"]]`. */
  function PageIds(body: PageBody): (ids: seq<string>)
    ensures |ids| == |body.currentPageResults|
    ensures forall i :: 0 <= i < |ids| ==> ids[i] == body.currentPageResults[i].id
  {
    seq(|body.currentPageResults|, i requires 0 <= i < |body.currentPageResults| =>
      body.currentPageResults[i].id)
  }

  /** One pass through the loop body, given the answer to its request. */
  function Pass(s: ListerState, r: ListResponse): (out: (ListerState, Round))
    requires !s.finished
    ensures out.1.page == s.curPageInd && out.1.statusCode == r.statusCode
    ensures r.statusCode == SleepStatusCode ==> out.0 == s && out.1.sleptSeconds == SleepTime && out.1.batch.None?
    ensures r.statusCode == OkStatusCode ==>
              out.1.sleptSeconds == 0 && out.1.batch == Some(PageIds(r.body))
              && out.0.gamesCount == s.gamesCount + |PageIds(r.body)|
              && (out.0.finished <==> r.body.nextPage.None?)
              && out.0.curPageInd == (if out.0.finished then s.curPageInd else s.curPageInd + 1)
    ensures r.statusCode != SleepStatusCode && r.statusCode != OkStatusCode ==>
              out.0 == s && out.1.sleptSeconds == 0 && out.1.batch.None?
  {
    if r.statusCode == SleepStatusCode then
      (s, Round(s.curPageInd, r.statusCode, SleepTime, None))
    else if r.statusCode == OkStatusCode then
      var ids := PageIds(r.body);
      var count := s.gamesCount + |ids|;
      var round := Round(s.curPageInd, r.statusCode, 0, Some(ids));
      if r.body.nextPage.None? then (ListerState(s.curPageInd, count, true), round)
      else (ListerState(s.curPageInd + 1, count, false), round)
    else
      (s, Round(s.curPageInd, r.statusCode, 0, None))
  }

  /** The lister run against a finite list of answers: passes are made until the
      lister breaks out of its loop or the answers run out. */
  function Run(s: ListerState, responses: seq<ListResponse>): (r: (ListerState, seq<Round>))
    ensures |r.1| <= |responses|
    decreases |responses|
  {
    if s.finished || responses == [] then (s, [])
    else
      var (s1, round) := Pass(s, responses[0]);
      var (s2, rounds) := Run(s1, responses[1..]);
      (s2, [round] + rounds)
  }

  /** The batch a round yielded, as a list of zero or one batches. */
  function Yielded(round: Round): seq<seq<string>>
  {
    match round.batch
    case Some(b) => [b]
    case None => []
  }

  /** What each round yielded, as zero or one batches per round. */
  function YieldedEach(rounds: seq<Round>): seq<seq<seq<string>>>
  {
    seq(|rounds|, k requires 0 <= k < |rounds| => Yielded(rounds[k]))
  }

  /** The batches yielded, in order. */
  function Batches(rounds: seq<Round>): seq<seq<string>>
  {
    Flatten(YieldedEach(rounds))
  }

  /** All elements of a list of lists, in order: the identifiers of a list of
      batches, or the text of a list of blocks. */
  function Flatten<T>(parts: seq<seq<T>>): seq<T>
  {
    if parts == [] then [] else Flatten(parts[..|parts| - 1]) + parts[|parts| - 1]
  }

  /** Unfolding `Run` once, at a state that has not left the loop. */
  lemma RunUnfold(s: ListerState, responses: seq<ListResponse>)
    requires !s.finished && responses != []
    ensures Run(s, responses) ==
      (Run(Pass(s, responses[0]).0, responses[1..]).0,
       [Pass(s, responses[0]).1] + Run(Pass(s, responses[0]).0, responses[1..]).1)
  {
  }

  /** The list URL requested in each round. */
  function RequestedUrls(userName: string, rounds: seq<Round>): (urls: seq<string>)
    ensures |urls| == |rounds|
    ensures forall k :: 0 <= k < |rounds| ==> urls[k] == GamesListUrl(userName, rounds[k].page)
  {
    seq(|rounds|, k requires 0 <= k < |rounds| => GamesListUrl(userName, rounds[k].page))
  }

  lemma RequestedUrlsSnoc(userName: string, rounds: seq<Round>, round: Round)
    ensures RequestedUrls(userName, rounds + [round]) == RequestedUrls(userName, rounds) + [GamesListUrl(userName, round.page)]
  {
  }

  /** The run from `s` over `rest`, appended to the `rounds` already made,
      gives the whole run `total`. */
  ghost predicate Tracks(total: (ListerState, seq<Round>), s: ListerState, rest: seq<ListResponse>, rounds: seq<Round>)
  {
    total.0 == Run(s, rest).0 && total.1 == rounds + Run(s, rest).1
  }

  /** One pass of the loop keeps the whole run in view. */
  lemma TracksStep(total: (ListerState, seq<Round>), s: ListerState, rest: seq<ListResponse>, rounds: seq<Round>)
    requires Tracks(total, s, rest, rounds) && !s.finished && rest != []
    ensures Tracks(total, Pass(s, rest[0]).0, rest[1..], rounds + [Pass(s, rest[0]).1])
  {
    RunUnfold(s, rest);
    assert rounds + ([Pass(s, rest[0]).1] + Run(Pass(s, rest[0]).0, rest[1..]).1)
        == (rounds + [Pass(s, rest[0]).1]) + Run(Pass(s, rest[0]).0, rest[1..]).1;
  }

  /** Once the loop is left or the answers run out, the run made so far is the whole run. */
  lemma TracksDone(total: (ListerState, seq<Round>), s: ListerState, rest: seq<ListResponse>, rounds: seq<Round>)
    requires Tracks(total, s, rest, rounds) && (s.finished || rest == [])
    ensures total == (s, rounds)
  {
    assert rounds + [] == rounds;
  }

  /** The lister after its first `n` answers, pass by pass from the start: the
      state, the rounds and the batches the loop of `GetGamesList` carries. */
  function RunPrefix(responses: seq<ListResponse>, n: nat): (ListerState, seq<Round>, seq<seq<string>>)
    requires n <= |responses|
  {
    if n == 0 then (Initial, [], [])
    else
      var (s, rounds, batches) := RunPrefix(responses, n - 1);
      if s.finished then (s, rounds, batches)
      else
        var (s1, round) := Pass(s, responses[n - 1]);
        (s1, rounds + [round], batches + Yielded(round))
  }

  /** `RunPrefix` unfolded by one answer. */
  lemma RunPrefixStep(responses: seq<ListResponse>, n: nat)
    requires n < |responses|
    ensures var p := RunPrefix(responses, n);
      RunPrefix(responses, n + 1)
      == if p.0.finished then p
         else (Pass(p.0, responses[n]).0, p.1 + [Pass(p.0, responses[n]).1], p.2 + Yielded(Pass(p.0, responses[n]).1))
  {
  }

  /** A pass adds to `games_count` the number of identifiers it yields. */
  lemma PassCount(s: ListerState, r: ListResponse)
    requires !s.finished
    ensures Pass(s, r).0.gamesCount == s.gamesCount + |Flatten(Yielded(Pass(s, r).1))|
  {
    var round := Pass(s, r).1;
    if round.batch.Some? {
      FlattenSnoc([], round.batch.value);
      assert [] + [round.batch.value] == Yielded(round);
    }
  }

  /** The batches the loop carries are those of its rounds. */
  lemma {:induction false} RunPrefixBatches(responses: seq<ListResponse>, n: nat)
    requires n <= |responses|
    ensures RunPrefix(responses, n).2 == Batches(RunPrefix(responses, n).1)
  {
    if n > 0 {
      RunPrefixBatches(responses, n - 1);
      RunPrefixBatchesStep(responses, n - 1);
    }
  }

  lemma RunPrefixBatchesStep(responses: seq<ListResponse>, n: nat)
    requires n < |responses|
    requires RunPrefix(responses, n).2 == Batches(RunPrefix(responses, n).1)
    ensures RunPrefix(responses, n + 1).2 == Batches(RunPrefix(responses, n + 1).1)
  {
    RunPrefixStep(responses, n);
    var p := RunPrefix(responses, n);
    if !p.0.finished {
      BatchesSnoc(p.1, Pass(p.0, responses[n]).1);
    }
  }

  /** The count the loop carries is the total length of its batches. */
  lemma {:induction false} RunPrefixCount(responses: seq<ListResponse>, n: nat)
    requires n <= |responses|
    ensures RunPrefix(responses, n).0.gamesCount == |Flatten(RunPrefix(responses, n).2)|
  {
    if n > 0 {
      RunPrefixCount(responses, n - 1);
      RunPrefixCountStep(responses, n - 1);
    }
  }

  lemma RunPrefixCountStep(responses: seq<ListResponse>, n: nat)
    requires n < |responses|
    requires RunPrefix(responses, n).0.gamesCount == |Flatten(RunPrefix(responses, n).2)|
    ensures RunPrefix(responses, n + 1).0.gamesCount == |Flatten(RunPrefix(responses, n + 1).2)|
  {
    RunPrefixStep(responses, n);
    var p := RunPrefix(responses, n);
    if !p.0.finished {
      var round := Pass(p.0, responses[n]).1;
      FlattenAppend(p.2, Yielded(round));
      PassCount(p.0, responses[n]);
    }
  }

  /** Whatever prefix has been consumed, running on from it completes the whole run. */
  lemma {:induction false} RunPrefixTracks(responses: seq<ListResponse>, n: nat)
    requires n <= |responses|
    ensures Tracks(Run(Initial, responses), RunPrefix(responses, n).0, responses[n..], RunPrefix(responses, n).1)
  {
    if n == 0 {
      assert responses[0..] == responses;
      assert [] + Run(Initial, responses).1 == Run(Initial, responses).1;
    } else {
      RunPrefixTracks(responses, n - 1);
      var (s, rounds, _) := RunPrefix(responses, n - 1);
      assert responses[n - 1..][1..] == responses[n..];
      if s.finished {
        assert rounds + [] == rounds;
      } else {
        TracksStep(Run(Initial, responses), s, responses[n - 1..], rounds);
      }
    }
  }

  /** When the loop has broken out, or has used every answer, the prefix it
      consumed is the whole run. */
  lemma RunPrefixIsRun(responses: seq<ListResponse>, n: nat)
    requires n <= |responses|
    requires RunPrefix(responses, n).0.finished || n == |responses|
    ensures (RunPrefix(responses, n).0, RunPrefix(responses, n).1) == Run(Initial, responses)
  {
    RunPrefixTracks(responses, n);
    TracksDone(Run(Initial, responses), RunPrefix(responses, n).0, responses[n..], RunPrefix(responses, n).1);
  }

  /** One more round: the yielded batches grow by that round's batch. */
  lemma BatchesSnoc(rounds: seq<Round>, round: Round)
    ensures Batches(rounds + [round]) == Batches(rounds) + Yielded(round)
  {
    assert YieldedEach(rounds + [round]) == YieldedEach(rounds) + [Yielded(round)];
    FlattenSnoc(YieldedEach(rounds), Yielded(round));
  }

  lemma FlattenSnoc<T>(parts: seq<seq<T>>, b: seq<T>)
    ensures Flatten(parts + [b]) == Flatten(parts) + b
  {
    assert (parts + [b])[..|parts|] == parts;
  }

  /** `getGamesList(user_name)` with the answers of the server given in advance.
      Returns what it yielded, the record of every pass, the final `games_count`
      and whether it left its loop by `break` (otherwise the answers ran out and
      the real generator would go on requesting). */
  method GetGamesList(userName: string, responses: seq<ListResponse>)
    returns (batches: seq<seq<string>>, urls: seq<string>, rounds: seq<Round>, gamesCount: int, finished: bool)
    ensures urls == RequestedUrls(userName, rounds)
    ensures (ListerState(Run(Initial, responses).0.curPageInd, gamesCount, finished), rounds)
            == Run(Initial, responses)
    ensures batches == Batches(rounds)
    ensures gamesCount == |Flatten(batches)|
  {
    gamesCount := 0;
    var curPageInd := 1;
    finished := false;
    batches, urls, rounds := [], [], [];
    var i := 0;
    while true
      invariant 0 <= i <= |responses| && !finished
      invariant RunPrefix(responses, i) == (ListerState(curPageInd, gamesCount, false), rounds, batches)
      invariant urls == RequestedUrls(userName, rounds)
      decreases |responses| - i
    {
      if i == |responses| {
        break;
      }
      RunPrefixStep(responses, i);
      assert batches + [] == batches;
      var r := responses[i];
      var url := GamesListUrl(userName, curPageInd);
      var round;
      if r.statusCode == SleepStatusCode {
        round := Round(curPageInd, r.statusCode, SleepTime, None);
      } else if r.statusCode == OkStatusCode {
        var curIds := PageIds(r.body);
        gamesCount := gamesCount + |curIds|;
        batches := batches + [curIds];
        round := Round(curPageInd, r.statusCode, 0, Some(curIds));
        if r.body.nextPage.None? {
          finished := true;
        } else {
          curPageInd := curPageInd + 1;
        }
      } else {
        round := Round(curPageInd, r.statusCode, 0, None);
      }
      RequestedUrlsSnoc(userName, rounds, round);
      urls := urls + [url];
      rounds := rounds + [round];
      i := i + 1;
      if finished {
        break;
      }
    }
    RunPrefixIsRun(responses, i);
    RunPrefixBatches(responses, i);
    RunPrefixCount(responses, i);
  }

  // ---------------------------------------------------------------------------
  // Properties of the lister

  /** An answer that ends the listing: status 200 and no next page. */
  predicate IsLastPage(r: ListResponse)
  {
    r.statusCode == OkStatusCode && r.body.nextPage.None?
  }

  lemma BatchesAppend(a: seq<Round>, b: seq<Round>)
    ensures Batches(a + b) == Batches(a) + Batches(b)
  {
    assert YieldedEach(a + b) == YieldedEach(a) + YieldedEach(b);
    FlattenAppend(YieldedEach(a), YieldedEach(b));
  }

  lemma BatchesCons(round: Round, rest: seq<Round>)
    ensures Batches([round] + rest) == Yielded(round) + Batches(rest)
  {
    BatchesAppend([round], rest);
    BatchesSnoc([], round);
    assert [] + [round] == [round];
  }

  lemma {:induction false} FlattenAppend<T>(a: seq<seq<T>>, b: seq<seq<T>>)
    ensures Flatten(a + b) == Flatten(a) + Flatten(b)
    decreases |b|
  {
    if b == [] {
      assert a + b == a;
    } else {
      var b' := b[..|b| - 1];
      assert a + b == (a + b') + [b[|b| - 1]];
      FlattenSnoc(a + b', b[|b| - 1]);
      FlattenAppend(a, b');
      FlattenSnoc(b', b[|b| - 1]);
      assert b' + [b[|b| - 1]] == b;
    }
  }

  /** Each pass answers to the response it consumed: it records that response's
      status, sleeps `SLEEP_TIME` exactly
      on a 429, and yields exactly on a 200, the `id`s of that page in order. */
  lemma {:induction false} RoundsFollowResponses(s: ListerState, responses: seq<ListResponse>)
    ensures forall k :: 0 <= k < |Run(s, responses).1| ==>
      && Run(s, responses).1[k].statusCode == responses[k].statusCode
      && Run(s, responses).1[k].sleptSeconds
         == (if responses[k].statusCode == SleepStatusCode then SleepTime else 0)
      && Run(s, responses).1[k].batch
         == (if responses[k].statusCode == OkStatusCode then Some(PageIds(responses[k].body)) else None)
    decreases |responses|
  {
    if !s.finished && responses != [] {
      var (s1, round) := Pass(s, responses[0]);
      RoundsFollowResponses(s1, responses[1..]);
      var rest := Run(s1, responses[1..]).1;
      var rounds := Run(s, responses).1;
      assert rounds == [round] + rest;
      forall k | 1 <= k < |rounds|
        ensures rounds[k] == rest[k - 1] && responses[k] == responses[1..][k - 1]
      {
      }
    }
  }

  /** The page counter moves only on a yield: every request asks for the start
      page plus the number of batches yielded before it. So a 429 or any other
      non-200 status is followed by a request for the same page, a 200 by one for
      the next page, and pages are requested in order without skipping. */
  lemma {:induction false} PagesFollowBatches(s: ListerState, responses: seq<ListResponse>)
    ensures forall k :: 0 <= k < |Run(s, responses).1| ==>
      Run(s, responses).1[k].page == s.curPageInd + |Batches(Run(s, responses).1[..k])|
    decreases |responses|
  {
    if !s.finished && responses != [] {
      var (s1, round) := Pass(s, responses[0]);
      PagesFollowBatches(s1, responses[1..]);
      var rest := Run(s1, responses[1..]).1;
      var rounds := Run(s, responses).1;
      assert rounds == [round] + rest;
      assert !s1.finished ==> s1.curPageInd == s.curPageInd + |Yielded(round)|;
      forall k | 0 <= k < |rounds|
        ensures rounds[k].page == s.curPageInd + |Batches(rounds[..k])|
      {
        if k == 0 {
          assert rounds[..0] == [];
        } else {
          assert !s1.finished;
          assert rounds[..k] == [round] + rest[..k - 1];
          BatchesCons(round, rest[..k - 1]);
          assert rounds[k] == rest[k - 1];
          assert 0 <= k - 1 < |rest|;
          assert rest[k - 1].page == s1.curPageInd + |Batches(rest[..k - 1])|;
        }
      }
    }
  }

  /** `games_count` is the number of identifiers yielded so far, and the final
      page counter is the start page advanced once per batch except the last one
      when the lister stopped on it. */
  lemma {:induction false} CountMatchesBatches(s: ListerState, responses: seq<ListResponse>)
    requires !s.finished
    ensures Run(s, responses).0.gamesCount == s.gamesCount + |Flatten(Batches(Run(s, responses).1))|
    ensures Run(s, responses).0.curPageInd
            == s.curPageInd + |Batches(Run(s, responses).1)| - (if Run(s, responses).0.finished then 1 else 0)
    decreases |responses|
  {
    if responses != [] {
      var (s1, round) := Pass(s, responses[0]);
      var rest := Run(s1, responses[1..]).1;
      assert Run(s, responses) == (Run(s1, responses[1..]).0, [round] + rest);
      BatchesCons(round, rest);
      FlattenAppend(Yielded(round), Batches(rest));
      var n := |Flatten(Yielded(round))|;
      if round.batch.Some? {
        assert Flatten(Yielded(round)) == Flatten([]) + round.batch.value;
        assert s1.gamesCount == s.gamesCount + n;
      } else {
        assert s1 == s && n == 0;
      }
      if s1.finished {
        assert rest == [];
        assert Batches(rest) == [];
      } else {
        CountMatchesBatches(s1, responses[1..]);
      }
    }
  }

  /** The lister leaves its loop exactly when it has just been answered 200 with
      no next page, never earlier; if it does not, it used every answer given. */
  lemma {:induction false} StopsOnLastPage(s: ListerState, responses: seq<ListResponse>)
    requires !s.finished
    ensures Run(s, responses).0.finished <==>
      |Run(s, responses).1| > 0 && IsLastPage(responses[|Run(s, responses).1| - 1])
    ensures forall k :: 0 <= k < |Run(s, responses).1| - 1 ==> !IsLastPage(responses[k])
    ensures !Run(s, responses).0.finished ==> |Run(s, responses).1| == |responses|
    decreases |responses|
  {
    RoundsFollowResponses(s, responses);
    if responses != [] {
      var (s1, round) := Pass(s, responses[0]);
      var rest := Run(s1, responses[1..]).1;
      var rounds := Run(s, responses).1;
      assert rounds == [round] + rest;
      if s1.finished {
        assert rest == [];
      } else {
        StopsOnLastPage(s1, responses[1..]);
        forall k | 1 <= k < |rounds| - 1 ensures !IsLastPage(responses[k]) {
          assert responses[k] == responses[1..][k - 1];
        }
        if |rest| > 0 {
          assert responses[|rounds| - 1] == responses[1..][|rest| - 1];
        }
      }
    }
  }

  /** A 429 yields nothing, sleeps `SLEEP_TIME`, and the next request is for the
      same page. */
  lemma RateLimitedPageIsRetried(s: ListerState, responses: seq<ListResponse>, k: nat)
    requires k + 1 < |Run(s, responses).1|
    requires responses[k].statusCode == SleepStatusCode
    ensures var rounds := Run(s, responses).1;
      && rounds[k].batch == None
      && rounds[k].sleptSeconds == SleepTime
      && rounds[k + 1].page == rounds[k].page
  {
    RetriedSamePage(s, responses, k);
  }

  /** Any status other than 200 and 429 yields nothing, does not sleep, and the
      next request is for the same page: the lister neither aborts nor advances. */
  lemma OtherStatusIsRetried(s: ListerState, responses: seq<ListResponse>, k: nat)
    requires k + 1 < |Run(s, responses).1|
    requires responses[k].statusCode != SleepStatusCode && responses[k].statusCode != OkStatusCode
    ensures var rounds := Run(s, responses).1;
      && rounds[k].batch == None
      && rounds[k].sleptSeconds == 0
      && rounds[k + 1].page == rounds[k].page
  {
    RetriedSamePage(s, responses, k);
  }

  lemma RetriedSamePage(s: ListerState, responses: seq<ListResponse>, k: nat)
    requires k + 1 < |Run(s, responses).1|
    requires responses[k].statusCode != OkStatusCode
    ensures Run(s, responses).1[k].batch == None
    ensures Run(s, responses).1[k].sleptSeconds
            == (if responses[k].statusCode == SleepStatusCode then SleepTime else 0)
    ensures Run(s, responses).1[k + 1].page == Run(s, responses).1[k].page
  {
    var rounds := Run(s, responses).1;
    assert rounds[k].batch == None && rounds[k].sleptSeconds
           == (if responses[k].statusCode == SleepStatusCode then SleepTime else 0) by {
      RoundsFollowResponses(s, responses);
    }
    assert rounds[k].page == s.curPageInd + |Batches(rounds[..k])|
        && rounds[k + 1].page == s.curPageInd + |Batches(rounds[..k + 1])| by {
      PagesFollowBatches(s, responses);
    }
    assert rounds[..k + 1] == rounds[..k] + [rounds[k]];
    BatchesSnoc(rounds[..k], rounds[k]);
  }

  /** A 200 yields the page's identifiers; unless it was the last page, the next
      request is for the following page. */
  lemma OkPageAdvances(s: ListerState, responses: seq<ListResponse>, k: nat)
    requires !s.finished
    requires k + 1 < |Run(s, responses).1|
    requires responses[k].statusCode == OkStatusCode
    ensures Run(s, responses).1[k].batch == Some(PageIds(responses[k].body))
    ensures responses[k].body.nextPage.Some?
    ensures Run(s, responses).1[k + 1].page == Run(s, responses).1[k].page + 1
  {
    var rounds := Run(s, responses).1;
    assert rounds[k].batch == Some(PageIds(responses[k].body)) by {
      RoundsFollowResponses(s, responses);
    }
    assert !IsLastPage(responses[k]) by {
      StopsOnLastPage(s, responses);
    }
    assert rounds[k].page == s.curPageInd + |Batches(rounds[..k])|
        && rounds[k + 1].page == s.curPageInd + |Batches(rounds[..k + 1])| by {
      PagesFollowBatches(s, responses);
    }
    assert rounds[..k + 1] == rounds[..k] + [rounds[k]];
    BatchesSnoc(rounds[..k], rounds[k]);
  }

  // ---------------------------------------------------------------------------
  // Against a truthful listing service

  /** `ids` as the objects of `currentPageResults`. */
  function Entries(ids: seq<string>): seq<GameEntry>
  {
    seq(|ids|, i requires 0 <= i < |ids| => GameEntry(ids[i]))
  }

  /** The listing API of a user whose game identifiers fill `pages`, page by page:
      page `p` (counted from 1) holds `pages[p - 1]` and names a next page unless
      it is the last one; any other page, including page 1 of a user without
      games, is empty and names none. */
  function ServicePage(pages: seq<seq<string>>, page: int): PageBody
  {
    if 1 <= page <= |pages| then
      PageBody(Entries(pages[page - 1]), if page < |pages| then Some(page + 1) else None)
    else PageBody([], None)
  }

  /** The batches such a service leads the lister to: its pages, or one empty
      batch for a user without games. */
  function Listing(pages: seq<seq<string>>): (l: seq<seq<string>>)
    ensures |l| >= 1
  {
    if pages == [] then [[]] else pages
  }

  /** Every 200 answer of a run carries the page that its request asked for. */
  ghost predicate Truthful(pages: seq<seq<string>>, s: ListerState, responses: seq<ListResponse>)
  {
    forall k :: 0 <= k < |Run(s, responses).1| && responses[k].statusCode == OkStatusCode ==>
      responses[k].body == ServicePage(pages, Run(s, responses).1[k].page)
  }

  lemma ServicePageFacts(pages: seq<seq<string>>, page: int)
    requires 1 <= page <= |Listing(pages)|
    ensures PageIds(ServicePage(pages, page)) == Listing(pages)[page - 1]
    ensures ServicePage(pages, page).nextPage.None? <==> page == |Listing(pages)|
  {
    var ids := Listing(pages)[page - 1];
    assert PageIds(ServicePage(pages, page)) == PageIds(PageBody(Entries(ids), ServicePage(pages, page).nextPage));
  }

  lemma TruthfulHead(pages: seq<seq<string>>, s: ListerState, responses: seq<ListResponse>)
    requires !s.finished && responses != [] && Truthful(pages, s, responses)
    requires responses[0].statusCode == OkStatusCode
    ensures responses[0].body == ServicePage(pages, s.curPageInd)
  {
    assert Run(s, responses).1[0] == Pass(s, responses[0]).1;
  }

  lemma TruthfulTail(pages: seq<seq<string>>, s: ListerState, responses: seq<ListResponse>)
    requires !s.finished && responses != [] && Truthful(pages, s, responses)
    ensures Truthful(pages, Pass(s, responses[0]).0, responses[1..])
  {
    var s1 := Pass(s, responses[0]).0;
    var rest := Run(s1, responses[1..]).1;
    if !s1.finished {
      assert Run(s, responses).1 == [Pass(s, responses[0]).1] + rest;
      forall k | 0 <= k < |rest| && responses[1..][k].statusCode == OkStatusCode
        ensures responses[1..][k].body == ServicePage(pages, rest[k].page)
      {
        assert Run(s, responses).1[k + 1] == rest[k];
        assert responses[k + 1] == responses[1..][k];
      }
    }
  }

  lemma {:induction false} ListsServicePagesFrom(pages: seq<seq<string>>, s: ListerState, responses: seq<ListResponse>)
    requires !s.finished && 1 <= s.curPageInd <= |Listing(pages)|
    requires Truthful(pages, s, responses)
    ensures s.curPageInd - 1 + |Batches(Run(s, responses).1)| <= |Listing(pages)|
    ensures Batches(Run(s, responses).1)
            == Listing(pages)[s.curPageInd - 1 .. s.curPageInd - 1 + |Batches(Run(s, responses).1)|]
    ensures Run(s, responses).0.finished ==>
            s.curPageInd - 1 + |Batches(Run(s, responses).1)| == |Listing(pages)|
    decreases |responses|, 1
  {
    if responses == [] {
      assert Run(s, responses).1 == [];
      assert Listing(pages)[s.curPageInd - 1 .. s.curPageInd - 1] == [];
    } else if responses[0].statusCode != OkStatusCode {
      ServiceRetryStep(pages, s, responses);
    } else if Pass(s, responses[0]).0.finished {
      ServiceOkLast(pages, s, responses);
    } else {
      ServiceOkMore(pages, s, responses);
    }
  }

  /** A non-200 answer: nothing yielded, the same page is asked again. */
  lemma {:induction false} ServiceRetryStep(pages: seq<seq<string>>, s: ListerState, responses: seq<ListResponse>)
    requires responses != [] && responses[0].statusCode != OkStatusCode
    requires !s.finished && 1 <= s.curPageInd <= |Listing(pages)|
    requires Truthful(pages, s, responses)
    ensures s.curPageInd - 1 + |Batches(Run(s, responses).1)| <= |Listing(pages)|
    ensures Batches(Run(s, responses).1)
            == Listing(pages)[s.curPageInd - 1 .. s.curPageInd - 1 + |Batches(Run(s, responses).1)|]
    ensures Run(s, responses).0.finished ==>
            s.curPageInd - 1 + |Batches(Run(s, responses).1)| == |Listing(pages)|
    decreases |responses|, 0
  {
    var (s1, round) := Pass(s, responses[0]);
    var rest := Run(s1, responses[1..]).1;
    assert Run(s, responses) == (Run(s1, responses[1..]).0, [round] + rest);
    assert s1 == s && Yielded(round) == [];
    BatchesCons(round, rest);
    assert [] + Batches(rest) == Batches(rest);
    TruthfulTail(pages, s, responses);
    ListsServicePagesFrom(pages, s1, responses[1..]);
  }

  /** What one truthful 200 answer does to the lister. */
  lemma OkPassFacts(pages: seq<seq<string>>, s: ListerState, responses: seq<ListResponse>)
    requires responses != [] && responses[0].statusCode == OkStatusCode
    requires !s.finished && 1 <= s.curPageInd <= |Listing(pages)|
    requires Truthful(pages, s, responses)
    ensures Yielded(Pass(s, responses[0]).1) == [Listing(pages)[s.curPageInd - 1]]
    ensures Pass(s, responses[0]).0.finished <==> s.curPageInd == |Listing(pages)|
    ensures Pass(s, responses[0]).0.curPageInd == if Pass(s, responses[0]).0.finished then s.curPageInd else s.curPageInd + 1
  {
    TruthfulHead(pages, s, responses);
    ServicePageFacts(pages, s.curPageInd);
  }

  /** After a truthful 200 answer, the run yields the asked page and then
      whatever the rest of the run yields. */
  lemma OkRunFacts(pages: seq<seq<string>>, s: ListerState, responses: seq<ListResponse>)
    requires responses != [] && responses[0].statusCode == OkStatusCode
    requires !s.finished && 1 <= s.curPageInd <= |Listing(pages)|
    requires Truthful(pages, s, responses)
    ensures Batches(Run(s, responses).1)
            == [Listing(pages)[s.curPageInd - 1]] + Batches(Run(Pass(s, responses[0]).0, responses[1..]).1)
    ensures Run(s, responses).0 == Run(Pass(s, responses[0]).0, responses[1..]).0
  {
    RunUnfold(s, responses);
    BatchesCons(Pass(s, responses[0]).1, Run(Pass(s, responses[0]).0, responses[1..]).1);
    OkPassFacts(pages, s, responses);
  }

  /** A 200 answer for the last page: it is yielded and the lister stops. */
  lemma ServiceOkLast(pages: seq<seq<string>>, s: ListerState, responses: seq<ListResponse>)
    requires responses != [] && responses[0].statusCode == OkStatusCode
    requires !s.finished && 1 <= s.curPageInd <= |Listing(pages)|
    requires Truthful(pages, s, responses)
    requires Pass(s, responses[0]).0.finished
    ensures s.curPageInd - 1 + |Batches(Run(s, responses).1)| <= |Listing(pages)|
    ensures Batches(Run(s, responses).1)
            == Listing(pages)[s.curPageInd - 1 .. s.curPageInd - 1 + |Batches(Run(s, responses).1)|]
    ensures Run(s, responses).0.finished ==>
            s.curPageInd - 1 + |Batches(Run(s, responses).1)| == |Listing(pages)|
  {
    var l := Listing(pages);
    var p := s.curPageInd;
    OkPassFacts(pages, s, responses);
    RunUnfold(s, responses);
    var s1 := Pass(s, responses[0]).0;
    assert Run(s1, responses[1..]) == (s1, []);
    BatchesCons(Pass(s, responses[0]).1, []);
    assert Batches(Run(s, responses).1) == [l[p - 1]];
    assert l[p - 1 .. p] == [l[p - 1]];
  }

  /** A 200 answer with a next page: the asked page is yielded and the next one
      asked. */
  lemma {:induction false} ServiceOkMore(pages: seq<seq<string>>, s: ListerState, responses: seq<ListResponse>)
    requires responses != [] && responses[0].statusCode == OkStatusCode
    requires !s.finished && 1 <= s.curPageInd <= |Listing(pages)|
    requires Truthful(pages, s, responses)
    requires !Pass(s, responses[0]).0.finished
    ensures s.curPageInd - 1 + |Batches(Run(s, responses).1)| <= |Listing(pages)|
    ensures Batches(Run(s, responses).1)
            == Listing(pages)[s.curPageInd - 1 .. s.curPageInd - 1 + |Batches(Run(s, responses).1)|]
    ensures Run(s, responses).0.finished ==>
            s.curPageInd - 1 + |Batches(Run(s, responses).1)| == |Listing(pages)|
    decreases |responses|, 0
  {
    var l := Listing(pages);
    var p := s.curPageInd;
    var s1 := Pass(s, responses[0]).0;
    var rest := Run(s1, responses[1..]).1;
    OkRunFacts(pages, s, responses);
    var m := |Batches(rest)|;
    assert p + m <= |l| && Batches(rest) == l[p .. p + m]
           && (Run(s1, responses[1..]).0.finished ==> p + m == |l|) by {
      OkPassFacts(pages, s, responses);
      TruthfulTail(pages, s, responses);
      ListsServicePagesFrom(pages, s1, responses[1..]);
    }
    SliceCons(l, p, m);
  }

  lemma SliceCons<T>(l: seq<T>, p: nat, m: nat)
    requires 1 <= p && p + m <= |l|
    ensures l[p - 1 .. p + m] == [l[p - 1]] + l[p .. p + m]
  {
  }

  /** Against a truthful service the lister yields the service's pages in page
      order, each once, never skipping one; once it stops, it has yielded all of
      them, so the identifiers gathered are the user's whole list in order. */
  lemma ListsServicePages(pages: seq<seq<string>>, responses: seq<ListResponse>)
    requires Truthful(pages, Initial, responses)
    ensures |Batches(Run(Initial, responses).1)| <= |Listing(pages)|
    ensures Batches(Run(Initial, responses).1) == Listing(pages)[..|Batches(Run(Initial, responses).1)|]
    ensures Run(Initial, responses).0.finished ==> Batches(Run(Initial, responses).1) == Listing(pages)
    ensures Run(Initial, responses).0.finished ==> Flatten(Batches(Run(Initial, responses).1)) == Flatten(pages)
  {
    ListsServicePagesFrom(pages, Initial, responses);
    var l := Listing(pages);
    assert l[0..|Batches(Run(Initial, responses).1)|] == l[..|Batches(Run(Initial, responses).1)|];
    if pages == [] {
      assert Flatten<string>([[]]) == Flatten<string>([]) + [];
    }
  }
}
