/**
 * The stand-alone ingestion script: gather the top submissions of a fixed
 * list of subreddits, one after the other, into DATA_DIR. Its per-subreddit
 * work is the same as the gatherer's and is modelled by `Gathering`.
 */
module Script {
  import opened Wrappers
  import opened Storage
  import opened Gathering

  const Subreddits: seq<string> := [
    "AerialPorn", "CityPorn", "EarthPorn", "InfrastructurePorn", "NaturePics",
    "SkyPorn", "SpacePorn", "wallpaper", "WaterPorn"]

  const Limit: nat := 20

  const TimeFilter: string := "month"

  /** DATA_DIR: the `data` directory below the current directory. */
  function DataDir(cwd: Path): (p: Path)
    ensures p == cwd + ["data"]
  {
    Join(cwd, "data")
  }

  /** How many submissions the listings of `subs` hold together. */
  function Listed(subs: seq<string>, top: (string, nat, string) -> seq<RawSubmission>): nat
    decreases |subs|
  {
    if subs == [] then 0 else |top(subs[0], Limit, TimeFilter)| + Listed(subs[1..], top)
  }

  /** gather_subreddit as a function of the disk and the subreddit name. */
  function GatherIn(dataDir: Path, top: (string, nat, string) -> seq<RawSubmission>, fetch: string -> FetchOutcome)
    : (Nodes, string) -> Step
  {
    (m: Nodes, sub: string) => AfterGather(m, dataDir, sub, top(sub, Limit, TimeFilter), fetch)
  }

  /** Gathering `subs` in order with `gather`; the first failure ends the run. */
  function RunOf(gather: (Nodes, string) -> Step, n: Nodes, subs: seq<string>): Step
    decreases |subs|
  {
    if subs == [] then Step(n, [], Pass)
    else
      var gathered := gather(n, subs[0]);
      if gathered.outcome.Fail? then gathered
      else Then(gathered, RunOf(gather, gathered.nodes, subs[1..]))
  }

  /** The subreddits whose gathering was started: every one up to and including the first that fails. */
  function StartedOf(gather: (Nodes, string) -> Step, n: Nodes, subs: seq<string>): seq<string>
    decreases |subs|
  {
    if subs == [] then []
    else
      var gathered := gather(n, subs[0]);
      if gathered.outcome.Fail? then [subs[0]]
      else [subs[0]] + StartedOf(gather, gathered.nodes, subs[1..])
  }

  /** The effect of main()'s loop over `subs`. */
  function AfterRun(n: Nodes, dataDir: Path, subs: seq<string>, top: (string, nat, string) -> seq<RawSubmission>,
                    fetch: string -> FetchOutcome): (r: Step)
    ensures |r.fetched| <= Listed(subs, top)
  {
    RunWithinListings(n, dataDir, subs, top, fetch);
    RunOf(GatherIn(dataDir, top, fetch), n, subs)
  }

  /** The subreddits main()'s loop starts. */
  function Started(n: Nodes, dataDir: Path, subs: seq<string>, top: (string, nat, string) -> seq<RawSubmission>,
                   fetch: string -> FetchOutcome): seq<string>
  {
    StartedOf(GatherIn(dataDir, top, fetch), n, subs)
  }

  /** A run fetches at most once per listed submission. */
  lemma {:induction false} RunWithinListings(n: Nodes, dataDir: Path, subs: seq<string>,
                                             top: (string, nat, string) -> seq<RawSubmission>,
                                             fetch: string -> FetchOutcome)
    ensures |RunOf(GatherIn(dataDir, top, fetch), n, subs).fetched| <= Listed(subs, top)
    decreases |subs|
  {
    if subs != [] {
      var gathered := GatherIn(dataDir, top, fetch)(n, subs[0]);
      assert gathered == AfterGather(n, dataDir, subs[0], top(subs[0], Limit, TimeFilter), fetch);
      if gathered.outcome.Pass? {
        RunWithinListings(gathered.nodes, dataDir, subs[1..], top, fetch);
      }
    }
  }

  /** Every URL a run fetches is the image URL of a non-video submission listed for one of its subreddits. */
  ghost predicate RunFetchesOnly(fetched: seq<string>, subs: seq<string>, top: (string, nat, string) -> seq<RawSubmission>) {
    forall u :: u in fetched ==>
      exists i, s :: 0 <= i < |subs| && s in top(subs[i], Limit, TimeFilter) && !IsVideo(s) && s.url == u
  }

  lemma {:induction false} RunFetchesOnlyListed(n: Nodes, dataDir: Path, subs: seq<string>,
                                                top: (string, nat, string) -> seq<RawSubmission>,
                                                fetch: string -> FetchOutcome)
    ensures RunFetchesOnly(AfterRun(n, dataDir, subs, top, fetch).fetched, subs, top)
    decreases |subs|
  {
    if subs != [] {
      var gathered := GatherIn(dataDir, top, fetch)(n, subs[0]);
      assert gathered == AfterGather(n, dataDir, subs[0], top(subs[0], Limit, TimeFilter), fetch);
      GatherFetchesOnly(n, dataDir, subs[0], top(subs[0], Limit, TimeFilter), fetch);
      forall u | u in gathered.fetched
        ensures exists i, s :: 0 <= i < |subs| && s in top(subs[i], Limit, TimeFilter) && !IsVideo(s) && s.url == u
      {
        var s :| s in top(subs[0], Limit, TimeFilter) && !IsVideo(s) && s.url == u;
        assert 0 <= 0 < |subs| && s in top(subs[0], Limit, TimeFilter);
      }
      if gathered.outcome.Pass? {
        var rest := AfterRun(gathered.nodes, dataDir, subs[1..], top, fetch);
        RunFetchesOnlyListed(gathered.nodes, dataDir, subs[1..], top, fetch);
        forall u | u in rest.fetched
          ensures exists i, s :: 0 <= i < |subs| && s in top(subs[i], Limit, TimeFilter) && !IsVideo(s) && s.url == u
        {
          var i, s :| 0 <= i < |subs[1..]| && s in top(subs[1..][i], Limit, TimeFilter) && !IsVideo(s) && s.url == u;
          assert subs[1..][i] == subs[i + 1];
        }
        assert AfterRun(n, dataDir, subs, top, fetch).fetched == gathered.fetched + rest.fetched;
      }
    }
  }

  lemma {:induction false} StartedOfIsPrefix(gather: (Nodes, string) -> Step, n: Nodes, subs: seq<string>)
    ensures var started := StartedOf(gather, n, subs);
            && |started| <= |subs| && started == subs[..|started|]
            && (subs != [] ==> started != [])
    decreases |subs|
  {
    if subs != [] {
      var gathered := gather(n, subs[0]);
      if gathered.outcome.Pass? {
        var rest := StartedOf(gather, gathered.nodes, subs[1..]);
        StartedOfIsPrefix(gather, gathered.nodes, subs[1..]);
        assert rest == subs[1..][..|rest|];
        assert [subs[0]] + rest == subs[..|rest| + 1];
      }
    }
  }

  /** The started subreddits are a prefix of the list, non-empty when the list is. */
  lemma StartedIsPrefix(n: Nodes, dataDir: Path, subs: seq<string>,
                        top: (string, nat, string) -> seq<RawSubmission>, fetch: string -> FetchOutcome)
    ensures var started := Started(n, dataDir, subs, top, fetch);
            && |started| <= |subs| && started == subs[..|started|]
            && (subs != [] ==> started != [])
  {
    StartedOfIsPrefix(GatherIn(dataDir, top, fetch), n, subs);
  }

  lemma {:induction false} RunOfStopsAtFirstFailure(gather: (Nodes, string) -> Step, n: Nodes, subs: seq<string>)
    ensures var started := StartedOf(gather, n, subs);
            && (RunOf(gather, n, subs).outcome.Pass? ==> started == subs)
            && RunOf(gather, n, subs) == RunOf(gather, n, started)
    decreases |subs|
  {
    if subs != [] {
      var gathered := gather(n, subs[0]);
      var started := StartedOf(gather, n, subs);
      if gathered.outcome.Fail? {
        assert started == [subs[0]];
        assert RunOf(gather, n, started) == gathered;
      } else {
        RunOfStopsAtFirstFailure(gather, gathered.nodes, subs[1..]);
        var rest := StartedOf(gather, gathered.nodes, subs[1..]);
        assert started == [subs[0]] + rest;
        assert started[0] == subs[0] && started[1..] == rest;
        assert RunOf(gather, n, started) == Then(gathered, RunOf(gather, gathered.nodes, rest));
      }
    }
  }

  /**
   * The subreddits are started in list order; a successful run started all
   * of them, a failed one stopped at the subreddit that failed, and the
   * subreddits after it play no part.
   */
  lemma RunStopsAtFirstFailure(n: Nodes, dataDir: Path, subs: seq<string>,
                               top: (string, nat, string) -> seq<RawSubmission>,
                               fetch: string -> FetchOutcome)
    ensures var started := Started(n, dataDir, subs, top, fetch);
            && (AfterRun(n, dataDir, subs, top, fetch).outcome.Pass? ==> started == subs)
            && AfterRun(n, dataDir, subs, top, fetch) == AfterRun(n, dataDir, started, top, fetch)
  {
    RunOfStopsAtFirstFailure(GatherIn(dataDir, top, fetch), n, subs);
  }

  /** One step of a run: the first subreddit's gathering, then the rest unless it failed. */
  lemma RunOfStep(gather: (Nodes, string) -> Step, n: Nodes, subs: seq<string>, gathered: Step)
    requires subs != [] && gathered == gather(n, subs[0])
    ensures RunOf(gather, n, subs)
            == (if gathered.outcome.Fail? then gathered else Then(gathered, RunOf(gather, gathered.nodes, subs[1..])))
    ensures StartedOf(gather, n, subs)
            == (if gathered.outcome.Fail? then [subs[0]] else [subs[0]] + StartedOf(gather, gathered.nodes, subs[1..]))
  {
  }

  /**
   * gather_subreddit: the gatherer's listing loop with the storage directory
   * under DATA_DIR; its save and download steps are the gatherer's.
   */
  method GatherSubreddit(fs: FileSystem, dataDir: Path, top: (string, nat, string) -> seq<RawSubmission>,
                         subreddit: string, timeFilter: string, limit: nat, fetch: string -> FetchOutcome)
    returns (fetched: seq<string>, o: Outcome<GatherError>)
    modifies fs
    ensures Step(fs.nodes, fetched, o) == AfterGather(old(fs.nodes), dataDir, subreddit, top(subreddit, limit, timeFilter), fetch)
  {
    fetched, o := GetSubredditTopSubmissions(fs, top, subreddit, timeFilter, limit, dataDir, fetch);
  }

  /** The loop of main(): gather each subreddit in turn until one fails. */
  method GatherEach(fs: FileSystem, dataDir: Path, subs: seq<string>, top: (string, nat, string) -> seq<RawSubmission>,
                    fetch: string -> FetchOutcome)
    returns (started: seq<string>, fetched: seq<string>, o: Outcome<GatherError>)
    modifies fs
    ensures Step(fs.nodes, fetched, o) == AfterRun(old(fs.nodes), dataDir, subs, top, fetch)
    ensures started == Started(old(fs.nodes), dataDir, subs, top, fetch)
  {
    ghost var gather := GatherIn(dataDir, top, fetch);
    ghost var spec := RunOf(gather, fs.nodes, subs);
    ghost var all := StartedOf(gather, fs.nodes, subs);
    started, fetched := [], [];
    var i := 0;
    while i < |subs|
      invariant 0 <= i <= |subs|
      invariant spec == Then(Step(fs.nodes, fetched, Pass), RunOf(gather, fs.nodes, subs[i..]))
      invariant all == started + StartedOf(gather, fs.nodes, subs[i..])
    {
      var subreddit := subs[i];
      assert subs[i..][0] == subreddit && subs[i..][1..] == subs[i + 1..];
      ghost var before := fs.nodes;
      ghost var earlier := fetched;
      var f, r := GatherSubreddit(fs, dataDir, top, subreddit, TimeFilter, Limit, fetch);
      assert gather(before, subreddit) == Step(fs.nodes, f, r);
      RunOfStep(gather, before, subs[i..], Step(fs.nodes, f, r));
      started := started + [subreddit];
      fetched := fetched + f;
      if r.Fail? {
        return started, fetched, r;
      }
      ThenAssociates(Step(before, earlier, Pass), Step(fs.nodes, f, Pass), RunOf(gather, fs.nodes, subs[i + 1..]));
      i := i + 1;
    }
    return started, fetched, Pass;
  }

  /** main(): the nine subreddits of the list, in order, into DATA_DIR. */
  method GatherAll(fs: FileSystem, cwd: Path, top: (string, nat, string) -> seq<RawSubmission>,
              fetch: string -> FetchOutcome)
    returns (started: seq<string>, fetched: seq<string>, o: Outcome<GatherError>)
    modifies fs
    ensures Step(fs.nodes, fetched, o) == AfterRun(old(fs.nodes), DataDir(cwd), Subreddits, top, fetch)
    ensures started == Started(old(fs.nodes), DataDir(cwd), Subreddits, top, fetch)
  {
    started, fetched, o := GatherEach(fs, DataDir(cwd), Subreddits, top, fetch);
  }
}
