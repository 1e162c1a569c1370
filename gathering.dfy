/**
 * Gathering: for each submission of a subreddit's top listing, skip videos,
 * create data_dir/subreddit/id, rewrite meta.json and download the image
 * unless its file already exists. Reddit's listing and the HTTP fetch are
 * oracles; the filesystem is a `FileSystem` object.
 */
module Gathering {
  import opened Wrappers
  import opened Text
  import opened Ordering
  import opened Storage
  import opened UrlPaths

  /** A submission of a Reddit listing; `author` is None when the account is deleted. */
  datatype RawSubmission = RawSubmission(
    id: string,
    createdUtc: int,
    domain: string,
    over18: bool,
    permalink: string,
    score: int,
    title: string,
    url: string,
    author: Option<string>)

  /** What requests.get(url) gives: a response, too many redirects, or another request failure. */
  datatype FetchOutcome =
    | Response(status: int, content: seq<bv8>)
    | TooManyRedirects
    | RequestFailed

  datatype GatherError =
    | StorageError(fs: FsError)
    | HttpError(url: string, status: int)
    | RequestError(url: string)

  /** `'v.reddit' in submission.domain`: hosted videos are skipped. */
  predicate IsVideo(s: RawSubmission): (b: bool)
    ensures b <==> HasAt(s.domain, "v.reddit")
  {
    ContainsIffOccurs(s.domain, "v.reddit");
    Contains(s.domain, "v.reddit")
  }


  // ---------------------------------------------------------------------------
  // meta.json

  /** `submission.author.name`, or '[deleted]' when there is no author. */
  function AuthorName(author: Option<string>): string {
    match author
    case Some(name) => name
    case None => "[deleted]"
  }

  /** The metadata dictionary in insertion order, author last. */
  function Metadata(s: RawSubmission, filename: string): (m: seq<(string, JsonValue)>)
    ensures |m| == 10
    ensures m[9] == ("author", JString(AuthorName(s.author)))
    ensures forall i :: 0 <= i < 9 ==> m[i].0 != "author"
    ensures ("image_filename", JString(filename)) in m
  {
    [ ("id", JString(s.id)),
      ("created_utc", JNumber(s.createdUtc)),
      ("domain", JString(s.domain)),
      ("image_filename", JString(filename)),
      ("over_18", JBool(s.over18)),
      ("permalink", JString(s.permalink)),
      ("score", JNumber(s.score)),
      ("title", JString(s.title)),
      ("url", JString(s.url)),
      ("author", JString(AuthorName(s.author))) ]
  }

  predicate KeyLe(a: (string, JsonValue), b: (string, JsonValue)) {
    StrLe(a.0, b.0)
  }

  /** json.dumps(metadata, sort_keys=True): the entries of `Metadata` in key order. */
  function MetaDocument(s: RawSubmission, filename: string): (doc: seq<(string, JsonValue)>)
    ensures |doc| == 10
  {
    [ ("author", JString(AuthorName(s.author))),
      ("created_utc", JNumber(s.createdUtc)),
      ("domain", JString(s.domain)),
      ("id", JString(s.id)),
      ("image_filename", JString(filename)),
      ("over_18", JBool(s.over18)),
      ("permalink", JString(s.permalink)),
      ("score", JNumber(s.score)),
      ("title", JString(s.title)),
      ("url", JString(s.url)) ]
  }

  /** Each key below the next one: with transitivity, the whole sequence is sorted. */
  lemma {:induction false} ChainSorted(doc: seq<(string, JsonValue)>)
    requires forall i :: 0 <= i < |doc| - 1 ==> StrLe(doc[i].0, doc[i + 1].0)
    ensures SortedBy(doc, KeyLe)
    decreases |doc|
  {
    if |doc| > 1 {
      ChainSorted(doc[1..]);
      forall j | 1 <= j < |doc| ensures StrLe(doc[0].0, doc[j].0) {
        if j > 1 {
          assert KeyLe(doc[1..][0], doc[1..][j - 1]);
          StrLeTransitive(doc[0].0, doc[1].0, doc[j].0);
        }
      }
      forall i, j | 0 <= i < j < |doc| ensures KeyLe(doc[i], doc[j]) {
        if i > 0 {
          assert KeyLe(doc[1..][i - 1], doc[1..][j - 1]);
        }
      }
    }
  }

  ghost predicate DistinctKeys(s: seq<(string, JsonValue)>) {
    forall i, j :: 0 <= i < j < |s| ==> s[i].0 != s[j].0
  }

  lemma {:induction false} DistinctKeysOccurOnce(s: seq<(string, JsonValue)>, x: (string, JsonValue))
    requires DistinctKeys(s)
    ensures multiset(s)[x] <= 1
  {
    if s != [] {
      assert s == [s[0]] + s[1..];
      DistinctKeysOccurOnce(s[1..], x);
      if x == s[0] {
        assert x !in s[1..] by {
          forall j | 0 <= j < |s[1..]| ensures s[1..][j] != x {
            assert s[1..][j] == s[j + 1];
          }
        }
      }
    }
  }

  lemma PermutationKeepsDistinctKeys(s: seq<(string, JsonValue)>, t: seq<(string, JsonValue)>)
    requires DistinctKeys(s) && multiset(t) == multiset(s)
    ensures DistinctKeys(t)
  {
    forall i, j | 0 <= i < j < |t| ensures t[i].0 != t[j].0 {
      if t[i].0 == t[j].0 {
        assert t[i] in multiset(s) && t[j] in multiset(s);
        if t[i] == t[j] {
          assert t == t[..j] + t[j..];
          assert t[i] in t[..j] by { assert t[..j][i] == t[i]; }
          assert t[j] in t[j..] by { assert t[j..][0] == t[j]; }
          assert multiset(t)[t[i]] == multiset(t[..j])[t[i]] + multiset(t[j..])[t[i]];
          DistinctKeysOccurOnce(s, t[i]);
          assert false;
        } else {
          var p :| 0 <= p < |s| && s[p] == t[i];
          var q :| 0 <= q < |s| && s[q] == t[j];
          assert false;
        }
      }
    }
  }

  lemma MetadataKeysDistinct(s: RawSubmission, filename: string)
    ensures DistinctKeys(Metadata(s, filename))
  {
    var m := Metadata(s, filename);
    forall i, j | 0 <= i < j < |m| ensures m[i].0 != m[j].0 {
      assert m[i].0[0] != m[j].0[0] || |m[i].0| != |m[j].0|;
    }
  }

  /**
   * meta.json is json.dumps(metadata, sort_keys=True): exactly the metadata
   * entries, each key once, in strictly increasing key order; the author is
   * '[deleted]' when missing.
   */
  lemma MetaDocumentIsSortedMetadata(s: RawSubmission, filename: string)
    ensures multiset(MetaDocument(s, filename)) == multiset(Metadata(s, filename))
    ensures SortedBy(MetaDocument(s, filename), KeyLe)
    ensures forall i, j :: 0 <= i < j < |MetaDocument(s, filename)| ==>
              MetaDocument(s, filename)[i].0 != MetaDocument(s, filename)[j].0
    ensures ("author", JString(AuthorName(s.author))) in MetaDocument(s, filename)
    ensures ("image_filename", JString(filename)) in MetaDocument(s, filename)
  {
    var doc := MetaDocument(s, filename);
    KeysInOrder(s, filename);
    ChainSorted(doc);
    MetadataKeysDistinct(s, filename);
    MetaDocumentPermutes(s, filename);
    PermutationKeepsDistinctKeys(Metadata(s, filename), doc);
    MetaDocumentEntries(s, filename);
  }

  lemma MetaDocumentEntries(s: RawSubmission, filename: string)
    ensures ("author", JString(AuthorName(s.author))) in MetaDocument(s, filename)
    ensures ("image_filename", JString(filename)) in MetaDocument(s, filename)
  {
    var doc := MetaDocument(s, filename);
    assert doc[0] == ("author", JString(AuthorName(s.author)));
    assert doc[4] == ("image_filename", JString(filename));
  }

  lemma MetaDocumentPermutes(s: RawSubmission, filename: string)
    ensures multiset(MetaDocument(s, filename)) == multiset(Metadata(s, filename))
  {
    var m := Metadata(s, filename);
    var doc := MetaDocument(s, filename);
    var a, b, c, d := [m[0]], m[1..3], m[3..9], [m[9]];
    assert m == a + b + c + d;
    assert doc == d + b + a + c;
    ReorderedParts(a, b, c, d);
  }

  lemma ReorderedParts<T>(a: seq<T>, b: seq<T>, c: seq<T>, d: seq<T>)
    ensures multiset(d + b + a + c) == multiset(a + b + c + d)
  {
    calc {
      multiset(d + b + a + c);
      multiset(d) + multiset(b) + multiset(a) + multiset(c);
      multiset(a) + multiset(b) + multiset(c) + multiset(d);
      multiset(a + b + c + d);
    }
  }

  lemma KeysInOrder(s: RawSubmission, filename: string)
    ensures forall i :: 0 <= i < |MetaDocument(s, filename)| - 1 ==>
              StrLe(MetaDocument(s, filename)[i].0, MetaDocument(s, filename)[i + 1].0)
  {
    var doc := MetaDocument(s, filename);
    forall i | 0 <= i < |doc| - 1 ensures StrLe(doc[i].0, doc[i + 1].0) {
      assert doc[i].0[0] < doc[i + 1].0[0] || (doc[i].0[0] == doc[i + 1].0[0] && doc[i].0[1] < doc[i + 1].0[1]);
    }
  }

  // ---------------------------------------------------------------------------
  // Saving a listing

  /** The effect of one operation: the filesystem after it, the URLs it fetched, and how it ended. */
  datatype Step = Step(nodes: Nodes, fetched: seq<string>, outcome: Outcome<GatherError>)

  /** `rest` run after `first` succeeded. */
  function Then(first: Step, rest: Step): Step {
    Step(rest.nodes, first.fetched + rest.fetched, rest.outcome)
  }

  lemma ThenAssociates(a: Step, b: Step, c: Step)
    ensures Then(a, Then(b, c)) == Then(Then(a, b), c)
  {
  }

  function FsOutcome(o: Outcome<FsError>): (r: Outcome<GatherError>)
    ensures r.Pass? <==> o.Pass?
  {
    match o
    case Pass => Pass
    case Fail(e) => Fail(StorageError(e))
  }

  /** What save_submission_content works out before it touches the disk. */
  datatype SaveTask = SaveTask(dir: Path, metaPath: Path, meta: Node, imagePath: Path, url: string)

  /** meta.json is an entry of the directory; the image path is another entry, or the directory itself when the file name is empty. */
  predicate WellFormed(t: SaveTask) {
    && t.metaPath == t.dir + ["meta.json"]
    && t.meta.JsonFile?
    && (t.imagePath == t.dir || (|t.imagePath| == |t.dir| + 1 && t.imagePath[..|t.dir|] == t.dir))
  }

  function SubmissionDir(storageDir: Path, s: RawSubmission): Path {
    Join(storageDir, s.id)
  }

  function MetaPath(storageDir: Path, s: RawSubmission): Path {
    Join(SubmissionDir(storageDir, s), "meta.json")
  }

  /** data_dir/subreddit/id, its meta.json with the sorted metadata, and the image named after the URL. */
  function TaskOf(storageDir: Path, s: RawSubmission): (t: SaveTask)
    ensures WellFormed(t)
    ensures t.dir == SubmissionDir(storageDir, s) && t.metaPath == MetaPath(storageDir, s) && t.url == s.url
  {
    var dir := SubmissionDir(storageDir, s);
    var filename := ImageFilename(s.url);
    SaveTask(dir, MetaPath(storageDir, s), JsonFile(MetaDocument(s, filename)), Join(dir, filename), s.url)
  }

  /**
   * download_submission_image: only too many redirects is caught; an HTTP
   * status from 400 to 599 and any other request failure end the run.
   */
  function AfterDownload(n: Nodes, url: string, path: Path, fetch: string -> FetchOutcome): (r: Step)
    ensures r.fetched == [url]
    ensures r.outcome.Fail? ==> r.nodes == n
    ensures r.nodes != n ==>
              r.outcome.Pass? && fetch(url).Response? && r.nodes == n[path := BinaryFile(fetch(url).content)]
  {
    match fetch(url)
    case TooManyRedirects => Step(n, [url], Pass)
    case RequestFailed => Step(n, [url], Fail(RequestError(url)))
    case Response(status, content) =>
      if 400 <= status < 600 then Step(n, [url], Fail(HttpError(url, status)))
      else
        var w := AfterWrite(n, path, BinaryFile(content));
        Step(w.nodes, [url], FsOutcome(w.outcome))
  }

  /** save_submission_content: makedirs, then the rest of the save. */
  function AfterSave(n: Nodes, t: SaveTask, fetch: string -> FetchOutcome): (r: Step)
    ensures r.fetched == [] || r.fetched == [t.url]
  {
    var made := AfterMakeDirs(n, t.dir);
    if made.outcome.Fail? then Step(made.nodes, [], FsOutcome(made.outcome))
    else AfterSaveMeta(made.nodes, t, fetch)
  }

  /** Rewrite meta.json, then the image. */
  function AfterSaveMeta(n: Nodes, t: SaveTask, fetch: string -> FetchOutcome): Step {
    var meta := AfterWrite(n, t.metaPath, t.meta);
    if meta.outcome.Fail? then Step(meta.nodes, [], FsOutcome(meta.outcome))
    else AfterSaveImage(meta.nodes, t, fetch)
  }

  /** Download unless the image path exists. */
  function AfterSaveImage(n: Nodes, t: SaveTask, fetch: string -> FetchOutcome): Step {
    if Exists(n, t.imagePath) then Step(n, [], Pass)
    else AfterDownload(n, t.url, t.imagePath, fetch)
  }

  /** Every fetched URL is the URL of a submission of the listing that is not a video. */
  ghost predicate FetchesOnly(fetched: seq<string>, listing: seq<RawSubmission>) {
    forall u :: u in fetched ==> exists s :: s in listing && !IsVideo(s) && s.url == u
  }

  lemma FetchesOnlyTail(fetched: seq<string>, listing: seq<RawSubmission>)
    requires listing != [] && FetchesOnly(fetched, listing[1..])
    ensures FetchesOnly(fetched, listing)
  {
    forall u | u in fetched ensures exists s :: s in listing && !IsVideo(s) && s.url == u {
      var s :| s in listing[1..] && !IsVideo(s) && s.url == u;
      assert s in listing;
    }
  }

  lemma FetchesOnlyHead(fetched: seq<string>, listing: seq<RawSubmission>)
    requires listing != [] && !IsVideo(listing[0])
    requires fetched == [] || fetched == [listing[0].url]
    ensures FetchesOnly(fetched, listing)
  {
    assert listing[0] in listing;
  }

  lemma FetchesOnlyAppend(a: seq<string>, b: seq<string>, listing: seq<RawSubmission>)
    requires FetchesOnly(a, listing) && FetchesOnly(b, listing)
    ensures FetchesOnly(a + b, listing)
  {
  }

  /** The loop over a listing: videos skipped, the first failure ends it. */
  function AfterListing(n: Nodes, storageDir: Path, listing: seq<RawSubmission>, fetch: string -> FetchOutcome): (r: Step)
    ensures |r.fetched| <= |listing|
    decreases |listing|
  {
    if listing == [] then Step(n, [], Pass)
    else if IsVideo(listing[0]) then AfterListing(n, storageDir, listing[1..], fetch)
    else
      var saved := AfterSave(n, TaskOf(storageDir, listing[0]), fetch);
      if saved.outcome.Fail? then saved
      else Then(saved, AfterListing(saved.nodes, storageDir, listing[1..], fetch))
  }

  /** The listing loop fetches only the image URLs of its own submissions, never a video's. */
  lemma {:induction false} ListingFetchesOnly(n: Nodes, storageDir: Path, listing: seq<RawSubmission>,
                                              fetch: string -> FetchOutcome)
    ensures FetchesOnly(AfterListing(n, storageDir, listing, fetch).fetched, listing)
    decreases |listing|
  {
    if listing != [] {
      if IsVideo(listing[0]) {
        ListingFetchesOnly(n, storageDir, listing[1..], fetch);
        FetchesOnlyTail(AfterListing(n, storageDir, listing[1..], fetch).fetched, listing);
      } else {
        ListingAfterSave(n, storageDir, listing, fetch);
        var t := TaskOf(storageDir, listing[0]);
        var saved := AfterSave(n, t, fetch);
        FetchesOnlyHead(saved.fetched, listing);
        if saved.outcome.Pass? {
          var rest := AfterListing(saved.nodes, storageDir, listing[1..], fetch);
          ListingFetchesOnly(saved.nodes, storageDir, listing[1..], fetch);
          FetchesOnlyTail(rest.fetched, listing);
          FetchesOnlyAppend(saved.fetched, rest.fetched, listing);
          assert AfterListing(n, storageDir, listing, fetch).fetched == saved.fetched + rest.fetched;
        }
      }
    }
  }

  /** get_subreddit_top_submissions: makedirs data_dir/subreddit, then the listing. */
  function AfterGather(n: Nodes, dataDir: Path, subreddit: string, listing: seq<RawSubmission>,
                       fetch: string -> FetchOutcome): (r: Step)
    ensures |r.fetched| <= |listing|
  {
    var storageDir := Join(dataDir, subreddit);
    var made := AfterMakeDirs(n, storageDir);
    if made.outcome.Fail? then Step(made.nodes, [], FsOutcome(made.outcome))
    else AfterListing(made.nodes, storageDir, listing, fetch)
  }

  /**
   * Gathering a subreddit fetches at most once per listed submission, and
   * only image URLs of the listing's non-video submissions.
   */
  lemma GatherFetchesOnly(n: Nodes, dataDir: Path, subreddit: string, listing: seq<RawSubmission>,
                          fetch: string -> FetchOutcome)
    ensures |AfterGather(n, dataDir, subreddit, listing, fetch).fetched| <= |listing|
    ensures FetchesOnly(AfterGather(n, dataDir, subreddit, listing, fetch).fetched, listing)
  {
    var storageDir := Join(dataDir, subreddit);
    var made := AfterMakeDirs(n, storageDir);
    if made.outcome.Pass? {
      ListingFetchesOnly(made.nodes, storageDir, listing, fetch);
    }
  }

  lemma ListingSkipsVideo(n: Nodes, storageDir: Path, listing: seq<RawSubmission>, fetch: string -> FetchOutcome)
    requires listing != [] && IsVideo(listing[0])
    ensures AfterListing(n, storageDir, listing, fetch) == AfterListing(n, storageDir, listing[1..], fetch)
  {
  }

  lemma ListingAfterSave(n: Nodes, storageDir: Path, listing: seq<RawSubmission>, fetch: string -> FetchOutcome)
    requires listing != [] && !IsVideo(listing[0])
    ensures var saved := AfterSave(n, TaskOf(storageDir, listing[0]), fetch);
            AfterListing(n, storageDir, listing, fetch)
            == if saved.outcome.Fail? then saved
               else Then(saved, AfterListing(saved.nodes, storageDir, listing[1..], fetch))
  {
  }

  method DownloadSubmissionImage(fs: FileSystem, s: RawSubmission, submissionDir: Path, filename: string,
                                 fetch: string -> FetchOutcome)
    returns (fetched: seq<string>, o: Outcome<GatherError>)
    modifies fs
    ensures Step(fs.nodes, fetched, o) == AfterDownload(old(fs.nodes), s.url, Join(submissionDir, filename), fetch)
  {
    fetched := [s.url];
    var response := fetch(s.url);
    match response
    case TooManyRedirects =>
      o := Pass;
    case RequestFailed =>
      o := Fail(RequestError(s.url));
    case Response(status, content) =>
      if 400 <= status < 600 {
        o := Fail(HttpError(s.url, status));
      } else {
        var written := fs.WriteFile(Join(submissionDir, filename), BinaryFile(content));
        o := FsOutcome(written);
      }
  }

  method SaveSubmissionContent(fs: FileSystem, storageDir: Path, s: RawSubmission, fetch: string -> FetchOutcome)
    returns (fetched: seq<string>, o: Outcome<GatherError>)
    modifies fs
    ensures Step(fs.nodes, fetched, o) == AfterSave(old(fs.nodes), TaskOf(storageDir, s), fetch)
  {
    var submissionDir := Join(storageDir, s.id);
    var made := fs.MakeDirs(submissionDir);
    if made.Fail? {
      return [], FsOutcome(made);
    }
    var filename := ImageFilename(s.url);
    var written := fs.WriteFile(Join(submissionDir, "meta.json"), JsonFile(MetaDocument(s, filename)));
    if written.Fail? {
      return [], FsOutcome(written);
    }
    if fs.PathExists(Join(submissionDir, filename)) {
      return [], Pass;
    }
    fetched, o := DownloadSubmissionImage(fs, s, submissionDir, filename, fetch);
  }

  method GetSubredditTopSubmissions(fs: FileSystem, top: (string, nat, string) -> seq<RawSubmission>,
                                    subreddit: string, timeFilter: string, limit: nat, dataDir: Path,
                                    fetch: string -> FetchOutcome)
    returns (fetched: seq<string>, o: Outcome<GatherError>)
    modifies fs
    ensures Step(fs.nodes, fetched, o) == AfterGather(old(fs.nodes), dataDir, subreddit, top(subreddit, limit, timeFilter), fetch)
  {
    var storageDir := Join(dataDir, subreddit);
    var made := fs.MakeDirs(storageDir);
    if made.Fail? {
      return [], FsOutcome(made);
    }
    var submissions := top(subreddit, limit, timeFilter);
    ghost var spec := AfterGather(old(fs.nodes), dataDir, subreddit, submissions, fetch);
    assert spec == AfterListing(fs.nodes, storageDir, submissions, fetch);
    fetched := [];
    var i := 0;
    while i < |submissions|
      invariant 0 <= i <= |submissions|
      invariant spec == Then(Step(fs.nodes, fetched, Pass), AfterListing(fs.nodes, storageDir, submissions[i..], fetch))
    {
      var s := submissions[i];
      assert submissions[i..][0] == s && submissions[i..][1..] == submissions[i + 1..];
      if !IsVideo(s) {
        ghost var before := fs.nodes;
        ghost var earlier := fetched;
        var f, r := SaveSubmissionContent(fs, storageDir, s, fetch);
        ListingAfterSave(before, storageDir, submissions[i..], fetch);
        fetched := fetched + f;
        if r.Fail? {
          return fetched, r;
        }
        ThenAssociates(Step(before, earlier, Pass), Step(fs.nodes, f, Pass),
                       AfterListing(fs.nodes, storageDir, submissions[i + 1..], fetch));
      } else {
        ListingSkipsVideo(fs.nodes, storageDir, submissions[i..], fetch);
      }
      i := i + 1;
    }
    return fetched, Pass;
  }

  // ---------------------------------------------------------------------------
  // What a save and a listing promise

  /** Videos play no part: the listing behaves as its non-video entries alone. */
  lemma {:induction false} ListingIgnoresVideos(n: Nodes, storageDir: Path, listing: seq<RawSubmission>,
                                                fetch: string -> FetchOutcome)
    ensures AfterListing(n, storageDir, listing, fetch)
         == AfterListing(n, storageDir, Filter(listing, (s: RawSubmission) => !IsVideo(s)), fetch)
    decreases |listing|
  {
    var keep := (s: RawSubmission) => !IsVideo(s);
    if listing != [] {
      var kept := Filter(listing, keep);
      assert listing == [listing[0]] + listing[1..];
      if IsVideo(listing[0]) {
        assert kept == Filter(listing[1..], keep);
        ListingIgnoresVideos(n, storageDir, listing[1..], fetch);
      } else {
        assert kept == [listing[0]] + Filter(listing[1..], keep);
        assert kept[0] == listing[0] && kept[1..] == Filter(listing[1..], keep);
        var saved := AfterSave(n, TaskOf(storageDir, listing[0]), fetch);
        if saved.outcome.Pass? {
          ListingIgnoresVideos(saved.nodes, storageDir, listing[1..], fetch);
        }
      }
    }
  }

  /** The listing is processed in order and the first failure ends it. */
  lemma {:induction false} ListingSplits(n: Nodes, storageDir: Path, a: seq<RawSubmission>, b: seq<RawSubmission>,
                                         fetch: string -> FetchOutcome)
    ensures var first := AfterListing(n, storageDir, a, fetch);
            AfterListing(n, storageDir, a + b, fetch)
            == if first.outcome.Fail? then first else Then(first, AfterListing(first.nodes, storageDir, b, fetch))
    decreases |a|
  {
    if a == [] {
      assert a + b == b;
    } else {
      assert (a + b)[0] == a[0] && (a + b)[1..] == a[1..] + b;
      if IsVideo(a[0]) {
        ListingSkipsVideo(n, storageDir, a, fetch);
        ListingSkipsVideo(n, storageDir, a + b, fetch);
        ListingSplits(n, storageDir, a[1..], b, fetch);
      } else {
        ListingAfterSave(n, storageDir, a, fetch);
        ListingAfterSave(n, storageDir, a + b, fetch);
        var saved := AfterSave(n, TaskOf(storageDir, a[0]), fetch);
        if saved.outcome.Pass? {
          ListingSplits(saved.nodes, storageDir, a[1..], b, fetch);
          var rest := AfterListing(saved.nodes, storageDir, a[1..], fetch);
          if rest.outcome.Pass? {
            ThenAssociates(saved, rest, AfterListing(rest.nodes, storageDir, b, fetch));
          }
        }
      }
    }
  }

  /** makedirs of the submission directory: nothing existing changes, and on success the directory and its ancestors exist. */
  lemma SaveMakesDir(n: Nodes, t: SaveTask)
    ensures Grows(n, AfterMakeDirs(n, t.dir).nodes, {})
    ensures AfterMakeDirs(n, t.dir).outcome.Pass? ==>
              forall i :: 0 < i <= |t.dir| ==> IsDir(AfterMakeDirs(n, t.dir).nodes, t.dir[..i])
    ensures AfterMakeDirs(n, t.dir).outcome.Pass? ==> IsDir(AfterMakeDirs(n, t.dir).nodes, t.dir)
  {
    MakeDirsEffect(n, t.dir);
    if t.dir != [] {
      assert t.dir[..|t.dir|] == t.dir;
    }
  }

  /** Writing meta.json into an existing submission directory. */
  lemma SaveWritesMeta(n: Nodes, t: SaveTask, fetch: string -> FetchOutcome)
    requires WellFormed(t) && IsDir(n, t.dir)
    ensures var meta := AfterWrite(n, t.metaPath, t.meta);
            && (meta.outcome.Pass? <==> !IsDir(n, t.metaPath))
            && (meta.outcome.Pass? ==>
                  meta.nodes == n[t.metaPath := t.meta]
                  && AfterSaveMeta(n, t, fetch) == AfterSaveImage(meta.nodes, t, fetch))
            && (meta.outcome.Fail? ==>
                  AfterSaveMeta(n, t, fetch).fetched == [] && AfterSaveMeta(n, t, fetch).outcome.Fail?)
  {
    assert t.metaPath[..|t.metaPath| - 1] == t.dir;
  }

  /** The image stage, on a filesystem where the submission directory exists. */
  lemma SaveImageStage(n: Nodes, t: SaveTask, fetch: string -> FetchOutcome)
    requires WellFormed(t) && IsDir(n, t.dir)
    ensures var r := AfterSaveImage(n, t, fetch);
            && (Exists(n, t.imagePath) ==> r == Step(n, [], Pass))
            && (!Exists(n, t.imagePath) ==>
                  r.fetched == [t.url] && t.imagePath != [] && !IsDir(n, t.imagePath)
                  && IsDir(n, t.imagePath[..|t.imagePath| - 1]))
            && (r.outcome.Pass? ==>
                  Grows(n, r.nodes, {})
                  && (!Exists(n, t.imagePath) ==> Exists(r.nodes, t.imagePath) || fetch(t.url).TooManyRedirects?))
  {
    if !Exists(n, t.imagePath) {
      assert t.imagePath != t.dir;
      assert t.imagePath[..|t.imagePath| - 1] == t.dir;
    }
  }

  /**
   * A download is attempted only for an image path that did not exist before
   * the save, never for an empty file name or for "meta.json"; an image that
   * existed keeps its content and nothing is fetched.
   */
  lemma SaveDownloadsOnlyMissingImages(n: Nodes, t: SaveTask, fetch: string -> FetchOutcome)
    requires WellFormed(t)
    ensures var saved := AfterSave(n, t, fetch);
            saved.fetched != [] ==>
              && saved.fetched == [t.url]
              && !Exists(n, t.imagePath)
              && t.imagePath != t.dir
              && t.imagePath != t.metaPath
    ensures var saved := AfterSave(n, t, fetch);
            Exists(n, t.imagePath) ==>
              && saved.fetched == []
              && (t.imagePath in n && t.imagePath != t.metaPath ==>
                    t.imagePath in saved.nodes && saved.nodes[t.imagePath] == n[t.imagePath])
  {
    SaveMakesDir(n, t);
    var made := AfterMakeDirs(n, t.dir);
    if made.outcome.Pass? {
      SaveWritesMeta(made.nodes, t, fetch);
      var meta := AfterWrite(made.nodes, t.metaPath, t.meta);
      if meta.outcome.Pass? {
        assert IsDir(meta.nodes, t.dir);
        SaveImageStage(meta.nodes, t, fetch);
      }
    }
  }

  /** An empty file name (a URL whose path is empty or ends in '/') never leads to a download. */
  lemma EmptyFilenameNeverDownloads(n: Nodes, storageDir: Path, s: RawSubmission, fetch: string -> FetchOutcome)
    requires UrlPath(s.url) == [] || UrlPath(s.url)[|UrlPath(s.url)| - 1] == '/'
    ensures AfterSave(n, TaskOf(storageDir, s), fetch).fetched == []
  {
    ImageFilenameShape(s.url);
    SaveDownloadsOnlyMissingImages(n, TaskOf(storageDir, s), fetch);
  }

  /**
   * A file name "." or ".." (a URL path ending in "/." or "/..") names the
   * submission directory or its parent, which both exist once makedirs has
   * run, so it never leads to a download either.
   */
  lemma DotFilenameNeverDownloads(n: Nodes, storageDir: Path, s: RawSubmission, fetch: string -> FetchOutcome)
    requires IsDotName(ImageFilename(s.url))
    ensures AfterSave(n, TaskOf(storageDir, s), fetch).fetched == []
  {
    var t := TaskOf(storageDir, s);
    assert t.imagePath == t.dir + [ImageFilename(s.url)];
    DotImageNeverDownloads(n, t, fetch);
  }

  lemma DotImageNeverDownloads(n: Nodes, t: SaveTask, fetch: string -> FetchOutcome)
    requires WellFormed(t) && t.imagePath != t.dir && IsDotName(t.imagePath[|t.imagePath| - 1])
    ensures AfterSave(n, t, fetch).fetched == []
  {
    SaveMakesDir(n, t);
    var made := AfterMakeDirs(n, t.dir);
    if made.outcome.Pass? {
      SaveWritesMeta(made.nodes, t, fetch);
      var meta := AfterWrite(made.nodes, t.metaPath, t.meta);
      if meta.outcome.Pass? {
        assert IsDir(meta.nodes, t.dir);
        assert t.imagePath[..|t.imagePath| - 1] == t.dir;
        assert DotEntry(meta.nodes, t.imagePath);
        SaveImageStage(meta.nodes, t, fetch);
      }
    }
  }

  /** Such URLs exist: the basename of ".../a/.." is "..". */
  lemma ParentSegmentFilename(host: string)
    requires Plain(host)
    ensures ImageFilename("https://" + host + "/a" + "/" + ".." + "") == ".."
  {
    assert Plain("..") by {
      forall i | 0 <= i < 2 ensures ".."[i] == '.' { }
    }
    ImageFilenameOfPlainUrl(host, "/a", "..", "");
  }

  /**
   * The download's error policy: too many redirects is logged and the image
   * is not written; an HTTP status from 400 to 599 and any other request
   * failure are errors; any other response is written to the image path.
   */
  lemma SaveDownloadPolicy(n: Nodes, t: SaveTask, fetch: string -> FetchOutcome)
    requires WellFormed(t)
    requires AfterSave(n, t, fetch).fetched != []
    ensures var saved := AfterSave(n, t, fetch);
            match fetch(t.url)
            case TooManyRedirects =>
              saved.outcome.Pass? && t.imagePath !in saved.nodes
            case RequestFailed =>
              saved.outcome == Fail(RequestError(t.url)) && t.imagePath !in saved.nodes
            case Response(status, content) =>
              if 400 <= status < 600 then
                saved.outcome == Fail(HttpError(t.url, status)) && t.imagePath !in saved.nodes
              else
                saved.outcome.Pass? && saved.nodes[t.imagePath] == BinaryFile(content)
  {
    SaveDownloadsOnlyMissingImages(n, t, fetch);
    SaveMakesDir(n, t);
    var made := AfterMakeDirs(n, t.dir).nodes;
    SaveWritesMeta(made, t, fetch);
    var meta := AfterWrite(made, t.metaPath, t.meta).nodes;
    assert IsDir(meta, t.dir);
    SaveImageStage(meta, t, fetch);
  }

  /** Every successful save leaves meta.json holding the submission's current metadata. */
  lemma SaveRewritesMeta(n: Nodes, t: SaveTask, fetch: string -> FetchOutcome)
    requires WellFormed(t)
    requires AfterSave(n, t, fetch).outcome.Pass?
    ensures t.metaPath in AfterSave(n, t, fetch).nodes && AfterSave(n, t, fetch).nodes[t.metaPath] == t.meta
  {
    SaveMakesDir(n, t);
    var made := AfterMakeDirs(n, t.dir).nodes;
    SaveWritesMeta(made, t, fetch);
    var meta := AfterWrite(made, t.metaPath, t.meta).nodes;
    assert IsDir(meta, t.dir);
    SaveImageStage(meta, t, fetch);
  }

  // ---------------------------------------------------------------------------
  // Running the gatherer twice

  /** Submission ids are distinct and non-empty, so every submission has a directory of its own. */
  predicate IdsDistinct(listing: seq<RawSubmission>) {
    && (forall i, j :: 0 <= i < j < |listing| ==> listing[i].id != listing[j].id)
    && (forall i :: 0 <= i < |listing| ==> listing[i].id != "")
  }

  /**
   * A save has nothing left to do: the directories exist, meta.json holds the
   * metadata, and the image exists or can never be fetched.
   */
  ghost predicate Covered(n: Nodes, t: SaveTask, fetch: string -> FetchOutcome) {
    && (forall i :: 0 < i <= |t.dir| ==> IsDir(n, t.dir[..i]))
    && t.metaPath in n
    && n[t.metaPath] == t.meta
    && (Exists(n, t.imagePath) || fetch(t.url) == TooManyRedirects)
  }

  function MetaPaths(storageDir: Path, listing: seq<RawSubmission>): set<Path> {
    set s | s in listing :: MetaPath(storageDir, s)
  }

  function Urls(listing: seq<RawSubmission>): set<string> {
    set s | s in listing :: s.url
  }

  /** Saving a covered submission changes nothing and fetches at most its URL, which redirects too often. */
  lemma SaveOnCovered(n: Nodes, t: SaveTask, fetch: string -> FetchOutcome)
    requires WellFormed(t) && Covered(n, t, fetch)
    ensures AfterSave(n, t, fetch).nodes == n
    ensures AfterSave(n, t, fetch).outcome == Pass
    ensures forall u :: u in AfterSave(n, t, fetch).fetched ==> u == t.url && fetch(u) == TooManyRedirects
    ensures !fetch(t.url).TooManyRedirects? ==> AfterSave(n, t, fetch).fetched == []
  {
    MakeDirsEffect(n, t.dir);
    assert AfterMakeDirs(n, t.dir) == FsResult(n, Pass);
    assert IsDir(n, t.dir) by {
      if t.dir != [] { assert t.dir[..|t.dir|] == t.dir; }
    }
    SaveWritesMeta(n, t, fetch);
    assert n[t.metaPath := t.meta] == n;
    SaveImageStage(n, t, fetch);
  }

  /** After a successful save the submission is covered. */
  lemma SaveCovers(n: Nodes, t: SaveTask, fetch: string -> FetchOutcome)
    requires WellFormed(t)
    requires AfterSave(n, t, fetch).outcome.Pass?
    ensures Covered(AfterSave(n, t, fetch).nodes, t, fetch)
  {
    SaveMakesDir(n, t);
    var made := AfterMakeDirs(n, t.dir).nodes;
    SaveWritesMeta(made, t, fetch);
    var meta := made[t.metaPath := t.meta];
    forall i | 0 < i <= |t.dir| ensures IsDir(meta, t.dir[..i]) {
      assert |t.dir[..i]| < |t.metaPath|;
    }
    assert IsDir(meta, t.dir);
    SaveImageStage(meta, t, fetch);
  }

  /** A successful save changes no existing node except meta.json. */
  lemma SaveGrows(n: Nodes, t: SaveTask, fetch: string -> FetchOutcome)
    requires WellFormed(t)
    requires AfterSave(n, t, fetch).outcome.Pass?
    ensures Grows(n, AfterSave(n, t, fetch).nodes, {t.metaPath})
  {
    SaveMakesDir(n, t);
    var made := AfterMakeDirs(n, t.dir).nodes;
    SaveWritesMeta(made, t, fetch);
    var meta := made[t.metaPath := t.meta];
    assert IsDir(meta, t.dir);
    SaveImageStage(meta, t, fetch);
    GrowsTransitive(n, made, meta, {}, {t.metaPath});
    GrowsTransitive(n, meta, AfterSave(n, t, fetch).nodes, {t.metaPath}, {});
  }

  /** Coverage survives changes that leave the submission's directories and meta.json alone. */
  lemma CoveredStable(n: Nodes, n': Nodes, t: SaveTask, fetch: string -> FetchOutcome, changed: set<Path>)
    requires WellFormed(t)
    requires Covered(n, t, fetch)
    requires Grows(n, n', changed)
    requires t.metaPath !in changed
    requires forall p :: p in changed ==> |p| > |t.dir|
    ensures Covered(n', t, fetch)
  {
    forall i | 0 < i <= |t.dir| ensures IsDir(n', t.dir[..i]) {
      assert t.dir[..i] !in changed;
    }
    if t.imagePath != t.dir && DotEntry(n, t.imagePath) {
      assert t.imagePath[..|t.imagePath| - 1] == t.dir;
      assert t.dir !in changed;
    }
  }

  /** A successful listing changes no existing node except meta.json files of its submissions. */
  lemma {:induction false} ListingGrows(n: Nodes, storageDir: Path, listing: seq<RawSubmission>,
                                        fetch: string -> FetchOutcome)
    requires AfterListing(n, storageDir, listing, fetch).outcome.Pass?
    ensures Grows(n, AfterListing(n, storageDir, listing, fetch).nodes, MetaPaths(storageDir, listing))
    decreases |listing|
  {
    if listing != [] {
      assert MetaPaths(storageDir, listing[1..]) <= MetaPaths(storageDir, listing) by {
        forall s | s in listing[1..] ensures s in listing { }
      }
      if IsVideo(listing[0]) {
        ListingSkipsVideo(n, storageDir, listing, fetch);
        ListingGrows(n, storageDir, listing[1..], fetch);
      } else {
        ListingAfterSave(n, storageDir, listing, fetch);
        var t := TaskOf(storageDir, listing[0]);
        var saved := AfterSave(n, t, fetch);
        SaveGrows(n, t, fetch);
        ListingGrows(saved.nodes, storageDir, listing[1..], fetch);
        GrowsTransitive(n, saved.nodes, AfterListing(saved.nodes, storageDir, listing[1..], fetch).nodes,
                        {t.metaPath}, MetaPaths(storageDir, listing[1..]));
      }
    }
  }

  /** The meta.json paths of the other submissions lie outside a submission's directories and meta.json. */
  lemma OtherMetaPaths(storageDir: Path, listing: seq<RawSubmission>)
    requires listing != [] && IdsDistinct(listing)
    ensures MetaPath(storageDir, listing[0]) !in MetaPaths(storageDir, listing[1..])
    ensures forall p :: p in MetaPaths(storageDir, listing[1..]) ==> |p| > |SubmissionDir(storageDir, listing[0])|
  {
    var e := listing[0];
    forall f | f in listing[1..]
      ensures MetaPath(storageDir, f) != MetaPath(storageDir, e)
      ensures |MetaPath(storageDir, f)| > |SubmissionDir(storageDir, e)|
    {
      var k :| 0 <= k < |listing[1..]| && listing[1..][k] == f;
      assert listing[k + 1] == f;
      assert MetaPath(storageDir, f)[|storageDir|] == f.id;
      assert MetaPath(storageDir, e)[|storageDir|] == e.id;
    }
  }

  lemma IdsDistinctTail(listing: seq<RawSubmission>)
    requires listing != [] && IdsDistinct(listing)
    ensures IdsDistinct(listing[1..])
  {
    var rest := listing[1..];
    forall i, j | 0 <= i < j < |rest| ensures rest[i].id != rest[j].id {
      assert rest[i] == listing[i + 1] && rest[j] == listing[j + 1];
    }
    forall i | 0 <= i < |rest| ensures rest[i].id != "" {
      assert rest[i] == listing[i + 1];
    }
  }

  /** After a successful listing every non-video submission in it is covered. */
  lemma {:induction false} ListingCovers(n: Nodes, storageDir: Path, listing: seq<RawSubmission>,
                                         fetch: string -> FetchOutcome)
    requires AfterListing(n, storageDir, listing, fetch).outcome.Pass?
    requires IdsDistinct(listing)
    ensures forall s :: s in listing && !IsVideo(s) ==>
              Covered(AfterListing(n, storageDir, listing, fetch).nodes, TaskOf(storageDir, s), fetch)
    decreases |listing|
  {
    if listing != [] {
      var rest := listing[1..];
      IdsDistinctTail(listing);
      assert forall s :: s in listing ==> s == listing[0] || s in rest;
      if IsVideo(listing[0]) {
        ListingSkipsVideo(n, storageDir, listing, fetch);
        ListingCovers(n, storageDir, rest, fetch);
      } else {
        ListingAfterSave(n, storageDir, listing, fetch);
        var t := TaskOf(storageDir, listing[0]);
        var saved := AfterSave(n, t, fetch);
        SaveCovers(n, t, fetch);
        ListingCovers(saved.nodes, storageDir, rest, fetch);
        ListingGrows(saved.nodes, storageDir, rest, fetch);
        OtherMetaPaths(storageDir, listing);
        CoveredStable(saved.nodes, AfterListing(saved.nodes, storageDir, rest, fetch).nodes, t, fetch,
                      MetaPaths(storageDir, rest));
      }
    }
  }

  /** A listing whose submissions are all covered changes nothing and fetches only URLs that redirect too often. */
  lemma {:induction false} ListingOnCovered(n: Nodes, storageDir: Path, listing: seq<RawSubmission>,
                                            fetch: string -> FetchOutcome)
    requires forall s :: s in listing && !IsVideo(s) ==> Covered(n, TaskOf(storageDir, s), fetch)
    ensures AfterListing(n, storageDir, listing, fetch).nodes == n
    ensures AfterListing(n, storageDir, listing, fetch).outcome == Pass
    ensures forall u :: u in AfterListing(n, storageDir, listing, fetch).fetched ==>
              u in Urls(listing) && fetch(u) == TooManyRedirects
    ensures (forall s :: s in listing ==> !fetch(s.url).TooManyRedirects?) ==>
              AfterListing(n, storageDir, listing, fetch).fetched == []
    decreases |listing|
  {
    if listing != [] {
      var rest := listing[1..];
      assert forall s :: s in rest ==> s in listing;
      assert Urls(rest) <= Urls(listing);
      ListingOnCovered(n, storageDir, rest, fetch);
      if IsVideo(listing[0]) {
        ListingSkipsVideo(n, storageDir, listing, fetch);
      } else {
        ListingAfterSave(n, storageDir, listing, fetch);
        SaveOnCovered(n, TaskOf(storageDir, listing[0]), fetch);
        assert listing[0].url in Urls(listing);
      }
    }
  }

  /**
   * Running the gatherer a second time over the same listing, against the
   * same web, changes nothing on disk and succeeds; the only URLs it fetches
   * again are ones that redirect too often.
   */
  lemma GatherIdempotent(n: Nodes, dataDir: Path, subreddit: string, listing: seq<RawSubmission>,
                         fetch: string -> FetchOutcome)
    requires AfterGather(n, dataDir, subreddit, listing, fetch).outcome.Pass?
    requires IdsDistinct(listing)
    ensures var first := AfterGather(n, dataDir, subreddit, listing, fetch);
            var second := AfterGather(first.nodes, dataDir, subreddit, listing, fetch);
            && second.nodes == first.nodes
            && second.outcome == Pass
            && (forall u :: u in second.fetched ==> u in Urls(listing) && fetch(u) == TooManyRedirects)
            && ((forall s :: s in listing ==> !fetch(s.url).TooManyRedirects?) ==> second.fetched == [])
  {
    var storageDir := Join(dataDir, subreddit);
    MakeDirsEffect(n, storageDir);
    var made := AfterMakeDirs(n, storageDir).nodes;
    var first := AfterListing(made, storageDir, listing, fetch);
    ListingGrows(made, storageDir, listing, fetch);
    ListingCovers(made, storageDir, listing, fetch);
    forall i | 0 < i <= |storageDir| ensures IsDir(first.nodes, storageDir[..i]) {
      assert storageDir[..i] !in MetaPaths(storageDir, listing) by {
        forall s | s in listing ensures |MetaPath(storageDir, s)| > |storageDir| {
          var k :| 0 <= k < |listing| && listing[k] == s;
        }
      }
    }
    MakeDirsEffect(first.nodes, storageDir);
    ListingOnCovered(first.nodes, storageDir, listing, fetch);
  }
}
