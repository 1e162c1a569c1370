# redwall in Dafny

A model of the decision logic of **redwall**, a wallpaper catalogue. redwall
gathers top image posts from Reddit, stores each one's metadata and image
under a data directory, and keeps a SQLite catalogue of subreddits,
submissions and selection history. It picks a submission large enough for
every connected monitor as the wallpaper, and answers console queries over
the catalogue.

The database session, the Reddit client, HTTP, the filesystem and the
monitor probe are replaced by values:

- The catalogue is a `Models.Catalog` of three sequences of rows. A
  `Models.Session` object holds it and is updated in place.
- Monitors are a sequence of `(height, width)` pairs.
- A subreddit's top listing is a function from `(subreddit, limit,
  time filter)` to submissions.
- HTTP is a deterministic oracle from URL to outcome: a response with a
  status and content, too many redirects, or any other request failure.
- The disk is a `Storage.FileSystem` object. It holds a map from path
  components to directories, JSON documents and binary files.
- The configuration files arrive as the section → option → value map that
  ConfigParser produced.

Modules follow the program:

- `Models`: rows, the subreddit/submission relation, `__repr__`.
- `Election`: the `Chooser`.
- `Stats`: the per-subreddit count.
- `Storage`: `os.makedirs`, `open(..., 'w')` and `os.path.exists` on the map.
- `UrlPaths`: `urlparse(url).path` and `os.path.basename`.
- `Gathering`: `redwall/gathering.py`. `redwall.py` repeats its three
  functions with a global data directory. `save_submission` and
  `download_submission_image` there are line for line those of the gatherer,
  so the `Gathering` members model both.
- `Script`: the `main` loop of `redwall.py`.
- `Configuration`: `Config.__init__`.
- `Cli`: the console commands.
- `Text`, `Ordering` and `Wrappers` hold the string, sorting and result
  helpers they share.

Three places where the code is followed over the documented behaviour:

- `display_stats` prints no grand total, only one line per subreddit.
- Gathering never touches the database. Submissions are de-duplicated only by
  the image file's existence on disk.
- A missing `[reddit]` key assigns `reddit_client_agent`, not
  `reddit_user_agent`. The user agent attribute is then never assigned.

## Model

| member | source | states |
|---|---|---|
| Models.SubmissionsOf | redwall/models.py:17-31 | `Subreddit.submissions` holds exactly the rows whose foreign key names the subreddit |
| Models.SubmissionsOfCounts | redwall/models.py:17-31 | each submission whose foreign key names the subreddit is in `Subreddit.submissions` as often as in the table, and no other submission is |
| Models.Owner | redwall/models.py:30-31 | `Submission.subreddit` is a row of the table whose id the foreign key holds; it is absent exactly when the key is NULL or names no row |
| Models.RelationshipInverse | redwall/models.py:17-31 | with unique primary keys, a submission is in a subreddit's `submissions` iff its `subreddit` is that subreddit |
| Models.PostIdAndNameNotUnique | redwall/models.py:15-33 | a catalogue with unique primary keys can still hold two subreddits with one name and two submissions with one post id |
| Models.SubredditRepr | redwall/models.py:19-20 | the repr `<Subreddit(name='N')>` reads back to the subreddit's name |
| Models.SubredditReprRoundTrip | redwall/models.py:19-20 | the name can be read back from `<Subreddit(name='N')>`, whatever the name |
| Models.SubmissionReprRoundTrip | redwall/models.py:49-54 | subreddit name, post id and title can be read back from the Submission repr when the first two hold no quote |
| Models.SubmissionRepr | redwall/models.py:49-54 | the repr exists exactly when the owning subreddit does; when the subreddit name and post id hold no quote it reads back to that name, the post id and the title |
| Models.SubmissionReprAmbiguous | redwall/models.py:49-54 | with quotes in the fields, two different rows give the same repr |
| Models.NextHistoryId | redwall/election.py:40-42 | a new history row gets an id above every existing one: 1 in an empty table, otherwise one more than some existing id |
| Models.Session.AddHistory | redwall/election.py:40-42 | adding a history row appends exactly that row with a fresh id and leaves the other tables alone |
| Models.SubredditsByName | redwall/election.py:48-50 | the subreddits ordered by `lower(name)` are a permutation of the table |
| Models.ByLowerNameIsPreorder | redwall/election.py:50 | ordering by ASCII-lower-cased name is total and transitive, so the sort is well defined |
| Text.StrLeTotal | redwall/election.py:50 | binary collation compares any two strings |
| Text.StrLeTransitive | redwall/election.py:50 | binary collation is transitive |
| Text.ContainsIffOccurs | redwall/cli.py:149 | substring containment holds iff the needle occurs at some position |
| Text.DecimalRoundTrip | redwall/stats.py:15 | the decimal rendering of a count parses back to the count |
| Election.RequiredSize | redwall/election.py:20-21 | no monitors is an error; otherwise height and width are each the maximum over all monitors, each attained by some monitor |
| Election.MaximaFromDifferentMonitors | redwall/election.py:17-21 | the required height and width can come from different monitors |
| Election.Candidates | redwall/election.py:25-28 | a row is a candidate iff it has both dimensions and they are at least the required ones, inclusive |
| Election.FitsRequiredSizeIffFitsEveryMonitor | redwall/election.py:17-28 | fitting the required size is the same as fitting every monitor |
| Election.DrawLeavesExactlyOneRow | redwall/election.py:35-42 | after a draw on a consistent history, exactly one history row references the chosen submission |
| Election.DrawTwiceSameAsOnce | redwall/election.py:35-42 | drawing the same submission again changes nothing |
| Election.DrawTouchesOnlyChosen | redwall/election.py:35-42 | a draw changes no submission or subreddit row, no existing history row, and no other submission's history |
| Election.RowsForUnique | redwall/election.py:36-38 | with one row per submission, the history query matches at most one row |
| Election.RecordDraw | redwall/election.py:35-42 | a draw succeeds unless two rows already reference the chosen submission; on success the submissions and subreddits are unchanged, the old history is a prefix of the new one with at most one row added, and some row references the chosen submission; an existing single row leaves the catalogue as it was, and with no row the history gains exactly `History(NextHistoryId, chosen id, now)` |
| Election.Chooser.constructor | redwall/election.py:13-21 | the chooser keeps the session and the required size of the monitors |
| Election.Chooser.GetCandidates | redwall/election.py:23-28 | the candidates are exactly the session's rows that fit the required size |
| Election.Chooser.GetRandomCandidate | redwall/election.py:30-44 | no candidates is an error and writes nothing; the only other error is a chosen submission with two history rows, so when no candidate has two rows the draw succeeds; a result is a candidate and the catalogue becomes that draw's insert-if-absent update |
| Election.SectionItems | redwall/election.py:55-61 | a subreddit's section lists exactly its own fitting rows, each as often as the table holds it, by ascending `created_utc` |
| Election.Report | redwall/election.py:46-61 | one section per subreddit in name order, each holding that subreddit's fitting rows |
| Election.ReportVisitsEverySubreddit | redwall/election.py:48-52 | every subreddit gets a section, even one with no candidates, in lower-cased-name order |
| Election.ReportSectionIsSubredditCandidates | redwall/election.py:55-61 | section i lists the candidates of the i-th subreddit and nothing else |
| Election.UnderlineMatchesHeader | redwall/election.py:53-54 | the underline is `3 + len(name)` dashes, as long as the header text |
| Election.PrintSubmissions | redwall/election.py:63-64 | the inner loop appends one pretty line per submission, in order |
| Election.Chooser.ListCandidatesBySubreddit | redwall/election.py:46-64 | the printed lines are the rendering of the report |
| Stats.StatsRowsCounted | redwall/stats.py:9-11 | each row's subreddit is in the table; its count is positive and equals a row-by-row count of the submissions whose foreign key names it |
| Stats.StatsRowsOncePerSubreddit | redwall/stats.py:9-12 | the inner join gives a subreddit with submissions exactly as many lines as it has rows in the table, and one without none |
| Stats.StatsRows | redwall/stats.py:9-12 | every row of the grouped count has a positive count, as the inner join keeps only subreddits with submissions |
| Stats.StatsRowIffHasSubmissions | redwall/stats.py:9-11 | a subreddit has a line iff it has at least one submission (inner join) |
| Stats.StatsRowsOrdered | redwall/stats.py:12 | lines come in lower-cased-name order |
| Stats.DisplayStats | redwall/stats.py:9-15 | line i is the `%5d  %s` line of result row i (its count and subreddit name), computed from the catalogue value alone, so the query is read-only |
| Stats.StatsLineLayout | redwall/stats.py:15 | a line is the count right-aligned in width 5 (wider counts widen it), two spaces, then the name; the count reads back |
| Stats.StatsLine | redwall/stats.py:15 | a line is at least seven characters longer than the name and ends with the name |
| Storage.Join | redwall/gathering.py:61 | joining an empty name yields the directory itself |
| Storage.MakeDirsEffect | redwall/gathering.py:20-21 | makedirs keeps every existing node, adds only directories on the path, and changes nothing when they all exist |
| Storage.FileSystem.MakeDirs | redwall/gathering.py:37-38 | the directory walk ends in the state and outcome of the makedirs specification |
| Storage.Exists | redwall/gathering.py:61-62 | every directory exists, as do `.` and `..` inside a directory; any other existing path is a stored node |
| Storage.AfterWrite | redwall/gathering.py:58-59 | open for writing succeeds exactly when the path is not a directory (nor a dot entry) and its parent is a directory; it then stores the content, and otherwise changes nothing |
| Storage.FileSystem.WriteFile | redwall/gathering.py:58-86 | writing meta.json or the image fails on a directory or below a missing directory, and otherwise stores the content |
| UrlPaths.UrlPath | redwall/gathering.py:40 | the path of a URL holds no '?' and no '#': query and fragment are split off |
| UrlPaths.ImageFilename | redwall/gathering.py:40-41 | the file name holds no '/' |
| UrlPaths.ImageFilenameShape | redwall/gathering.py:40-41 | the file name holds no '/', '?' or '#'; it ends the URL path and is preceded by a '/' unless it is the whole path, so it is what follows the last '/'; it is empty when the path is empty or ends in '/' |
| UrlPaths.ImageFilenameOfPlainUrl | redwall/gathering.py:40-41 | for `https://host/dir/name` followed by a query or a fragment, the file name is `name` |
| Gathering.IsVideo | redwall/gathering.py:28 | a submission is skipped exactly when `v.reddit` occurs somewhere in its domain |
| Gathering.Metadata | redwall/gathering.py:42-56 | the metadata has ten entries including `image_filename`; `author` is added last, holding the author's name or `[deleted]` |
| Gathering.MetaDocument | redwall/gathering.py:58-59 | meta.json has ten entries |
| Gathering.MetadataKeysDistinct | redwall/gathering.py:42-56 | the metadata has ten distinct keys |
| Gathering.MetaDocumentIsSortedMetadata | redwall/gathering.py:42-59 | meta.json holds the metadata entries, each once, in sorted key order, including `author` (or `[deleted]`) and `image_filename` |
| Gathering.TaskOf | redwall/gathering.py:37-41 | a submission is saved in `storage_dir/id`, with `meta.json` and the image file inside it |
| Gathering.AfterDownload | redwall/gathering.py:67-89 | a download fetches its URL once; a failure leaves the files unchanged, and the only change it can make is writing the response content at the image path |
| Gathering.AfterSave | redwall/gathering.py:33-64 | a save fetches nothing or only its own URL |
| Gathering.AfterListing | redwall/gathering.py:27-30 | a listing fetches at most once per submission |
| Gathering.ListingFetchesOnly | redwall/gathering.py:27-30 | every URL a listing fetches belongs to one of its own submissions that is not a video |
| Gathering.AfterGather | redwall/gathering.py:10-30 | gathering a subreddit fetches at most once per submission of its listing |
| Gathering.GatherFetchesOnly | redwall/gathering.py:10-30 | gathering a subreddit fetches at most once per listed submission, and only image URLs of non-video submissions of the listing |
| Gathering.DownloadSubmissionImage | redwall/gathering.py:67-89 | the download ends in the state of the download specification: TooManyRedirects is swallowed, 4xx/5xx and other request errors propagate, otherwise the content is written |
| Gathering.SaveSubmissionContent | redwall/gathering.py:33-64 | the save ends in the state of the save specification: makedirs, rewrite meta.json, download if the image is absent |
| Gathering.GetSubredditTopSubmissions | redwall/gathering.py:10-30 | the listing loop ends in the state of the gathering specification for that listing |
| Gathering.ListingIgnoresVideos | redwall/gathering.py:27-30 | processing a listing is processing it with `v.reddit` submissions removed |
| Gathering.ListingSplits | redwall/gathering.py:27-30 | submissions are processed in listing order, and the first error stops the rest |
| Gathering.SaveMakesDir | redwall/gathering.py:37-38 | the submission directory exists after makedirs, and no node is lost |
| Gathering.SaveWritesMeta | redwall/gathering.py:58-59 | meta.json is written unless the path is a directory |
| Gathering.SaveImageStage | redwall/gathering.py:61-64 | an existing image path means no fetch and no change; otherwise the download runs in an existing directory |
| Gathering.SaveDownloadsOnlyMissingImages | redwall/gathering.py:61-64 | a fetch happens only for the submission's own URL and only when the image is absent; an existing image is left unchanged |
| Gathering.EmptyFilenameNeverDownloads | redwall/gathering.py:37-62 | a URL path that is empty or ends in '/' never causes a fetch |
| Gathering.DotFilenameNeverDownloads | redwall/gathering.py:37-62 | a file name `.` or `..` names the submission directory or its parent, which exist, so it never causes a fetch |
| Gathering.ParentSegmentFilename | redwall/gathering.py:40-41 | a URL whose path ends in `/..` has the file name `..` |
| Gathering.SaveDownloadPolicy | redwall/gathering.py:81-89 | too many redirects leaves no image and no error; 400-599 and other request errors fail and write no image; other responses are written |
| Gathering.SaveRewritesMeta | redwall/gathering.py:58-59 | every successful save leaves meta.json with the current metadata |
| Gathering.SaveOnCovered | redwall/gathering.py:58-64 | saving an already-saved submission changes nothing and fetches only after too many redirects |
| Gathering.SaveCovers | redwall/gathering.py:58-64 | after a successful save, the submission counts as saved |
| Gathering.SaveGrows | redwall/gathering.py:37-59 | a successful save keeps every existing node except its own meta.json; anything else it does is adding nodes |
| Gathering.ListingGrows | redwall/gathering.py:27-30 | a successful listing keeps every existing node except the meta.json files of its submissions |
| Gathering.ListingCovers | redwall/gathering.py:27-30 | after a successful listing, every non-video submission counts as saved |
| Gathering.ListingOnCovered | redwall/gathering.py:27-64 | re-processing a saved listing changes nothing and fetches only URLs that gave too many redirects |
| Gathering.GatherIdempotent | redwall/gathering.py:20-64 | re-running on an unchanged listing leaves the same files, succeeds, and fetches nothing unless a URL gave too many redirects |
| Script.DataDir | redwall.py:22 | the data directory is `data` under the current directory |
| Script.AfterRun | redwall.py:113-114 | a run fetches at most once per submission in the listings of its subreddits |
| Script.RunWithinListings | redwall.py:113-114 | each subreddit's gathering adds at most its listing's size to the run's fetches |
| Script.RunFetchesOnlyListed | redwall.py:113-114 | every URL a run fetches is the image URL of a non-video submission in the listing of one of the run's subreddits |
| Script.StartedIsPrefix | redwall.py:113-114 | the started subreddits are a prefix of the list, non-empty when the list is |
| Script.RunStopsAtFirstFailure | redwall.py:97-114 | a successful run started every subreddit; a failing one stops at the subreddit that failed, and later ones play no part |
| Script.GatherSubreddit | redwall.py:30-105 | gather_subreddit with its save and download steps ends in the state of the gathering specification under DATA_DIR: videos skipped, meta.json rewritten, images downloaded only when absent |
| Script.GatherEach | redwall.py:113-114 | the loop ends in the state of the run specification and reports the subreddits started |
| Script.GatherAll | redwall.py:10-114 | main gathers the nine fixed subreddits of the list in order, each with limit 20 and `month`, into `data` below the current directory |
| Configuration.JoinPathRelative | redwall/config.py:7-64 | joining a relative name (`data`, `redwall.db`) keeps the directory as prefix and the name as suffix, separated by exactly one '/' |
| Configuration.SubredditList | redwall/config.py:52 | every configured name is non-empty and holds no whitespace |
| Configuration.SubredditListTokens | redwall/config.py:51-52 | every configured name is non-empty and holds no whitespace and no comma |
| Configuration.SubredditListKeepsText | redwall/config.py:52 | the names, concatenated, are the value with its commas and whitespace removed |
| Configuration.SubredditListOfJoin | redwall/config.py:52 | names joined by any comma/whitespace separator tokenise back to the same names |
| Configuration.SubredditSeparators | redwall/config.py:52 | `"A, B"`, `"A,B"` and `"A B"` all give `[A, B]` |
| Configuration.ParseInt | redwall/config.py:44 | int() accepts exactly an optional sign followed by digits with single underscores between them, after stripping whitespace; a negative result comes from a leading '-' |
| Configuration.ParseIntAccepts | redwall/config.py:44 | an accepted value starts with a digit or a sign, continues with digits and underscores only, and ends in a digit, so `abc1` is rejected |
| Configuration.ParseIntRoundTrip | redwall/config.py:44 | int() reads back every decimal integer, negative ones included |
| Configuration.RedwallSettings | redwall/config.py:34-62 | the `[redwall]` block fails exactly when a given submission_limit is rejected by int(); a missing section or `subreddits` key gives the defaults; no configured name is empty |
| Configuration.WithCredentials | redwall/config.py:24-32 | client id and secret are always assigned, None exactly when a `[reddit]` key is missing; the fallback leaves the user agent as it was, the normal path leaves `reddit_client_agent` as it was; the data settings are untouched |
| Configuration.Resolve | redwall/config.py:19-64 | construction succeeds exactly when the `[redwall]` block does, with its error otherwise; on success the four settings are assigned, the db file is `redwall.db` in the data directory, and the user agent is assigned exactly when all `[reddit]` keys are present |
| Configuration.ResolveFailsIffBadLimit | redwall/config.py:40-54 | construction fails exactly when a given submission_limit is not an integer, even with `subreddits` missing |
| Configuration.RedditFallback | redwall/config.py:24-32 | with all three `[reddit]` keys they are used; otherwise id and secret are None, `reddit_client_agent` is None and the user agent is never assigned |
| Configuration.PerKeyDefaults | redwall/config.py:7-52 | with `[redwall]` and `subreddits` present, each other key defaults individually to cwd/data, 20 and month |
| Configuration.AllOrNothingFallback | redwall/config.py:51-62 | without `[redwall]` or its `subreddits` key, all four settings are the defaults, discarding any given value |
| Configuration.DbFilenameInDataDir | redwall/config.py:64 | the database file is `redwall.db` inside the data directory |
| Configuration.Config.Unconfigured | redwall/config.py:19 | a new configuration object has no attribute assigned |
| Configuration.Config.ReadCredentials | redwall/config.py:24-32 | the `[reddit]` block assigns the credentials or the fallback attributes |
| Configuration.Config.UseDefaults | redwall/config.py:54-62 | the KeyError handler resets the four data settings to the defaults |
| Configuration.Config.ReadRedwall | redwall/config.py:34-62 | the `[redwall]` block assigns the resolved settings or stops with the ValueError from int() |
| Configuration.Config.Init | redwall/config.py:19-64 | construction leaves exactly the resolved attributes, or fails exactly when resolution does |
| Cli.Start | redwall/cli.py:37-53 | a configuration error escapes; a failed schema creation exits with status 1; otherwise the engine opens `sqlite:///` plus the db file name |
| Cli.DatabaseUrlNamesDataDir | redwall/cli.py:46-47 | the database URL names `redwall.db` inside the data directory |
| Cli.Latest | redwall/cli.py:72 | the chosen history row has the greatest id |
| Cli.Current | redwall/cli.py:70-80 | an empty history prints `Nothing found!`; otherwise the command fails exactly when the submission of the row with the greatest id is missing, and otherwise shows that row's submission, or only its file name with `-f`; a failure without `-f` has already printed the `Current image, selected on` line of that row |
| Cli.HistoryInOrder | redwall/cli.py:95 | the history rows in ascending id order, a permutation of the table |
| Cli.PrintHistory | redwall/cli.py:93-98 | the loop prints the dated lines of the specification in ascending id order, stopping where a submission is missing |
| Cli.HistoryLines | redwall/cli.py:95-98 | printing never gives more lines than rows, and a successful print gives exactly one line per row |
| Cli.HistoryLinesFailure | redwall/cli.py:95-98 | printing fails only on a row whose submission is not in the table, naming that row's submission id |
| Cli.HistoryLinesComplete | redwall/cli.py:97-98 | with every reference intact, each row gives one dated line with its own submission, in order |
| Cli.HistoryFailsIffDangling | redwall/cli.py:97-98 | the command fails exactly when some row's submission is gone |
| Cli.HistoryPrintsAllInIdOrder | redwall/cli.py:95-98 | every history row is printed once, in ascending id order |
| Cli.Info | redwall/cli.py:112-121 | no matching row is NoResultFound; on success the shown row carries the post id |
| Cli.InfoOneRow | redwall/cli.py:110-121 | `info` succeeds exactly when one row carries the post id and then shows it; it raises MultipleResultsFound exactly when two rows carry it and NoResultFound when none does, so `Nothing found!` is never printed |
| Cli.MatchingTitles | redwall/cli.py:149 | exactly the rows whose title matches are kept |
| Cli.SearchResults | redwall/cli.py:146-152 | a row is found iff it is in the table and its title contains the space-joined words, ignoring ASCII case |
| Cli.SearchResultsOrdered | redwall/cli.py:146-152 | results come in ascending id order, each matching row as often as the table holds it |
| Cli.SearchFindsMatchingTitles | redwall/cli.py:149 | a row is found iff the lower-cased words occur at some position of its lower-cased title |
| Cli.Search | redwall/cli.py:144-157 | one brief line per result, then `\n<count> result(s) found` with the number of results |
| Cli.Random | redwall/cli.py:134-138 | the printed file name is that of a candidate drawn and recorded by the chooser; no monitors (iff the monitor list is empty), no candidates (iff) and a doubly recorded submission are the only errors, and they change nothing; the last is reported only when some candidate has two or more history rows; with candidates none of which has two rows, the draw succeeds |
| Cli.ListCandidates | redwall/cli.py:126-129 | no monitors is an error; otherwise the output is the chooser's report |

## Left out

- Logging, `print` formatting of `Submission.pprint` and `Submission.brief`: both methods are not part of this model. They appear as opaque `Pretty` and `Brief` lines.
- click option parsing, `ctx.obj` wiring, the `gather` command and its `Gatherer`, and `redwall/entrypoint.py`: the Gatherer is not part of this model, and the entry point only loops the gathering already modelled.
- `stats` in the console only calls `display_stats`, which `Stats.DisplayStats` models.
- SQLAlchemy sessions, commits and SQL text: queries are functions over the row sequences.
- Ties among names equal up to case are left unspecified.
- Unicode case folding in `lower()` and ILIKE: only ASCII letters fold.
- The `%` and `_` wildcards inside search text are treated as literal characters.
- `random.choice` is "some candidate"; uniformity is not modelled.
- `Election.Chooser.GetRandomCandidate`: the History timestamp is a parameter. redwall/models.py as modelled does not define History; its id, submission id and date columns are inferred from redwall/election.py:36-41 and redwall/cli.py:72-98.
- NULL in the nullable columns `Subreddit.name`, `Submission.post_id`, `title`, `image_filename` and `created_utc` (redwall/models.py:16,33-45): the model holds them as non-null strings and integers. With NULLs, `list-candidates` would print `/r/None` and then fail with a TypeError at `len(subreddit.name)` (redwall/election.py:54); `stats` would print `None` as the name; a NULL title never matches ILIKE in `search`; and SQLite sorts NULL `created_utc` and names first.
- praw, the top listing's `limit` and the HTTP request headers: the listing is whatever the oracle returns for `(subreddit, limit, time filter)`.
- Gathering.GatherIdempotent: assumes a deterministic fetch and submission ids that are distinct and non-empty. Other ids can share or be the storage directory.
- `json.dumps` whitespace (`indent=2`) is not modelled; meta.json is the ordered key list. `created_utc` is an integer rather than a float.
- File contents other than meta.json and images, file permissions, and I/O errors other than the three directory cases.
- Path components containing '/' are not split further. Of the dot entries `.` and `..`, only a final one is resolved (as an existing directory); a subreddit name or submission id of `.` or `..` is taken as a plain name (Reddit's ids and names never are).
- urlsplit's stripping of control characters and its IPv6 netloc validation.
- ConfigParser: the `DEFAULT` section, interpolation, option-name lower-casing, and the merging of the four candidate files; the model starts from the merged section map.
- The makedirs of the configured data directory at start-up: the configuration's directory is a string while the filesystem map uses path components.
- int() on non-ASCII digits. Whitespace beyond Latin-1 in `str.strip()`, `str.split()` and int().
- The intermediate values of `submission_limit` and `subreddits` before their conversion are not observable once `__init__` finishes or raises, so they are not kept.
- After the ValueError escapes `__init__`, the object's attributes are not described.
