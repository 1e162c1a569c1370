/**
 * The catalogue's three tables: subreddits, submissions and the selection
 * history, the relationship between the first two, and the repr strings.
 * A `Session` holds the catalogue that the commands query and update.
 */
module Models {
  import opened Wrappers
  import opened Text
  import opened Ordering

  /** A point in time; only its order matters to the core. */
  type Timestamp = int

  datatype Subreddit = Subreddit(id: int, name: string)

  /**
   * A gathered Reddit post. `subredditId` is a nullable foreign key, and the
   * pixel dimensions are nullable: a row may lack them.
   */
  datatype Submission = Submission(
    id: int,
    subredditId: Option<int>,
    postId: string,
    author: string,
    createdUtc: Timestamp,
    domain: string,
    over18: bool,
    permalink: string,
    score: int,
    title: string,
    url: string,
    imageDownloaded: Option<bool>,
    imageFilename: string,
    imageHeight: Option<int>,
    imageWidth: Option<int>)

  /** One selection of a submission as the wallpaper. */
  datatype History = History(id: int, submissionId: int, date: Timestamp)

  datatype Catalog = Catalog(subreddits: seq<Subreddit>, submissions: seq<Submission>, history: seq<History>)

  /** A line written to the console; the last three stand for Submission.pprint and Submission.brief, which are not part of this model. */
  datatype Line =
    | Message(text: string)
    | SelectedOn(date: Timestamp)
    | Pretty(sub: Submission)
    | Brief(sub: Submission)
    | Dated(date: Timestamp, sub: Submission)

  /** The primary keys: `id` is unique in each table. Nothing else is unique. */
  ghost predicate KeysUnique(c: Catalog) {
    && (forall i, j :: 0 <= i < j < |c.subreddits| ==> c.subreddits[i].id != c.subreddits[j].id)
    && (forall i, j :: 0 <= i < j < |c.submissions| ==> c.submissions[i].id != c.submissions[j].id)
    && (forall i, j :: 0 <= i < j < |c.history| ==> c.history[i].id != c.history[j].id)
  }

  /** Neither post ids nor subreddit names are declared unique: two rows may share them. */
  lemma PostIdAndNameNotUnique()
    ensures exists c: Catalog ::
              && KeysUnique(c)
              && |c.subreddits| == 2 && c.subreddits[0].name == c.subreddits[1].name
              && |c.submissions| == 2 && c.submissions[0].postId == c.submissions[1].postId
  {
    var s := Submission(1, Some(1), "abc", "", 0, "", false, "", 0, "", "", None, "", None, None);
    var c := Catalog([Subreddit(1, "EarthPorn"), Subreddit(2, "EarthPorn")], [s, s.(id := 2)], []);
    assert KeysUnique(c);
  }

  /** ORDER BY lower(name). */
  predicate ByLowerName(a: Subreddit, b: Subreddit) {
    StrLe(Lower(a.name), Lower(b.name))
  }

  lemma ByLowerNameIsPreorder()
    ensures TotalPreorder(ByLowerName)
  {
    forall a: Subreddit, b: Subreddit ensures ByLowerName(a, b) || ByLowerName(b, a) {
      StrLeTotal(Lower(a.name), Lower(b.name));
    }
    forall a: Subreddit, b: Subreddit, d: Subreddit | ByLowerName(a, b) && ByLowerName(b, d)
      ensures ByLowerName(a, d)
    {
      StrLeTransitive(Lower(a.name), Lower(b.name), Lower(d.name));
    }
  }

  /** The subreddits table ordered by lower-cased name; names equal up to case come in any order. */
  function SubredditsByName(c: Catalog): (r: seq<Subreddit>)
    ensures multiset(r) == multiset(c.subreddits)
    ensures SortedBy(r, ByLowerName)
  {
    ByLowerNameIsPreorder();
    SortBy(c.subreddits, ByLowerName)
  }

  /** ORDER BY created_utc. */
  predicate ByCreated(a: Submission, b: Submission) {
    a.createdUtc <= b.createdUtc
  }

  /** ORDER BY id, for submissions. */
  predicate SubmissionById(a: Submission, b: Submission) {
    a.id <= b.id
  }

  /** ORDER BY id, for history rows. */
  predicate HistoryById(a: History, b: History) {
    a.id <= b.id
  }

  /** Subreddit.submissions: the rows whose foreign key names the subreddit. */
  function SubmissionsOf(c: Catalog, subredditId: int): (r: seq<Submission>)
    ensures forall s :: s in r <==> s in c.submissions && s.subredditId == Some(subredditId)
  {
    Filter(c.submissions, (s: Submission) => s.subredditId == Some(subredditId))
  }

  /** Each referencing row appears in Subreddit.submissions as often as in the table, and no other row does. */
  lemma SubmissionsOfCounts(c: Catalog, subredditId: int)
    ensures forall s :: multiset(SubmissionsOf(c, subredditId))[s]
                        == if s.subredditId == Some(subredditId) then multiset(c.submissions)[s] else 0
  {
  }

  function FindSubreddit(rows: seq<Subreddit>, id: int): (r: Option<Subreddit>)
    ensures r.Some? ==> r.value in rows && r.value.id == id
    ensures r.None? ==> forall x :: x in rows ==> x.id != id
  {
    if rows == [] then None
    else if rows[0].id == id then Some(rows[0])
    else FindSubreddit(rows[1..], id)
  }

  /** Submission.subreddit: the row the foreign key points to, if any. */
  function Owner(c: Catalog, s: Submission): (r: Option<Subreddit>)
    ensures r.Some? ==> r.value in c.subreddits && s.subredditId == Some(r.value.id)
    ensures r.None? <==> s.subredditId.None? || forall x :: x in c.subreddits ==> x.id != s.subredditId.value
  {
    if s.subredditId.None? then None else FindSubreddit(c.subreddits, s.subredditId.value)
  }

  /** Subreddit.submissions and Submission.subreddit are inverse relations. */
  lemma RelationshipInverse(c: Catalog, r: Subreddit, s: Submission)
    requires KeysUnique(c)
    requires r in c.subreddits && s in c.submissions
    ensures s in SubmissionsOf(c, r.id) <==> Owner(c, s) == Some(r)
  {
    if Owner(c, s) == Some(r) {
      assert s.subredditId == Some(r.id);
    }
    if s in SubmissionsOf(c, r.id) {
      var o := FindSubreddit(c.subreddits, r.id);
      assert o.Some?;
      var i :| 0 <= i < |c.subreddits| && c.subreddits[i] == o.value;
      var j :| 0 <= j < |c.subreddits| && c.subreddits[j] == r;
      assert i == j;
    }
  }

  function FindSubmission(rows: seq<Submission>, id: int): (r: Option<Submission>)
    ensures r.Some? ==> r.value in rows && r.value.id == id
    ensures r.None? ==> forall x :: x in rows ==> x.id != id
  {
    if rows == [] then None
    else if rows[0].id == id then Some(rows[0])
    else FindSubmission(rows[1..], id)
  }

  const SubredditReprPrefix := "<Subreddit(name='"
  const ReprSuffix := "')>"

  /** Subreddit.__repr__. */
  function SubredditRepr(r: Subreddit): (t: string)
    ensures ParseSubredditRepr(t) == Some(r.name)
  {
    SubredditReprRoundTrip(r.name);
    SubredditReprPrefix + r.name + ReprSuffix
  }

  /** `t` without its leading `p`, when it starts with `p`. */
  function StripPrefix(t: string, p: string): (r: Option<string>)
    ensures r.Some? ==> t == p + r.value
  {
    if |p| <= |t| && t[..|p|] == p then Some(t[|p|..]) else None
  }

  /** `t` without its trailing `q`, when it ends with `q`. */
  function StripSuffix(t: string, q: string): (r: Option<string>)
    ensures r.Some? ==> t == r.value + q
  {
    if |q| <= |t| && t[|t| - |q|..] == q then Some(t[..|t| - |q|]) else None
  }

  lemma StripPrefixOf(p: string, u: string)
    ensures StripPrefix(p + u, p) == Some(u)
  {
    assert (p + u)[..|p|] == p;
    assert (p + u)[|p|..] == u;
  }

  lemma StripSuffixOf(u: string, q: string)
    ensures StripSuffix(u + q, q) == Some(u)
  {
    assert (u + q)[|u + q| - |q|..] == q;
    assert (u + q)[..|u + q| - |q|] == u;
  }

  function ParseSubredditRepr(t: string): Option<string> {
    match StripPrefix(t, SubredditReprPrefix)
    case None => None
    case Some(rest) => StripSuffix(rest, ReprSuffix)
  }

  /** The subreddit's name is recovered from its repr. */
  lemma SubredditReprRoundTrip(name: string)
    ensures ParseSubredditRepr(SubredditReprPrefix + name + ReprSuffix) == Some(name)
  {
    assert SubredditReprPrefix + name + ReprSuffix == SubredditReprPrefix + (name + ReprSuffix);
    StripPrefixOf(SubredditReprPrefix, name + ReprSuffix);
    StripSuffixOf(name, ReprSuffix);
  }

  const SubmissionReprPrefix := "<Submission(subreddit='"
  const IdSeparator := "', id='"
  const TitleSeparator := "', title='"

  function SubmissionReprOf(subreddit: string, postId: string, title: string): string {
    SubmissionReprPrefix + subreddit + IdSeparator + postId + TitleSeparator + title + ReprSuffix
  }

  /**
   * Submission.__repr__: uses the owning subreddit's name, so a row whose
   * foreign key dangles or is NULL raises (None).
   */
  function SubmissionRepr(c: Catalog, s: Submission): (t: Option<string>)
    ensures t.None? <==> Owner(c, s).None?
    ensures t.Some? && QuoteFree(Owner(c, s).value.name) && QuoteFree(s.postId) ==>
              ParseSubmissionRepr(t.value) == Some((Owner(c, s).value.name, s.postId, s.title))
  {
    match Owner(c, s)
    case None => None
    case Some(r) =>
      if QuoteFree(r.name) && QuoteFree(s.postId) then
        SubmissionReprRoundTrip(r.name, s.postId, s.title);
        Some(SubmissionReprOf(r.name, s.postId, s.title))
      else Some(SubmissionReprOf(r.name, s.postId, s.title))
  }

  /** Index of the first quote in `t`, or |t| when there is none. */
  function QuoteIndex(t: string): (k: nat)
    ensures k <= |t|
    ensures forall i :: 0 <= i < k ==> t[i] != '\''
    ensures k < |t| ==> t[k] == '\''
  {
    if t == [] || t[0] == '\'' then 0 else 1 + QuoteIndex(t[1..])
  }

  /** Reads subreddit name, post id and title back from a Submission repr. */
  function ParseSubmissionRepr(t: string): Option<(string, string, string)> {
    match StripPrefix(t, SubmissionReprPrefix)
    case None => None
    case Some(r1) =>
      var a := QuoteIndex(r1);
      match StripPrefix(r1[a..], IdSeparator)
      case None => None
      case Some(r2) =>
        match ParseIdAndTitle(r2)
        case None => None
        case Some(idAndTitle) => Some((r1[..a], idAndTitle.0, idAndTitle.1))
  }

  /** The part of a Submission repr after "', id='". */
  function ParseIdAndTitle(r2: string): Option<(string, string)> {
    var b := QuoteIndex(r2);
    match StripPrefix(r2[b..], TitleSeparator)
    case None => None
    case Some(r3) =>
      match StripSuffix(r3, ReprSuffix)
      case None => None
      case Some(title) => Some((r2[..b], title))
  }

  predicate QuoteFree(t: string) { forall i :: 0 <= i < |t| ==> t[i] != '\'' }

  /** The repr determines its three fields when the name and post id hold no quote. */
  lemma SubmissionReprRoundTrip(subreddit: string, postId: string, title: string)
    requires QuoteFree(subreddit) && QuoteFree(postId)
    ensures ParseSubmissionRepr(SubmissionReprOf(subreddit, postId, title)) == Some((subreddit, postId, title))
  {
    var r2 := postId + (TitleSeparator + (title + ReprSuffix));
    var r1 := subreddit + (IdSeparator + r2);
    assert SubmissionReprOf(subreddit, postId, title) == SubmissionReprPrefix + r1;
    StripPrefixOf(SubmissionReprPrefix, r1);
    QuoteIndexAfter(subreddit, IdSeparator + r2);
    assert r1[..|subreddit|] == subreddit && r1[|subreddit|..] == IdSeparator + r2;
    StripPrefixOf(IdSeparator, r2);
    IdAndTitleRoundTrip(postId, title);
  }

  lemma IdAndTitleRoundTrip(postId: string, title: string)
    requires QuoteFree(postId)
    ensures ParseIdAndTitle(postId + (TitleSeparator + (title + ReprSuffix))) == Some((postId, title))
  {
    var r3 := title + ReprSuffix;
    var r2 := postId + (TitleSeparator + r3);
    QuoteIndexAfter(postId, TitleSeparator + r3);
    assert r2[..|postId|] == postId && r2[|postId|..] == TitleSeparator + r3;
    StripPrefixOf(TitleSeparator, r3);
    StripSuffixOf(title, ReprSuffix);
  }

  lemma {:induction false} QuoteIndexAfter(a: string, b: string)
    requires QuoteFree(a) && b != [] && b[0] == '\''
    ensures QuoteIndex(a + b) == |a|
  {
    if a != [] {
      assert (a + b)[1..] == a[1..] + b;
      QuoteIndexAfter(a[1..], b);
    }
  }

  /** With quotes in the name or post id, two different rows can print the same repr. */
  lemma SubmissionReprAmbiguous()
    ensures SubmissionReprOf("a', id='b", "c", "t") == SubmissionReprOf("a", "b', id='c", "t")
  {
  }

  /** The id SQLite gives the next History row: one more than the largest id, or 1. */
  function NextHistoryId(rows: seq<History>): (id: int)
    ensures forall x :: x in rows ==> x.id < id
    ensures rows == [] ==> id == 1
    ensures rows != [] ==> exists x :: x in rows && id == x.id + 1
  {
    if rows == [] then 1
    else
      var rest := NextHistoryId(rows[1..]);
      assert forall x :: x in rows[1..] ==> x in rows;
      if rows[1..] == [] || rows[0].id + 1 >= rest then rows[0].id + 1 else rest
  }

  /** A database session: the catalogue it reads and writes. */
  class Session {
    var catalog: Catalog

    constructor (c: Catalog)
      ensures catalog == c
    {
      catalog := c;
    }

    /** session.add(History(submission_id=...)) followed by commit. */
    method AddHistory(submissionId: int, now: Timestamp) returns (row: History)
      modifies this
      ensures row == History(NextHistoryId(old(catalog.history)), submissionId, now)
      ensures catalog == old(catalog).(history := old(catalog.history) + [row])
    {
      row := History(NextHistoryId(catalog.history), submissionId, now);
      catalog := catalog.(history := catalog.history + [row]);
    }
  }
}
