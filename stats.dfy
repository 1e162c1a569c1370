/**
 * Statistics about the gathered submissions: one line per subreddit that has
 * submissions, ordered by lower-cased name, giving the submission count.
 */
module Stats {
  import opened Wrappers
  import opened Text
  import opened Ordering
  import opened Models

  /** count(submissions.id) for one subreddit in the join. */
  function Count(c: Catalog, r: Subreddit): nat {
    |SubmissionsOf(c, r.id)|
  }

  predicate HasSubmissions(c: Catalog, r: Subreddit) {
    Count(c, r) > 0
  }

  /** One (subreddit, count) row per subreddit. */
  function Counted(c: Catalog, subs: seq<Subreddit>): (rows: seq<(Subreddit, nat)>)
    ensures |rows| == |subs|
    ensures forall i :: 0 <= i < |rows| ==> rows[i] == (subs[i], Count(c, subs[i]))
  {
    seq(|subs|, i requires 0 <= i < |subs| => (subs[i], Count(c, subs[i])))
  }

  /** The result rows of display_stats' query. */
  function StatsRows(c: Catalog): (rows: seq<(Subreddit, nat)>)
    ensures forall i :: 0 <= i < |rows| ==> rows[i].1 > 0
  {
    var joined := Filter(SubredditsByName(c), (r: Subreddit) => HasSubmissions(c, r));
    FilterKeeps(SubredditsByName(c), (r: Subreddit) => HasSubmissions(c, r));
    Counted(c, joined)
  }

  /** Each row's count is the number of submissions referencing that subreddit; rows come in lower-cased name order. */
  lemma StatsRowsCounted(c: Catalog)
    ensures forall i :: 0 <= i < |StatsRows(c)| ==>
              StatsRows(c)[i].0 in c.subreddits && StatsRows(c)[i].1 == |SubmissionsOf(c, StatsRows(c)[i].0.id)| > 0
    ensures forall i :: 0 <= i < |StatsRows(c)| ==> StatsRows(c)[i].1 == ReferenceCount(c.submissions, StatsRows(c)[i].0.id)
  {
    var subs := SubredditsByName(c);
    var joined := Filter(subs, (r: Subreddit) => HasSubmissions(c, r));
    var rows := StatsRows(c);
    forall i | 0 <= i < |rows|
      ensures rows[i].0 in c.subreddits && rows[i].1 == |SubmissionsOf(c, rows[i].0.id)| > 0
    {
      assert rows[i] == (joined[i], Count(c, joined[i]));
      assert joined[i] in subs;
      assert joined[i] in multiset(subs);
    }
    forall i | 0 <= i < |rows| ensures rows[i].1 == ReferenceCount(c.submissions, rows[i].0.id) {
      ReferenceCountIsFilter(c.submissions, rows[i].0.id);
    }
  }

  /** Rows come in order of lower-cased subreddit name. */
  lemma StatsRowsOrdered(c: Catalog)
    ensures forall i, j :: 0 <= i < j < |StatsRows(c)| ==> ByLowerName(StatsRows(c)[i].0, StatsRows(c)[j].0)
  {
    var subs := SubredditsByName(c);
    var joined := Filter(subs, (r: Subreddit) => HasSubmissions(c, r));
    FilterSorted(subs, (r: Subreddit) => HasSubmissions(c, r), ByLowerName);
    var rows := StatsRows(c);
    forall i, j | 0 <= i < j < |rows| ensures ByLowerName(rows[i].0, rows[j].0) {
      assert rows[i].0 == joined[i] && rows[j].0 == joined[j];
    }
  }

  /** count(Submission.id): the submission rows whose foreign key names the subreddit, counted one by one. */
  function ReferenceCount(rows: seq<Submission>, subredditId: int): nat {
    if rows == [] then 0
    else (if rows[0].subredditId == Some(subredditId) then 1 else 0) + ReferenceCount(rows[1..], subredditId)
  }

  lemma {:induction false} ReferenceCountIsFilter(rows: seq<Submission>, subredditId: int)
    ensures |Filter(rows, (s: Submission) => s.subredditId == Some(subredditId))| == ReferenceCount(rows, subredditId)
  {
    if rows != [] {
      ReferenceCountIsFilter(rows[1..], subredditId);
    }
  }

  /** The subreddit column of the result rows. */
  function Grouped(rows: seq<(Subreddit, nat)>): (subs: seq<Subreddit>)
    ensures |subs| == |rows| && forall i :: 0 <= i < |rows| ==> subs[i] == rows[i].0
  {
    seq(|rows|, i requires 0 <= i < |rows| => rows[i].0)
  }

  /**
   * GROUP BY the subreddit: a subreddit with submissions has as many lines
   * as the table has rows for it (one, under its primary key), and any
   * other subreddit none.
   */
  lemma StatsRowsOncePerSubreddit(c: Catalog)
    ensures forall r :: multiset(Grouped(StatsRows(c)))[r] == if Count(c, r) > 0 then multiset(c.subreddits)[r] else 0
  {
    var joined := Filter(SubredditsByName(c), (r: Subreddit) => HasSubmissions(c, r));
    assert Grouped(StatsRows(c)) == joined;
  }

  /** A subreddit gets a row exactly when it has at least one submission. */
  lemma StatsRowIffHasSubmissions(c: Catalog, r: Subreddit)
    ensures (exists i :: 0 <= i < |StatsRows(c)| && StatsRows(c)[i].0 == r) <==> r in c.subreddits && Count(c, r) > 0
  {
    var subs := SubredditsByName(c);
    var joined := Filter(subs, (r: Subreddit) => HasSubmissions(c, r));
    assert r in subs <==> r in multiset(subs);
    assert r in c.subreddits <==> r in multiset(c.subreddits);
    if r in joined {
      var i :| 0 <= i < |joined| && joined[i] == r;
      assert StatsRows(c)[i].0 == r;
    }
  }

  /** "{:>5}  {}".format(count, name). */
  function StatsLine(count: nat, name: string): (line: string)
    ensures |line| >= |name| + 7
    ensures line[|line| - |name|..] == name
  {
    RightAlign(DecimalString(count), 5) + "  " + name
  }

  /** The lines display_stats prints. */
  function DisplayStats(c: Catalog): (lines: seq<string>)
    ensures |lines| == |StatsRows(c)|
    ensures forall i :: 0 <= i < |lines| ==> lines[i] == StatsLine(StatsRows(c)[i].1, StatsRows(c)[i].0.name)
  {
    var rows := StatsRows(c);
    seq(|rows|, i requires 0 <= i < |rows| => StatsLine(rows[i].1, rows[i].0.name))
  }

  function TrimLeftSpaces(s: string): (r: string)
    ensures |r| <= |s| && r == s[|s| - |r|..]
  {
    if s != [] && s[0] == ' ' then TrimLeftSpaces(s[1..]) else s
  }

  /**
   * A stats line is the count right-aligned in five columns, two spaces, then
   * the name; count and name are read back from it.
   */
  lemma StatsLineLayout(count: nat, name: string)
    ensures var line := StatsLine(count, name);
            var width := |line| - |name| - 2;
            && width == (if |DecimalString(count)| < 5 then 5 else |DecimalString(count)|)
            && line[width..width + 2] == "  "
            && line[width + 2..] == name
            && ParseDecimal(TrimLeftSpaces(line[..width])) == Some(count)
  {
    var digits := DecimalString(count);
    var field := RightAlign(digits, 5);
    var line := StatsLine(count, name);
    assert line == field + ("  " + name);
    assert line[..|field|] == field;
    assert line[|field|..|field| + 2] == "  ";
    assert line[|field| + 2..] == name;
    TrimPadding(field, digits);
    DecimalRoundTrip(count);
  }

  lemma {:induction false} TrimPadding(field: string, digits: string)
    requires |digits| <= |field| && field[|field| - |digits|..] == digits
    requires forall i :: 0 <= i < |field| - |digits| ==> field[i] == ' '
    requires digits != [] && digits[0] != ' '
    ensures TrimLeftSpaces(field) == digits
  {
    if |field| > |digits| {
      var rest := field[1..];
      assert field[0] == ' ';
      assert rest[|rest| - |digits|..] == digits;
      assert forall i :: 0 <= i < |rest| - |digits| ==> rest[i] == field[i + 1];
      TrimPadding(rest, digits);
    } else {
      assert field == field[|field| - |digits|..];
    }
  }
}
