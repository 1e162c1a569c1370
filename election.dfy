/**
 * The selection engine: the image size the monitors need, the submissions
 * large enough for it, the random draw that records the selection in the
 * history table, and the per-subreddit candidate report.
 */
module Election {
  import opened Wrappers
  import opened Ordering
  import opened Models

  datatype Monitor = Monitor(height: int, width: int)

  datatype SelectionError =
    | NoMonitors            // max() of an empty list raises
    | NoCandidates          // random.choice of an empty list raises
    | MultipleHistoryRows   // .one() raises when several rows match

  function Max(xs: seq<int>): (r: int)
    requires xs != []
    ensures r in xs
    ensures forall x :: x in xs ==> x <= r
  {
    if |xs| == 1 then xs[0]
    else
      var rest := Max(xs[1..]);
      assert forall x :: x in xs[1..] ==> x in xs;
      assert forall x :: x in xs ==> x == xs[0] || x in xs[1..];
      if xs[0] >= rest then xs[0] else rest
  }

  function Heights(ms: seq<Monitor>): seq<int> {
    seq(|ms|, i requires 0 <= i < |ms| => ms[i].height)
  }

  function Widths(ms: seq<Monitor>): seq<int> {
    seq(|ms|, i requires 0 <= i < |ms| => ms[i].width)
  }

  /**
   * The size an image needs to cover every monitor: the tallest height and the
   * widest width, taken independently. No monitor is an error.
   */
  function RequiredSize(ms: seq<Monitor>): (r: Result<(int, int), SelectionError>)
    ensures r.Failure? <==> ms == []
    ensures r.Failure? ==> r.error == NoMonitors
    ensures r.Success? ==> forall m :: m in ms ==> m.height <= r.value.0 && m.width <= r.value.1
    ensures r.Success? ==> (exists m :: m in ms && m.height == r.value.0) && (exists m :: m in ms && m.width == r.value.1)
  {
    if ms == [] then Failure(NoMonitors)
    else
      var h, w := Max(Heights(ms)), Max(Widths(ms));
      forall m | m in ms ensures m.height in Heights(ms) && m.width in Widths(ms) {
        var i :| 0 <= i < |ms| && ms[i] == m;
        assert Heights(ms)[i] == m.height && Widths(ms)[i] == m.width;
      }
      assert exists i :: 0 <= i < |ms| && Heights(ms)[i] == h;
      assert exists i :: 0 <= i < |ms| && Widths(ms)[i] == w;
      Success((h, w))
  }

  /** The two maxima may come from different monitors. */
  lemma MaximaFromDifferentMonitors()
    ensures RequiredSize([Monitor(1080, 1920), Monitor(1440, 900)]) == Success((1440, 1920))
  {
    var ms := [Monitor(1080, 1920), Monitor(1440, 900)];
    assert Heights(ms) == [1080, 1440] && Widths(ms) == [1920, 900];
  }

  /** The filter of get_candidates: known dimensions, inclusive on both axes. */
  predicate Fits(s: Submission, height: int, width: int) {
    && s.imageHeight.Some? && s.imageWidth.Some?
    && s.imageHeight.value >= height && s.imageWidth.value >= width
  }

  function Candidates(rows: seq<Submission>, height: int, width: int): (r: seq<Submission>)
    ensures forall s :: s in r <==> s in rows && Fits(s, height, width)
  {
    Filter(rows, (s: Submission) => Fits(s, height, width))
  }

  /** An image fits the required size exactly when it fits every monitor on its own. */
  lemma FitsRequiredSizeIffFitsEveryMonitor(ms: seq<Monitor>, s: Submission)
    requires ms != []
    ensures Fits(s, RequiredSize(ms).value.0, RequiredSize(ms).value.1)
        <==> forall m :: m in ms ==> Fits(s, m.height, m.width)
  {
    var size := RequiredSize(ms).value;
    if forall m :: m in ms ==> Fits(s, m.height, m.width) {
      var mh :| mh in ms && mh.height == size.0;
      var mw :| mw in ms && mw.width == size.1;
      assert Fits(s, mh.height, mh.width) && Fits(s, mw.height, mw.width);
    }
  }

  /** The history rows that reference a submission. */
  function RowsFor(rows: seq<History>, submissionId: int): (r: seq<History>)
    ensures forall x :: x in r <==> x in rows && x.submissionId == submissionId
  {
    Filter(rows, (x: History) => x.submissionId == submissionId)
  }

  /** What a draw of `chosen` does to the catalogue: insert a History row only if none exists. */
  function RecordDraw(c: Catalog, chosen: Submission, now: Timestamp): (r: Result<Catalog, SelectionError>)
    ensures r.Success? <==> |RowsFor(c.history, chosen.id)| <= 1
    ensures r.Success? ==> r.value.submissions == c.submissions && r.value.subreddits == c.subreddits
    ensures r.Success? ==> c.history <= r.value.history && |r.value.history| <= |c.history| + 1
    ensures r.Success? ==> exists h :: h in r.value.history && h.submissionId == chosen.id
    ensures |RowsFor(c.history, chosen.id)| == 1 ==> r == Success(c)
    ensures |RowsFor(c.history, chosen.id)| == 0 ==>
              r.Success? && r.value.history == c.history + [History(NextHistoryId(c.history), chosen.id, now)]
  {
    var rows := RowsFor(c.history, chosen.id);
    if |rows| == 1 then assert rows[0] in rows; Success(c)
    else if |rows| == 0 then
      Success(c.(history := c.history + [History(NextHistoryId(c.history), chosen.id, now)]))
    else Failure(MultipleHistoryRows)
  }

  /** No submission has two history rows, and history ids grow with insertion order. */
  ghost predicate HistoryValid(rows: seq<History>) {
    && (forall i, j :: 0 <= i < j < |rows| ==> rows[i].submissionId != rows[j].submissionId)
    && (forall i, j :: 0 <= i < j < |rows| ==> rows[i].id < rows[j].id)
  }

  lemma {:induction false} RowsForUnique(rows: seq<History>, id: int)
    requires forall i, j :: 0 <= i < j < |rows| ==> rows[i].submissionId != rows[j].submissionId
    ensures |RowsFor(rows, id)| <= 1
  {
    if rows != [] {
      RowsForUnique(rows[1..], id);
      assert rows == [rows[0]] + rows[1..];
      if rows[0].submissionId == id {
        assert forall x :: x in rows[1..] ==> x.submissionId != id;
        assert RowsFor(rows[1..], id) == [];
      }
    }
  }

  /**
   * After a draw from a valid history exactly one row references the chosen
   * submission, and the history stays valid.
   */
  lemma DrawLeavesExactlyOneRow(c: Catalog, chosen: Submission, now: Timestamp)
    requires HistoryValid(c.history)
    ensures RecordDraw(c, chosen, now).Success?
    ensures HistoryValid(RecordDraw(c, chosen, now).value.history)
    ensures |RowsFor(RecordDraw(c, chosen, now).value.history, chosen.id)| == 1
  {
    RowsForUnique(c.history, chosen.id);
    var rows := RowsFor(c.history, chosen.id);
    if |rows| == 0 {
      var row := History(NextHistoryId(c.history), chosen.id, now);
      var h := c.history + [row];
      assert RecordDraw(c, chosen, now).value.history == h;
      AppendKeepsValid(c.history, row);
      RowsForUnique(h, chosen.id);
      assert row in RowsFor(h, chosen.id);
    } else {
      assert RecordDraw(c, chosen, now) == Success(c);
    }
  }

  /** Appending a row for an unreferenced submission, with a fresh greatest id, keeps a history valid. */
  lemma AppendKeepsValid(rows: seq<History>, row: History)
    requires HistoryValid(rows)
    requires |RowsFor(rows, row.submissionId)| == 0
    requires row.id == NextHistoryId(rows)
    ensures HistoryValid(rows + [row])
  {
    var h := rows + [row];
    forall i | 0 <= i < |rows| ensures rows[i].submissionId != row.submissionId && rows[i].id < row.id {
      assert rows[i] in rows;
    }
    forall i, j | 0 <= i < j < |h| ensures h[i].submissionId != h[j].submissionId && h[i].id < h[j].id {
      if j == |rows| {
        assert h[i] == rows[i] && h[j] == row;
      } else {
        assert h[i] == rows[i] && h[j] == rows[j];
      }
    }
  }

  /** Drawing the same submission again writes nothing more. */
  lemma DrawTwiceSameAsOnce(c: Catalog, chosen: Submission, now: Timestamp, later: Timestamp)
    requires HistoryValid(c.history)
    ensures RecordDraw(c, chosen, now).Success?
    ensures RecordDraw(RecordDraw(c, chosen, now).value, chosen, later) == RecordDraw(c, chosen, now)
  {
    DrawLeavesExactlyOneRow(c, chosen, now);
  }

  /** A draw changes no submission or subreddit, and no history row of another submission. */
  lemma DrawTouchesOnlyChosen(c: Catalog, chosen: Submission, now: Timestamp, other: int)
    requires RecordDraw(c, chosen, now).Success?
    requires other != chosen.id
    ensures RecordDraw(c, chosen, now).value.submissions == c.submissions
    ensures RecordDraw(c, chosen, now).value.subreddits == c.subreddits
    ensures RowsFor(RecordDraw(c, chosen, now).value.history, other) == RowsFor(c.history, other)
    ensures forall i :: 0 <= i < |c.history| ==> RecordDraw(c, chosen, now).value.history[i] == c.history[i]
  {
    var d := RecordDraw(c, chosen, now).value;
    if d.history != c.history {
      var row := History(NextHistoryId(c.history), chosen.id, now);
      assert d.history == c.history + [row];
      calc {
        RowsFor(d.history, other);
        { FilterAppend(c.history, row, (x: History) => x.submissionId == other); }
        RowsFor(c.history, other);
      }
    }
  }

  lemma FilterAppend<T(!new)>(s: seq<T>, x: T, p: T -> bool)
    requires !p(x)
    ensures Filter(s + [x], p) == Filter(s, p)
  {
    if s != [] {
      assert (s + [x])[1..] == s[1..] + [x];
      FilterAppend(s[1..], x, p);
    } else {
      assert [x][1..] == [];
    }
  }

  /** The items of one subreddit's report section, oldest first. */
  function SectionItems(c: Catalog, r: Subreddit, height: int, width: int): (items: seq<Submission>)
    ensures forall s :: s in items <==> s in SubmissionsOf(c, r.id) && Fits(s, height, width)
    ensures forall s :: multiset(items)[s] ==
              if s.subredditId == Some(r.id) && Fits(s, height, width) then multiset(c.submissions)[s] else 0
    ensures SortedBy(items, ByCreated)
  {
    var rows := Filter(c.submissions, (s: Submission) => s.subredditId == Some(r.id) && Fits(s, height, width));
    SortBy(rows, ByCreated)
  }

  /** Every subreddit, by lower-cased name, with its candidates. */
  function Report(c: Catalog, height: int, width: int): (report: seq<(Subreddit, seq<Submission>)>)
    ensures |report| == |SubredditsByName(c)|
    ensures forall i :: 0 <= i < |report| ==>
              report[i] == (SubredditsByName(c)[i], SectionItems(c, SubredditsByName(c)[i], height, width))
  {
    var subreddits := SubredditsByName(c);
    seq(|subreddits|, i requires 0 <= i < |subreddits| => (subreddits[i], SectionItems(c, subreddits[i], height, width)))
  }

  function ReportSubreddits(report: seq<(Subreddit, seq<Submission>)>): seq<Subreddit> {
    seq(|report|, i requires 0 <= i < |report| => report[i].0)
  }

  function Dashes(n: nat): (r: string)
    ensures |r| == n && forall i :: 0 <= i < n ==> r[i] == '-'
  {
    if n == 0 then [] else "-" + Dashes(n - 1)
  }

  function Header(name: string): string { "\n/r/" + name }

  function Underline(name: string): string { "---" + Dashes(|name|) }

  function PrettyLines(items: seq<Submission>): (lines: seq<Line>)
    ensures |lines| == |items|
  {
    if items == [] then [] else PrettyLines(items[..|items| - 1]) + [Pretty(items[|items| - 1])]
  }

  function SectionLines(r: Subreddit, items: seq<Submission>): seq<Line> {
    [Message(Header(r.name)), Message(Underline(r.name))] + PrettyLines(items)
  }

  function Render(report: seq<(Subreddit, seq<Submission>)>): seq<Line> {
    if report == [] then []
    else Render(report[..|report| - 1]) + SectionLines(report[|report| - 1].0, report[|report| - 1].1)
  }

  lemma RenderStep(report: seq<(Subreddit, seq<Submission>)>, i: nat)
    requires i < |report|
    ensures Render(report[..i + 1]) == Render(report[..i]) + SectionLines(report[i].0, report[i].1)
  {
    assert report[..i + 1][..i] == report[..i];
  }

  /**
   * The report visits every subreddit row once, including those without
   * candidates, ordered by lower-cased name.
   */
  lemma ReportVisitsEverySubreddit(c: Catalog, height: int, width: int)
    ensures multiset(ReportSubreddits(Report(c, height, width))) == multiset(c.subreddits)
    ensures SortedBy(ReportSubreddits(Report(c, height, width)), ByLowerName)
  {
    assert ReportSubreddits(Report(c, height, width)) == SubredditsByName(c);
  }

  /** Each section holds exactly its subreddit's candidates, oldest first. */
  lemma ReportSectionIsSubredditCandidates(c: Catalog, height: int, width: int, i: nat)
    requires i < |Report(c, height, width)|
    ensures var section := Report(c, height, width)[i];
            && (forall s :: s in section.1 <==> s in Candidates(SubmissionsOf(c, section.0.id), height, width))
            && SortedBy(section.1, ByCreated)
  {
  }

  /** The underline is as long as the header text after its leading newline. */
  lemma UnderlineMatchesHeader(name: string)
    ensures |Underline(name)| == |Header(name)| - 1 == 3 + |name|
    ensures forall i :: 0 <= i < |Underline(name)| ==> Underline(name)[i] == '-'
  {
  }

  lemma SectionLinesAsPrinted(before: seq<Line>, r: Subreddit, items: seq<Submission>)
    ensures before + [Message("\n/r/" + r.name), Message("---" + Dashes(|r.name|))] + PrettyLines(items)
         == before + SectionLines(r, items)
  {
  }

  /** Prints submission.pprint() for each of `submissions` after `lines`. */
  method PrintSubmissions(lines: seq<Line>, submissions: seq<Submission>) returns (out: seq<Line>)
    ensures out == lines + PrettyLines(submissions)
  {
    out := lines;
    var j := 0;
    while j < |submissions|
      invariant 0 <= j <= |submissions|
      invariant out == lines + PrettyLines(submissions[..j])
    {
      assert submissions[..j + 1][..j] == submissions[..j];
      out := out + [Pretty(submissions[j])];
      j := j + 1;
    }
    assert submissions[..j] == submissions;
  }

  /** Chooser: the required size of the current monitors over a database session. */
  class Chooser {
    const session: Session
    const imageHeight: int
    const imageWidth: int

    constructor (session: Session, monitors: seq<Monitor>)
      requires monitors != []
      ensures this.session == session
      ensures RequiredSize(monitors) == Success((imageHeight, imageWidth))
    {
      this.session := session;
      var size := RequiredSize(monitors).value;
      imageHeight := size.0;
      imageWidth := size.1;
    }

    function GetCandidates(): (r: seq<Submission>)
      reads session
      ensures forall s :: s in r <==> s in session.catalog.submissions && Fits(s, imageHeight, imageWidth)
    {
      Candidates(session.catalog.submissions, imageHeight, imageWidth)
    }

    /**
     * Chooses some candidate (random.choice) and records it in the history
     * table unless a row for it exists already.
     */
    method GetRandomCandidate(now: Timestamp) returns (r: Result<Submission, SelectionError>)
      modifies session
      ensures old(GetCandidates()) == [] <==> r == Failure(NoCandidates)
      ensures r.Success? ==> r.value in old(GetCandidates())
      ensures r.Success? ==> RecordDraw(old(session.catalog), r.value, now) == Success(session.catalog)
      ensures r.Failure? ==> session.catalog == old(session.catalog)
      ensures r.Failure? ==> r.error == NoCandidates || r.error == MultipleHistoryRows
      ensures old(GetCandidates()) != []
              && (forall s :: s in old(GetCandidates()) ==> |RowsFor(old(session.catalog.history), s.id)| <= 1)
              ==> r.Success?
      ensures r == Failure(MultipleHistoryRows) ==>
                exists s :: s in old(GetCandidates()) && RecordDraw(old(session.catalog), s, now) == Failure(MultipleHistoryRows)
    {
      var submissions := GetCandidates();
      if submissions == [] {
        return Failure(NoCandidates);
      }
      var submission :| submission in submissions;
      var rows := RowsFor(session.catalog.history, submission.id);
      if |rows| == 0 {
        var _ := session.AddHistory(submission.id, now);
      } else if |rows| > 1 {
        return Failure(MultipleHistoryRows);
      }
      return Success(submission);
    }

    /** The lines list_candidates_by_subreddit prints. */
    method ListCandidatesBySubreddit() returns (lines: seq<Line>)
      ensures lines == Render(Report(session.catalog, imageHeight, imageWidth))
    {
      ghost var report := Report(session.catalog, imageHeight, imageWidth);
      var subreddits := SubredditsByName(session.catalog);
      lines := [];
      var i := 0;
      while i < |subreddits|
        invariant 0 <= i <= |subreddits| == |report|
        invariant lines == Render(report[..i])
      {
        var subreddit := subreddits[i];
        ghost var before := lines;
        lines := lines + [Message("\n/r/" + subreddit.name), Message("---" + Dashes(|subreddit.name|))];
        var submissions := SectionItems(session.catalog, subreddit, imageHeight, imageWidth);
        lines := PrintSubmissions(lines, submissions);
        SectionLinesAsPrinted(before, subreddit, submissions);
        assert report[i] == (subreddit, submissions);
        RenderStep(report, i);
        i := i + 1;
      }
      assert report[..i] == report;
    }
  }
}
