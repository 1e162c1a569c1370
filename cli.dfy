/**
 * The console commands: start-up (configuration and schema), `current`,
 * `history`, `info`, `search`, `random` and `list-candidates`, each as the
 * lines it prints or the error that escapes it.
 */
module Cli {
  import opened Wrappers
  import opened Text
  import opened Ordering
  import opened Models
  import opened Election
  import opened Configuration

  datatype CliError =
    | NoResultFound                      // Query.one() matched no row
    | MultipleResultsFound               // Query.one() matched several rows
    | MissingSubmission(submissionId: int)  // a history row whose submission is gone
    | Selection(error: SelectionError)

  // ---------------------------------------------------------------------------
  // Start-up

  datatype Startup =
    | Ready(config: ConfigState, databaseUrl: string)
    | Exit(code: int)                    // the schema could not be created
    | ConfigFailed(error: ConfigError)   // Config() raised

  /** The group callback: load the configuration, then create the schema; `schemaCreated` is whether create_all succeeded. */
  function Start(sections: Sections, cwd: string, schemaCreated: bool): (r: Startup)
    ensures r.Exit? <==> Resolve(sections, cwd).Success? && !schemaCreated
    ensures r.Exit? ==> r.code == 1
    ensures r.ConfigFailed? <==> Resolve(sections, cwd).Failure?
    ensures r.Ready? ==> r.config == Resolve(sections, cwd).value && r.config.dbFilename.Set?
  {
    match Resolve(sections, cwd)
    case Failure(e) => ConfigFailed(e)
    case Success(config) =>
      if !schemaCreated then Exit(1)
      else Ready(config, "sqlite:///" + config.dbFilename.value)
  }

  /** The engine opens `redwall.db` inside the configured data directory. */
  lemma DatabaseUrlNamesDataDir(sections: Sections, cwd: string)
    requires Start(sections, cwd, true).Ready?
    ensures var r := Start(sections, cwd, true);
            var dataDir := r.config.dataDir.value;
            && r.config.dataDir.Set?
            && r.databaseUrl[..10] == "sqlite:///"
            && r.databaseUrl[10..10 + |dataDir|] == dataDir
            && r.databaseUrl[|r.databaseUrl| - 10..] == "redwall.db"
  {
    DbFilenameInDataDir(sections, cwd);
    var r := Start(sections, cwd, true);
    var db := r.config.dbFilename.value;
    assert r.databaseUrl == "sqlite:///" + db;
    assert r.databaseUrl[10..] == db;
  }

  // ---------------------------------------------------------------------------
  // current

  /** The history row with the greatest id: ORDER BY id DESC, first(). */
  function Latest(rows: seq<History>): (r: History)
    requires rows != []
    ensures r in rows
    ensures forall x :: x in rows ==> x.id <= r.id
  {
    if |rows| == 1 then rows[0]
    else
      var rest := Latest(rows[1..]);
      if rows[0].id >= rest.id then rows[0] else rest
  }

  /**
   * What `current` prints: the latest selection, or only its file name with
   * `-f`. A missing submission fails after the date line is printed.
   */
  function Current(c: Catalog, filename: bool): (out: (seq<Line>, Outcome<CliError>))
    ensures c.history == [] ==> out == ([Message("Nothing found!")], Pass)
    ensures out.1.Fail? ==> c.history != [] && out.1.error.MissingSubmission?
    ensures c.history != [] ==>
              (out.1.Fail? <==> forall s :: s in c.submissions ==> s.id != Latest(c.history).submissionId)
    ensures c.history != [] && out.1.Fail? ==>
              && out.1.error.submissionId == Latest(c.history).submissionId
              && out.0 == (if filename then [] else [SelectedOn(Latest(c.history).date)])
    ensures c.history != [] && out.1.Pass? ==>
              exists h, s :: h in c.history && s in c.submissions
                && s.id == h.submissionId
                && (forall x :: x in c.history ==> x.id <= h.id)
                && out.0 == (if filename then [Message(s.imageFilename)] else [SelectedOn(h.date), Pretty(s)])
  {
    if c.history == [] then ([Message("Nothing found!")], Pass)
    else
      var entry := Latest(c.history);
      match FindSubmission(c.submissions, entry.submissionId)
      case None => (if filename then [] else [SelectedOn(entry.date)], Fail(MissingSubmission(entry.submissionId)))
      case Some(s) => (if filename then [Message(s.imageFilename)] else [SelectedOn(entry.date), Pretty(s)], Pass)
  }

  // ---------------------------------------------------------------------------
  // history

  lemma HistoryByIdIsPreorder()
    ensures TotalPreorder(HistoryById)
  {
  }

  /** Rows in ascending id order, the order `history` prints them in. */
  function HistoryInOrder(c: Catalog): (rows: seq<History>)
    ensures multiset(rows) == multiset(c.history)
    ensures SortedBy(rows, HistoryById)
  {
    HistoryByIdIsPreorder();
    SortBy(c.history, HistoryById)
  }

  /** One dated line per row; printing stops at the first row whose submission is gone. */
  function HistoryLines(c: Catalog, rows: seq<History>): (out: (seq<Line>, Outcome<CliError>))
    ensures |out.0| <= |rows|
    ensures out.1.Pass? ==> |out.0| == |rows|
  {
    if rows == [] then ([], Pass)
    else
      match FindSubmission(c.submissions, rows[0].submissionId)
      case None => ([], Fail(MissingSubmission(rows[0].submissionId)))
      case Some(s) =>
        var rest := HistoryLines(c, rows[1..]);
        ([Dated(rows[0].date, s)] + rest.0, rest.1)
  }

  /** The only failure is a row whose submission does not exist. */
  lemma {:induction false} HistoryLinesFailure(c: Catalog, rows: seq<History>)
    ensures var out := HistoryLines(c, rows);
            out.1.Fail? ==>
              && out.1.error.MissingSubmission?
              && Referenced(rows, out.1.error.submissionId)
              && forall s :: s in c.submissions ==> s.id != out.1.error.submissionId
  {
    if rows != [] {
      assert rows[0] in rows;
      if FindSubmission(c.submissions, rows[0].submissionId).Some? {
        HistoryLinesFailure(c, rows[1..]);
        assert forall h :: h in rows[1..] ==> h in rows;
      }
    }
  }

  /** Some row refers to the submission id. */
  ghost predicate Referenced(rows: seq<History>, submissionId: int) {
    exists h :: h in rows && h.submissionId == submissionId
  }

  /** Every history row refers to an existing submission. */
  predicate HistoryResolves(c: Catalog) {
    forall h :: h in c.history ==> FindSubmission(c.submissions, h.submissionId).Some?
  }

  /** The `history` loop. */
  method PrintHistory(c: Catalog) returns (lines: seq<Line>, o: Outcome<CliError>)
    ensures (lines, o) == HistoryLines(c, HistoryInOrder(c))
  {
    var entries := HistoryInOrder(c);
    ghost var spec := HistoryLines(c, entries);
    lines := [];
    var i := 0;
    assert entries[i..] == entries;
    assert lines + spec.0 == spec.0;
    while i < |entries|
      invariant 0 <= i <= |entries|
      invariant spec == (lines + HistoryLines(c, entries[i..]).0, HistoryLines(c, entries[i..]).1)
    {
      ghost var rest := HistoryLines(c, entries[i + 1..]);
      assert entries[i..][0] == entries[i];
      assert entries[i..][1..] == entries[i + 1..];
      var submission := FindSubmission(c.submissions, entries[i].submissionId);
      if submission.None? {
        assert HistoryLines(c, entries[i..]) == ([], Fail(MissingSubmission(entries[i].submissionId)));
        assert lines + [] == lines;
        return lines, Fail(MissingSubmission(entries[i].submissionId));
      }
      var line := Dated(entries[i].date, submission.value);
      assert HistoryLines(c, entries[i..]) == ([line] + rest.0, rest.1);
      assert lines + ([line] + rest.0) == (lines + [line]) + rest.0;
      lines := lines + [line];
      i := i + 1;
    }
    assert lines + HistoryLines(c, entries[i..]).0 == lines;
    o := Pass;
  }

  /** With every reference intact, each row is printed once, in order, dated, with its own submission. */
  lemma {:induction false} HistoryLinesComplete(c: Catalog, rows: seq<History>)
    requires forall h :: h in rows ==> FindSubmission(c.submissions, h.submissionId).Some?
    ensures HistoryLines(c, rows).1 == Pass
    ensures |HistoryLines(c, rows).0| == |rows|
    ensures forall i :: 0 <= i < |rows| ==>
              HistoryLines(c, rows).0[i] == Dated(rows[i].date, FindSubmission(c.submissions, rows[i].submissionId).value)
  {
    if rows != [] {
      assert forall h :: h in rows[1..] ==> h in rows;
      HistoryLinesComplete(c, rows[1..]);
      assert rows[0] in rows;
    }
  }

  /** The command fails exactly when some row's submission is gone. */
  lemma {:induction false} HistoryFailsIffDangling(c: Catalog, rows: seq<History>)
    ensures HistoryLines(c, rows).1.Fail? <==> exists h :: h in rows && FindSubmission(c.submissions, h.submissionId).None?
  {
    if rows != [] {
      assert forall h :: h in rows[1..] ==> h in rows;
      assert forall h :: h in rows ==> h == rows[0] || h in rows[1..];
      HistoryFailsIffDangling(c, rows[1..]);
    }
  }

  /** `history` prints every row in ascending id order. */
  lemma HistoryPrintsAllInIdOrder(c: Catalog)
    requires HistoryResolves(c)
    ensures var rows := HistoryInOrder(c); var out := HistoryLines(c, rows);
            && out.1 == Pass
            && |out.0| == |c.history|
            && (forall i, j :: 0 <= i < j < |rows| ==> rows[i].id <= rows[j].id)
            && forall i :: 0 <= i < |rows| ==> out.0[i].Dated? && out.0[i].date == rows[i].date && out.0[i].sub.id == rows[i].submissionId
  {
    var rows := HistoryInOrder(c);
    assert |rows| == |c.history| by { assert |multiset(rows)| == |multiset(c.history)|; }
    forall h | h in rows ensures FindSubmission(c.submissions, h.submissionId).Some? {
      assert h in multiset(rows);
    }
    HistoryLinesComplete(c, rows);
  }

  // ---------------------------------------------------------------------------
  // info

  /** Submissions with the given post id, in table order. */
  function WithPostId(c: Catalog, postId: string): (rows: seq<Submission>)
    ensures forall s :: s in rows <==> s in c.submissions && s.postId == postId
  {
    Filter(c.submissions, (s: Submission) => s.postId == postId)
  }

  /** What `info` prints: .one() raises unless exactly one row matches. */
  function Info(c: Catalog, postId: string, filename: bool): (r: Result<seq<Line>, CliError>)
    ensures r == Failure(NoResultFound) <==> forall s :: s in c.submissions ==> s.postId != postId
    ensures r.Success? ==>
              exists s :: s in c.submissions && s.postId == postId
                && r.value == (if filename then [Message(s.imageFilename)] else [Pretty(s)])
  {
    var rows := WithPostId(c, postId);
    assert |rows| != 0 ==> rows[0] in rows;
    if |rows| == 0 then Failure(NoResultFound)
    else if |rows| > 1 then Failure(MultipleResultsFound)
    else Success(if filename then [Message(rows[0].imageFilename)] else [Pretty(rows[0])])
  }

  lemma {:induction false} FilterCountsIndices(s: seq<Submission>, postId: string, i: nat, j: nat)
    requires i < j < |s| && s[i].postId == postId && s[j].postId == postId
    ensures |Filter(s, (x: Submission) => x.postId == postId)| >= 2
    decreases |s|
  {
    var p := (x: Submission) => x.postId == postId;
    assert s == [s[0]] + s[1..];
    if i == 0 {
      assert s[j] == s[1..][j - 1];
      assert s[j] in Filter(s[1..], p);
    } else {
      FilterCountsIndices(s[1..], postId, i - 1, j - 1);
    }
  }

  /** Two different rows carry the post id. */
  ghost predicate TwoRowsWith(rows: seq<Submission>, postId: string) {
    exists i, j :: 0 <= i < j < |rows| && rows[i].postId == postId && rows[j].postId == postId
  }

  lemma {:induction false} FilterFindsTwoRows(s: seq<Submission>, postId: string)
    requires |Filter(s, (x: Submission) => x.postId == postId)| >= 2
    ensures TwoRowsWith(s, postId)
    decreases |s|
  {
    var p := (x: Submission) => x.postId == postId;
    var rest := Filter(s[1..], p);
    if p(s[0]) {
      assert rest[0] in rest;
      var k :| 0 <= k < |s[1..]| && s[1..][k] == rest[0];
      assert s[k + 1] == rest[0];
      assert 0 < k + 1 < |s| && s[0].postId == postId && s[k + 1].postId == postId;
    } else {
      FilterFindsTwoRows(s[1..], postId);
      var i, j :| 0 <= i < j < |s[1..]| && s[1..][i].postId == postId && s[1..][j].postId == postId;
      assert s[i + 1] == s[1..][i] && s[j + 1] == s[1..][j];
    }
  }

  /**
   * `info` succeeds exactly when one row carries the post id, and then shows
   * that row; otherwise .one() raises, so the "Nothing found!" branch is never
   * taken.
   */
  lemma InfoOneRow(c: Catalog, postId: string, filename: bool)
    ensures Info(c, postId, filename).Success? <==> |WithPostId(c, postId)| == 1
    ensures Info(c, postId, filename) == Failure(MultipleResultsFound) <==> TwoRowsWith(c.submissions, postId)
    ensures Info(c, postId, filename) == Failure(NoResultFound) <==> forall s :: s in c.submissions ==> s.postId != postId
    ensures Info(c, postId, filename).Success? ==>
              exists s :: s in c.submissions && s.postId == postId
                && Info(c, postId, filename).value == (if filename then [Message(s.imageFilename)] else [Pretty(s)])
    ensures Info(c, postId, filename).Success? ==>
              forall i, j :: 0 <= i < |c.submissions| && 0 <= j < |c.submissions| ==>
                (c.submissions[i].postId == postId && c.submissions[j].postId == postId ==> i == j)
  {
    var rows := WithPostId(c, postId);
    if |rows| != 0 {
      assert rows[0] in rows;
    }
    if |rows| == 1 {
      forall i, j | 0 <= i < |c.submissions| && 0 <= j < |c.submissions|
        ensures c.submissions[i].postId == postId && c.submissions[j].postId == postId ==> i == j
      {
        if c.submissions[i].postId != postId || c.submissions[j].postId != postId {
        } else if i < j {
          FilterCountsIndices(c.submissions, postId, i, j);
        } else if j < i {
          FilterCountsIndices(c.submissions, postId, j, i);
        }
      }
    }
    if |rows| > 1 {
      FilterFindsTwoRows(c.submissions, postId);
    }
    if TwoRowsWith(c.submissions, postId) {
      var i, j :| 0 <= i < j < |c.submissions| && c.submissions[i].postId == postId && c.submissions[j].postId == postId;
      FilterCountsIndices(c.submissions, postId, i, j);
    }
  }

  // ---------------------------------------------------------------------------
  // search

  /** title ILIKE '%text%' under SQLite: ASCII case-insensitive containment. */
  predicate TitleMatches(s: Submission, text: string) {
    Contains(Lower(s.title), Lower(text))
  }

  lemma SubmissionByIdIsPreorder()
    ensures TotalPreorder(SubmissionById)
  {
  }

  /** The rows whose title matches, in the order given. */
  function MatchingTitles(rows: seq<Submission>, text: string): (r: seq<Submission>)
    ensures forall s :: s in r <==> s in rows && TitleMatches(s, text)
  {
    if rows == [] then []
    else (if TitleMatches(rows[0], text) then [rows[0]] else []) + MatchingTitles(rows[1..], text)
  }

  lemma {:induction false} MatchingTitlesIsFilter(rows: seq<Submission>, text: string)
    ensures MatchingTitles(rows, text) == Filter(rows, (s: Submission) => TitleMatches(s, text))
  {
    if rows != [] {
      MatchingTitlesIsFilter(rows[1..], text);
    }
  }

  /** The matching rows in ascending id order. */
  function SearchResults(c: Catalog, words: seq<string>): (rows: seq<Submission>)
    ensures forall s :: s in rows <==> s in c.submissions && TitleMatches(s, JoinWith(words, " "))
  {
    SubmissionByIdIsPreorder();
    var byId := SortBy(c.submissions, SubmissionById);
    assert forall s :: s in byId <==> s in c.submissions by {
      forall s ensures s in byId <==> s in c.submissions {
        assert s in byId <==> s in multiset(byId);
      }
    }
    MatchingTitles(byId, JoinWith(words, " "))
  }

  /** Results come in ascending id order, each matching row as often as the table holds it. */
  lemma SearchResultsOrdered(c: Catalog, words: seq<string>)
    ensures SortedBy(SearchResults(c, words), SubmissionById)
    ensures forall s :: multiset(SearchResults(c, words))[s] == if TitleMatches(s, JoinWith(words, " ")) then multiset(c.submissions)[s] else 0
  {
    SubmissionByIdIsPreorder();
    var byId := SortBy(c.submissions, SubmissionById);
    var p := (s: Submission) => TitleMatches(s, JoinWith(words, " "));
    MatchingTitlesIsFilter(byId, JoinWith(words, " "));
    FilterSorted(byId, p, SubmissionById);
  }

  function BriefLines(rows: seq<Submission>): (lines: seq<Line>)
    ensures |lines| == |rows| && forall i :: 0 <= i < |rows| ==> lines[i] == Brief(rows[i])
  {
    seq(|rows|, i requires 0 <= i < |rows| => Brief(rows[i]))
  }

  function CountLine(n: nat): string {
    "\n" + DecimalString(n) + " result(s) found"
  }

  /** The `search` loop and its closing count line. */
  method Search(c: Catalog, words: seq<string>) returns (lines: seq<Line>)
    ensures lines == BriefLines(SearchResults(c, words)) + [Message(CountLine(|SearchResults(c, words)|))]
  {
    var submissions := SearchResults(c, words);
    lines := [];
    var i := 0;
    while i < |submissions|
      invariant 0 <= i <= |submissions|
      invariant |lines| == i && forall k :: 0 <= k < i ==> lines[k] == Brief(submissions[k])
    {
      lines := lines + [Brief(submissions[i])];
      i := i + 1;
    }
    assert lines == BriefLines(submissions);
    lines := lines + [Message(CountLine(|submissions|))];
  }

  /**
   * A row is listed exactly when its lower-cased title has the lower-cased,
   * space-joined words at some position.
   */
  lemma SearchFindsMatchingTitles(c: Catalog, words: seq<string>, s: Submission)
    ensures s in SearchResults(c, words) <==> s in c.submissions && HasAt(Lower(s.title), Lower(JoinWith(words, " ")))
  {
    ContainsIffOccurs(Lower(s.title), Lower(JoinWith(words, " ")));
  }

  // ---------------------------------------------------------------------------
  // random and list-candidates

  /** `random`: a draw by the Chooser; only the chosen file name is printed. */
  method Random(session: Session, monitors: seq<Monitor>, now: Timestamp) returns (r: Result<seq<Line>, CliError>)
    modifies session
    ensures monitors == [] ==> r == Failure(Selection(NoMonitors)) && session.catalog == old(session.catalog)
    ensures r.Success? ==>
              exists s :: s in Candidates(old(session.catalog.submissions), RequiredSize(monitors).value.0, RequiredSize(monitors).value.1)
                && r.value == [Message(s.imageFilename)]
                && RecordDraw(old(session.catalog), s, now) == Success(session.catalog)
    ensures r.Failure? ==> session.catalog == old(session.catalog)
    ensures r.Failure? ==>
              r.error in {Selection(NoMonitors), Selection(NoCandidates), Selection(MultipleHistoryRows)}
    ensures r == Failure(Selection(NoMonitors)) <==> monitors == []
    ensures r == Failure(Selection(MultipleHistoryRows)) ==>
              && monitors != []
              && exists s :: s in Candidates(old(session.catalog.submissions), RequiredSize(monitors).value.0,
                                             RequiredSize(monitors).value.1)
                             && |RowsFor(old(session.catalog.history), s.id)| >= 2
    ensures monitors != [] ==>
              var candidates := Candidates(old(session.catalog.submissions), RequiredSize(monitors).value.0,
                                           RequiredSize(monitors).value.1);
              && (candidates == [] <==> r == Failure(Selection(NoCandidates)))
              && (candidates != []
                  && (forall s :: s in candidates ==> |RowsFor(old(session.catalog.history), s.id)| <= 1)
                  ==> r.Success?)
  {
    if monitors == [] {
      return Failure(Selection(NoMonitors));
    }
    var chooser := new Chooser(session, monitors);
    assert chooser.GetCandidates() == Candidates(session.catalog.submissions, RequiredSize(monitors).value.0, RequiredSize(monitors).value.1);
    var submission := chooser.GetRandomCandidate(now);
    if submission.Failure? {
      return Failure(Selection(submission.error));
    }
    r := Success([Message(submission.value.imageFilename)]);
  }

  /** `list-candidates`: the Chooser's per-subreddit report. */
  method ListCandidates(session: Session, monitors: seq<Monitor>) returns (r: Result<seq<Line>, CliError>)
    ensures monitors == [] <==> r.Failure?
    ensures r.Failure? ==> r.error == Selection(NoMonitors)
    ensures r.Success? ==>
              r.value == Render(Report(session.catalog, RequiredSize(monitors).value.0, RequiredSize(monitors).value.1))
  {
    if monitors == [] {
      return Failure(Selection(NoMonitors));
    }
    var chooser := new Chooser(session, monitors);
    var lines := chooser.ListCandidatesBySubreddit();
    r := Success(lines);
  }
}
