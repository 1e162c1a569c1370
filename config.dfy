/**
 * Settings resolution: the `[reddit]` and `[redwall]` sections of the parsed
 * configuration files become the attributes of a `Config` object, with
 * per-key defaults, an all-or-nothing fallback, the comma/space tokenising of
 * the subreddit list and Python's int() on the submission limit.
 */
module Configuration {
  import opened Wrappers
  import opened Text

  /** What ConfigParser read: section name to option name to value. */
  type Sections = map<string, map<string, string>>

  /** A Python attribute: never assigned, or assigned a value. */
  datatype Attr<T> = Unset | Set(value: T)

  datatype ConfigError = InvalidLimit(value: string)  // int() raised ValueError

  const DefaultSubmissionLimit: int := 20
  const DefaultSubreddits: seq<string> := ["EarthPorn", "NaturePics"]
  const DefaultTimeFilter: string := "month"

  // ---------------------------------------------------------------------------
  // os.path.join on strings

  /** os.path.join(a, b): an absolute `b` wins; otherwise one '/' separates them unless `a` is empty or ends in '/'. */
  function JoinPath(a: string, b: string): string {
    if b != [] && b[0] == '/' then b
    else if a == [] || a[|a| - 1] == '/' then a + b
    else a + "/" + b
  }

  /** DEFAULT_DATA_DIR: `data` below the current directory. */
  function DefaultDataDir(cwd: string): string {
    JoinPath(cwd, "data")
  }

  /** A relative name is appended to the directory, with exactly one '/' between them when the directory is not empty. */
  lemma JoinPathRelative(a: string, b: string)
    requires b != [] && b[0] != '/'
    ensures var p := JoinPath(a, b);
            && p[..|a|] == a
            && p[|p| - |b|..] == b
            && (a != [] ==> p[|a| - 1..|p| - |b|] == (if a[|a| - 1] == '/' then "/" else a[|a| - 1..] + "/"))
  {
  }

  // ---------------------------------------------------------------------------
  // The subreddit list: value.strip().replace(',', ' ').split()

  /** str.strip(): whitespace removed at both ends. */
  function Strip(s: string): (r: string)
    ensures |r| <= |s|
    ensures r == [] || (!IsSpace(r[0]) && !IsSpace(r[|r| - 1]))
    decreases |s|
  {
    if s == [] then []
    else if IsSpace(s[0]) then Strip(s[1..])
    else if IsSpace(s[|s| - 1]) then Strip(s[..|s| - 1])
    else s
  }

  /** str.replace(',', ' '). */
  function ReplaceCommas(s: string): (r: string)
    ensures |r| == |s|
  {
    seq(|s|, i requires 0 <= i < |s| => if s[i] == ',' then ' ' else s[i])
  }

  /** The length of the leading run of non-whitespace. */
  function WordLength(s: string): (k: nat)
    ensures k <= |s|
    ensures forall i :: 0 <= i < k ==> !IsSpace(s[i])
    ensures k < |s| ==> IsSpace(s[k])
  {
    if s == [] || IsSpace(s[0]) then 0 else 1 + WordLength(s[1..])
  }

  /** str.split() with no argument: the maximal runs of non-whitespace. */
  function Words(s: string): (ws: seq<string>)
    ensures forall i :: 0 <= i < |ws| ==> ws[i] != [] && forall j :: 0 <= j < |ws[i]| ==> !IsSpace(ws[i][j])
    decreases |s|
  {
    if s == [] then []
    else if IsSpace(s[0]) then Words(s[1..])
    else
      var k := WordLength(s);
      [s[..k]] + Words(s[k..])
  }

  /** The configured subreddit names. */
  function SubredditList(value: string): (names: seq<string>)
    ensures forall i :: 0 <= i < |names| ==> names[i] != [] && forall j :: 0 <= j < |names[i]| ==> !IsSpace(names[i][j])
  {
    Words(ReplaceCommas(Strip(value)))
  }

  predicate IsSeparator(c: char) {
    IsSpace(c) || c == ','
  }

  /** A name that survives tokenising unchanged: non-empty, no whitespace, no comma. */
  predicate IsToken(t: string) {
    t != [] && forall i :: 0 <= i < |t| ==> !IsSeparator(t[i])
  }

  /** Every name is non-empty and holds no whitespace and no comma. */
  lemma SubredditListTokens(value: string)
    ensures forall i :: 0 <= i < |SubredditList(value)| ==> IsToken(SubredditList(value)[i])
  {
    var words := SubredditList(value);
    forall i | 0 <= i < |words| ensures IsToken(words[i]) {
      WordsOfCommaFree(ReplaceCommas(Strip(value)), i);
    }
  }

  lemma {:induction false} WordsOfCommaFree(s: string, i: nat)
    requires ',' !in s
    requires i < |Words(s)|
    ensures IsToken(Words(s)[i])
    decreases |s|
  {
    if IsSpace(s[0]) {
      assert ',' !in s[1..] by { assert forall c :: c in s[1..] ==> c in s; }
      WordsOfCommaFree(s[1..], i);
    } else {
      var k := WordLength(s);
      if i > 0 {
        assert ',' !in s[k..] by { assert forall c :: c in s[k..] ==> c in s; }
        WordsOfCommaFree(s[k..], i - 1);
      } else {
        var w := s[..k];
        forall j | 0 <= j < |w| ensures w[j] != ',' {
          assert w[j] == s[j];
        }
      }
    }
  }

  /** The characters kept from `s`: everything but separators. */
  function Kept(s: string): (r: string)
    ensures |r| <= |s|
  {
    if s == [] then [] else (if IsSeparator(s[0]) then [] else [s[0]]) + Kept(s[1..])
  }

  /** The names concatenated. */
  function Concat(ws: seq<string>): string {
    if ws == [] then [] else ws[0] + Concat(ws[1..])
  }

  lemma {:induction false} KeptAppend(a: string, b: string)
    ensures Kept(a + b) == Kept(a) + Kept(b)
    decreases |a|
  {
    if a == [] {
      assert a + b == b;
    } else {
      assert (a + b)[1..] == a[1..] + b;
      KeptAppend(a[1..], b);
    }
  }

  lemma {:induction false} KeptOfWord(t: string)
    requires ',' !in t
    requires forall i :: 0 <= i < |t| ==> !IsSpace(t[i])
    ensures Kept(t) == t
    decreases |t|
  {
    if t != [] {
      assert t[0] in t;
      assert forall c :: c in t[1..] ==> c in t;
      KeptOfWord(t[1..]);
      assert t == [t[0]] + t[1..];
    }
  }

  lemma {:induction false} ConcatWords(s: string)
    requires ',' !in s
    ensures Concat(Words(s)) == Kept(s)
    decreases |s|
  {
    if s != [] {
      if IsSpace(s[0]) {
        assert forall c :: c in s[1..] ==> c in s;
        ConcatWords(s[1..]);
      } else {
        var k := WordLength(s);
        assert s == s[..k] + s[k..];
        assert forall c :: c in s[k..] ==> c in s;
        assert forall c :: c in s[..k] ==> c in s;
        ConcatWords(s[k..]);
        KeptAppend(s[..k], s[k..]);
        KeptOfWord(s[..k]);
      }
    }
  }

  lemma {:induction false} KeptReplaceCommas(s: string)
    ensures ',' !in ReplaceCommas(s)
    ensures Kept(ReplaceCommas(s)) == Kept(s)
    decreases |s|
  {
    var r := ReplaceCommas(s);
    assert forall i :: 0 <= i < |r| ==> r[i] != ',';
    if s != [] {
      KeptReplaceCommas(s[1..]);
      assert r[1..] == ReplaceCommas(s[1..]);
    }
  }

  lemma {:induction false} KeptStrip(s: string)
    ensures Kept(Strip(s)) == Kept(s)
    decreases |s|
  {
    if s != [] {
      if IsSpace(s[0]) {
        KeptStrip(s[1..]);
      } else if IsSpace(s[|s| - 1]) {
        var init := s[..|s| - 1];
        KeptStrip(init);
        assert s == init + [s[|s| - 1]];
        KeptAppend(init, [s[|s| - 1]]);
      }
    }
  }

  /** Nothing but separators is lost: the names, concatenated, are the value with its whitespace and commas removed. */
  lemma SubredditListKeepsText(value: string)
    ensures Concat(SubredditList(value)) == Kept(value)
  {
    KeptStrip(value);
    KeptReplaceCommas(Strip(value));
    ConcatWords(ReplaceCommas(Strip(value)));
  }

  lemma {:induction false} WordsSkipSpaces(ws: string, rest: string)
    requires forall i :: 0 <= i < |ws| ==> IsSpace(ws[i])
    ensures Words(ws + rest) == Words(rest)
    decreases |ws|
  {
    if ws == [] {
      assert ws + rest == rest;
    } else {
      assert (ws + rest)[0] == ws[0];
      assert (ws + rest)[1..] == ws[1..] + rest;
      WordsSkipSpaces(ws[1..], rest);
    }
  }

  lemma {:induction false} WordLengthOfWord(t: string, rest: string)
    requires forall i :: 0 <= i < |t| ==> !IsSpace(t[i])
    requires rest == [] || IsSpace(rest[0])
    ensures WordLength(t + rest) == |t|
    decreases |t|
  {
    if t == [] {
      assert t + rest == rest;
    } else {
      assert (t + rest)[1..] == t[1..] + rest;
      WordLengthOfWord(t[1..], rest);
    }
  }

  /** split() undoes a join of whitespace-free names with a whitespace separator. */
  lemma {:induction false} WordsOfJoin(ts: seq<string>, ws: string)
    requires forall i :: 0 <= i < |ts| ==> IsToken(ts[i])
    requires ws != [] && forall i :: 0 <= i < |ws| ==> IsSpace(ws[i])
    ensures Words(JoinWith(ts, ws)) == ts
    decreases |ts|
  {
    if |ts| == 1 {
      WordLengthOfWord(ts[0], []);
      assert ts[0] + [] == ts[0];
      assert ts[0][|ts[0]|..] == [];
    } else if |ts| > 1 {
      var rest := JoinWith(ts[1..], ws);
      var s := ts[0] + (ws + rest);
      assert JoinWith(ts, ws) == s;
      WordLengthOfWord(ts[0], ws + rest);
      assert s[..|ts[0]|] == ts[0];
      assert s[|ts[0]|..] == ws + rest;
      WordsSkipSpaces(ws, rest);
      WordsOfJoin(ts[1..], ws);
      assert ts == [ts[0]] + ts[1..];
    }
  }

  lemma {:induction false} ReplaceCommasAppend(a: string, b: string)
    ensures ReplaceCommas(a + b) == ReplaceCommas(a) + ReplaceCommas(b)
  {
    var l, r := ReplaceCommas(a + b), ReplaceCommas(a) + ReplaceCommas(b);
    assert |l| == |r|;
    forall i | 0 <= i < |l| ensures l[i] == r[i] {
      if i < |a| {
        assert (a + b)[i] == a[i];
      } else {
        assert (a + b)[i] == b[i - |a|];
      }
    }
  }

  lemma ReplaceCommasOfToken(t: string)
    requires IsToken(t)
    ensures ReplaceCommas(t) == t
  {
    var r := ReplaceCommas(t);
    forall i | 0 <= i < |t| ensures r[i] == t[i] {
      assert !IsSeparator(t[i]);
    }
  }

  lemma {:induction false} ReplaceCommasOfJoin(ts: seq<string>, sep: string)
    requires forall i :: 0 <= i < |ts| ==> IsToken(ts[i])
    ensures ReplaceCommas(JoinWith(ts, sep)) == JoinWith(ts, ReplaceCommas(sep))
    decreases |ts|
  {
    if |ts| == 1 {
      ReplaceCommasOfToken(ts[0]);
    } else if |ts| > 1 {
      var t, rest := ts[0], JoinWith(ts[1..], sep);
      ReplaceCommasOfJoin(ts[1..], sep);
      ReplaceCommasOfToken(t);
      ReplaceCommasAppend(t, sep + rest);
      ReplaceCommasAppend(sep, rest);
      calc {
        ReplaceCommas(JoinWith(ts, sep));
        { assert JoinWith(ts, sep) == t + (sep + rest); }
        ReplaceCommas(t + (sep + rest));
        t + (ReplaceCommas(sep) + JoinWith(ts[1..], ReplaceCommas(sep)));
        { assert JoinWith(ts, ReplaceCommas(sep)) == t + ReplaceCommas(sep) + JoinWith(ts[1..], ReplaceCommas(sep)); }
        JoinWith(ts, ReplaceCommas(sep));
      }
    }
  }

  lemma {:induction false} JoinEnds(ts: seq<string>, sep: string)
    requires ts != [] && forall i :: 0 <= i < |ts| ==> IsToken(ts[i])
    ensures var s := JoinWith(ts, sep); s != [] && !IsSpace(s[0]) && !IsSpace(s[|s| - 1])
    decreases |ts|
  {
    var t := ts[0];
    assert IsToken(t) && !IsSeparator(t[0]) && !IsSeparator(t[|t| - 1]);
    if |ts| > 1 {
      JoinEnds(ts[1..], sep);
      var s := JoinWith(ts, sep);
      assert s == t + sep + JoinWith(ts[1..], sep);
    }
  }

  /**
   * Any separator made of commas and whitespace tokenises back to the names
   * it joined: "A, B", "A,B" and "A B" all give [A, B].
   */
  lemma SubredditListOfJoin(ts: seq<string>, sep: string)
    requires forall i :: 0 <= i < |ts| ==> IsToken(ts[i])
    requires sep != [] && forall i :: 0 <= i < |sep| ==> IsSeparator(sep[i])
    ensures SubredditList(JoinWith(ts, sep)) == ts
  {
    var v := JoinWith(ts, sep);
    if ts != [] {
      JoinEnds(ts, sep);
      assert Strip(v) == v;
    }
    ReplaceCommasOfJoin(ts, sep);
    WordsOfJoin(ts, ReplaceCommas(sep));
  }

  lemma SubredditSeparators(a: string, b: string)
    requires IsToken(a) && IsToken(b)
    ensures SubredditList(a + ", " + b) == [a, b]
    ensures SubredditList(a + "," + b) == [a, b]
    ensures SubredditList(a + " " + b) == [a, b]
  {
    assert JoinWith([a, b], ", ") == a + ", " + b;
    assert JoinWith([a, b], ",") == a + "," + b;
    assert JoinWith([a, b], " ") == a + " " + b;
    SubredditListOfJoin([a, b], ", ");
    SubredditListOfJoin([a, b], ",");
    SubredditListOfJoin([a, b], " ");
  }

  // ---------------------------------------------------------------------------
  // int() on a string

  /** Digits with single underscores between them, as int() accepts. */
  predicate WellGrouped(b: string) {
    && b != [] && IsDigit(b[0]) && IsDigit(b[|b| - 1])
    && (forall i :: 0 <= i < |b| ==> IsDigit(b[i]) || b[i] == '_')
    && (forall i :: 0 <= i < |b| - 1 ==> b[i] == '_' ==> IsDigit(b[i + 1]))
  }

  function RemoveUnderscores(b: string): (r: string)
    ensures forall c :: c in r ==> c in b && c != '_'
  {
    if b == [] then [] else (if b[0] == '_' then [] else [b[0]]) + RemoveUnderscores(b[1..])
  }

  /** The digits of a stripped int() literal: without its sign, if it has one. */
  function Unsigned(t: string): (body: string)
    ensures |body| <= |t| && body == t[|t| - |body|..]
    ensures |body| < |t| ==> t[0] == '+' || t[0] == '-'
  {
    if t != [] && (t[0] == '+' || t[0] == '-') then t[1..] else t
  }

  /**
   * int(s): surrounding whitespace, an optional sign, then grouped decimal
   * digits; None is the ValueError.
   */
  function ParseInt(s: string): (r: Option<int>)
    ensures r.Some? <==> WellGrouped(Unsigned(Strip(s)))
    ensures r.Some? ==> IsDigit(Strip(s)[|Strip(s)| - 1])
    ensures r.Some? && r.value < 0 ==> Strip(s)[0] == '-'
  {
    var t := Strip(s);
    var negative := t != [] && t[0] == '-';
    var body := Unsigned(t);
    if !WellGrouped(body) then None
    else
      GroupedDigitsParse(body);
      Some(if negative then 0 - ParseDecimal(RemoveUnderscores(body)).value else ParseDecimal(RemoveUnderscores(body)).value as int)
  }

  lemma {:induction false} GroupedDigitsParse(b: string)
    requires WellGrouped(b)
    ensures ParseDecimal(RemoveUnderscores(b)).Some?
  {
    var r := RemoveUnderscores(b);
    assert b == [b[0]] + b[1..];
    assert r[0] == b[0];
    forall i | 0 <= i < |r| ensures IsDigit(r[i]) {
      assert r[i] in r;
      var j :| 0 <= j < |b| && b[j] == r[i];
    }
  }

  /**
   * What int() accepts, character by character: a digit or a sign first,
   * then only digits and underscores, ending in a digit.
   */
  lemma ParseIntAccepts(s: string)
    ensures ParseInt(s).Some? ==>
              var t := Strip(s);
              && t != []
              && (IsDigit(t[0]) || t[0] == '+' || t[0] == '-')
              && (forall i :: 0 < i < |t| ==> IsDigit(t[i]) || t[i] == '_')
              && IsDigit(t[|t| - 1])
  {
    var t := Strip(s);
    var body := Unsigned(t);
    if ParseInt(s).Some? {
      forall i | 0 < i < |t| ensures IsDigit(t[i]) || t[i] == '_' {
        assert t[i] == body[i - (|t| - |body|)];
      }
    }
  }

  /** str(n) for any integer. */
  function IntString(n: int): string {
    if n < 0 then "-" + DecimalString(-n) else DecimalString(n)
  }

  lemma {:induction false} RemoveUnderscoresOfDigits(d: string)
    requires forall i :: 0 <= i < |d| ==> IsDigit(d[i])
    ensures RemoveUnderscores(d) == d
    decreases |d|
  {
    if d != [] {
      RemoveUnderscoresOfDigits(d[1..]);
      assert d == [d[0]] + d[1..];
    }
  }

  lemma ParseDigits(m: nat)
    ensures var d := DecimalString(m); WellGrouped(d) && ParseDecimal(RemoveUnderscores(d)) == Some(m)
  {
    var d := DecimalString(m);
    RemoveUnderscoresOfDigits(d);
    DecimalRoundTrip(m);
  }

  /** str(n) has no surrounding whitespace, and its unsigned part is the decimal of |n|. */
  lemma IntStringShape(n: int)
    ensures var s := IntString(n);
            && Strip(s) == s && s != []
            && (s[0] == '-' <==> n < 0)
            && Unsigned(s) == DecimalString(if n < 0 then -n else n)
  {
    var m: nat := if n < 0 then -n else n;
    var d := DecimalString(m);
    var s := IntString(n);
    assert IsDigit(d[0]) && IsDigit(d[|d| - 1]);
    if n < 0 {
      assert s == ['-'] + d && s[1..] == d;
    } else {
      assert s == d;
    }
  }

  /** int(str(n)) == n. */
  lemma ParseIntRoundTrip(n: int)
    ensures ParseInt(IntString(n)) == Some(n)
  {
    var m: nat := if n < 0 then -n else n;
    IntStringShape(n);
    ParseDigits(m);
  }

  // ---------------------------------------------------------------------------
  // Settings

  /** The attributes `Config.__init__` assigns. */
  datatype ConfigState = ConfigState(
    redditClientId: Attr<Option<string>>,
    redditClientSecret: Attr<Option<string>>,
    redditUserAgent: Attr<string>,
    redditClientAgent: Attr<Option<string>>,  // the fallback's misspelt attribute
    dataDir: Attr<string>,
    submissionLimit: Attr<int>,
    timeFilter: Attr<string>,
    subreddits: Attr<seq<string>>,
    dbFilename: Attr<string>)

  const Blank := ConfigState(Unset, Unset, Unset, Unset, Unset, Unset, Unset, Unset, Unset)

  /** section.get(key, default). */
  function Get(section: map<string, string>, key: string, default: string): string {
    if key in section then section[key] else default
  }

  predicate HasCredentials(sections: Sections) {
    "reddit" in sections
    && "client_id" in sections["reddit"]
    && "client_secret" in sections["reddit"]
    && "user_agent" in sections["reddit"]
  }

  /** The data settings: `data_dir`, `submission_limit`, `time_filter`, `subreddits`. */
  datatype Settings = Settings(dataDir: string, submissionLimit: int, timeFilter: string, subreddits: seq<string>)

  function Defaults(cwd: string): Settings {
    Settings(DefaultDataDir(cwd), DefaultSubmissionLimit, DefaultTimeFilter, DefaultSubreddits)
  }

  /** The `[redwall]` block: per-key defaults, int() first, and a missing section or `subreddits` key resets all four. */
  function RedwallSettings(sections: Sections, cwd: string): (r: Result<Settings, ConfigError>)
    ensures r.Failure? <==>
              "redwall" in sections && "submission_limit" in sections["redwall"]
              && ParseInt(sections["redwall"]["submission_limit"]).None?
    ensures r.Success? && ("redwall" !in sections || "subreddits" !in sections["redwall"]) ==> r.value == Defaults(cwd)
    ensures r.Success? ==> forall i :: 0 <= i < |r.value.subreddits| ==> r.value.subreddits[i] != []
  {
    if "redwall" !in sections then Success(Defaults(cwd))
    else
      var section := sections["redwall"];
      var limit := if "submission_limit" in section then ParseInt(section["submission_limit"]) else Some(DefaultSubmissionLimit);
      if limit.None? then Failure(InvalidLimit(section["submission_limit"]))
      else if "subreddits" !in section then Success(Defaults(cwd))
      else Success(Settings(Get(section, "data_dir", DefaultDataDir(cwd)), limit.value,
                            Get(section, "time_filter", DefaultTimeFilter), SubredditList(section["subreddits"])))
  }

  /** The `[reddit]` block: all three keys, or the fallback that assigns `reddit_client_agent` instead of the user agent. */
  function WithCredentials(st: ConfigState, sections: Sections): (r: ConfigState)
    ensures r.redditClientId.Set? && r.redditClientSecret.Set?
    ensures r.redditClientId.value.None? <==> !HasCredentials(sections)
    ensures r.redditClientSecret.value.None? <==> !HasCredentials(sections)
    ensures !HasCredentials(sections) ==> r.redditUserAgent == st.redditUserAgent
    ensures HasCredentials(sections) ==> r.redditClientAgent == st.redditClientAgent
    ensures r.dataDir == st.dataDir && r.submissionLimit == st.submissionLimit && r.timeFilter == st.timeFilter
            && r.subreddits == st.subreddits && r.dbFilename == st.dbFilename
  {
    if HasCredentials(sections) then
      st.(redditClientId := Set(Some(sections["reddit"]["client_id"])),
          redditClientSecret := Set(Some(sections["reddit"]["client_secret"])),
          redditUserAgent := Set(sections["reddit"]["user_agent"]))
    else
      st.(redditClientId := Set(None), redditClientSecret := Set(None), redditClientAgent := Set(None))
  }

  function WithSettings(st: ConfigState, s: Settings): ConfigState {
    st.(dataDir := Set(s.dataDir), submissionLimit := Set(s.submissionLimit),
        timeFilter := Set(s.timeFilter), subreddits := Set(s.subreddits))
  }

  /** What `Config(files)` holds once constructed, or the error that escapes it. */
  function Resolve(sections: Sections, cwd: string): (r: Result<ConfigState, ConfigError>)
    ensures r.Success? <==> RedwallSettings(sections, cwd).Success?
    ensures r.Failure? ==> r.error == RedwallSettings(sections, cwd).error
    ensures r.Success? ==>
              && r.value.dataDir.Set? && r.value.submissionLimit.Set? && r.value.timeFilter.Set? && r.value.subreddits.Set?
              && r.value.dbFilename == Set(JoinPath(r.value.dataDir.value, "redwall.db"))
    ensures r.Success? ==> (r.value.redditUserAgent.Set? <==> HasCredentials(sections))
  {
    match RedwallSettings(sections, cwd)
    case Failure(e) => Failure(e)
    case Success(s) =>
      Success(WithSettings(WithCredentials(Blank, sections), s).(dbFilename := Set(JoinPath(s.dataDir, "redwall.db"))))
  }

  /** Only a submission_limit that int() rejects makes construction fail. */
  lemma ResolveFailsIffBadLimit(sections: Sections, cwd: string)
    ensures Resolve(sections, cwd).Failure?
        <==> "redwall" in sections && "submission_limit" in sections["redwall"]
             && ParseInt(sections["redwall"]["submission_limit"]).None?
    ensures Resolve(sections, cwd).Failure? ==>
              Resolve(sections, cwd).error == InvalidLimit(sections["redwall"]["submission_limit"])
  {
  }

  /** A missing `[reddit]` key leaves id and secret None and `reddit_user_agent` unassigned. */
  lemma RedditFallback(sections: Sections, cwd: string)
    requires Resolve(sections, cwd).Success?
    ensures var c := Resolve(sections, cwd).value;
            if HasCredentials(sections) then
              && c.redditClientId == Set(Some(sections["reddit"]["client_id"]))
              && c.redditClientSecret == Set(Some(sections["reddit"]["client_secret"]))
              && c.redditUserAgent == Set(sections["reddit"]["user_agent"])
              && c.redditClientAgent == Unset
            else
              && c.redditClientId == Set(None) && c.redditClientSecret == Set(None)
              && c.redditUserAgent == Unset && c.redditClientAgent == Set(None)
  {
  }

  /** With `[redwall]` and its `subreddits` present, each other key falls back to its own default. */
  lemma PerKeyDefaults(sections: Sections, cwd: string)
    requires "redwall" in sections && "subreddits" in sections["redwall"]
    requires Resolve(sections, cwd).Success?
    ensures var section, c := sections["redwall"], Resolve(sections, cwd).value;
            && c.dataDir == Set(if "data_dir" in section then section["data_dir"] else DefaultDataDir(cwd))
            && c.submissionLimit == Set(if "submission_limit" in section then ParseInt(section["submission_limit"]).value else 20)
            && c.timeFilter == Set(if "time_filter" in section then section["time_filter"] else "month")
            && c.subreddits == Set(SubredditList(section["subreddits"]))
  {
  }

  /** Without `[redwall]` or its `subreddits` key, all four data settings are the defaults, whatever else was given. */
  lemma AllOrNothingFallback(sections: Sections, cwd: string)
    requires "redwall" !in sections || "subreddits" !in sections["redwall"]
    requires Resolve(sections, cwd).Success?
    ensures var c := Resolve(sections, cwd).value;
            && c.dataDir == Set(DefaultDataDir(cwd))
            && c.submissionLimit == Set(20)
            && c.timeFilter == Set("month")
            && c.subreddits == Set(["EarthPorn", "NaturePics"])
  {
  }

  /** The database lives in the data directory, under the name `redwall.db`. */
  lemma DbFilenameInDataDir(sections: Sections, cwd: string)
    requires Resolve(sections, cwd).Success?
    ensures var c := Resolve(sections, cwd).value;
            && c.dataDir.Set? && c.dbFilename.Set?
            && c.dbFilename.value[..|c.dataDir.value|] == c.dataDir.value
            && c.dbFilename.value[|c.dbFilename.value| - 10..] == "redwall.db"
  {
    var c := Resolve(sections, cwd).value;
    JoinPathRelative(c.dataDir.value, "redwall.db");
  }

  /** The configuration object; every attribute starts unassigned. */
  class Config {
    var redditClientId: Attr<Option<string>>
    var redditClientSecret: Attr<Option<string>>
    var redditUserAgent: Attr<string>
    var redditClientAgent: Attr<Option<string>>
    var dataDir: Attr<string>
    var submissionLimit: Attr<int>
    var timeFilter: Attr<string>
    var subreddits: Attr<seq<string>>
    var dbFilename: Attr<string>

    function State(): ConfigState
      reads this
    {
      ConfigState(redditClientId, redditClientSecret, redditUserAgent, redditClientAgent,
                  dataDir, submissionLimit, timeFilter, subreddits, dbFilename)
    }

    constructor Unconfigured()
      ensures State() == Blank
    {
      redditClientId, redditClientSecret, redditUserAgent, redditClientAgent := Unset, Unset, Unset, Unset;
      dataDir, submissionLimit, timeFilter, subreddits, dbFilename := Unset, Unset, Unset, Unset, Unset;
    }

    /** The `[reddit]` try block and its KeyError fallback. */
    method ReadCredentials(sections: Sections)
      modifies this
      ensures State() == WithCredentials(old(State()), sections)
    {
      if HasCredentials(sections) {
        redditClientId := Set(Some(sections["reddit"]["client_id"]));
        redditClientSecret := Set(Some(sections["reddit"]["client_secret"]));
        redditUserAgent := Set(sections["reddit"]["user_agent"]);
      } else {
        redditClientId := Set(None);
        redditClientSecret := Set(None);
        redditClientAgent := Set(None);
      }
    }

    method UseDefaults(cwd: string)
      modifies this
      ensures State() == WithSettings(old(State()), Defaults(cwd))
    {
      dataDir := Set(DefaultDataDir(cwd));
      submissionLimit := Set(DefaultSubmissionLimit);
      subreddits := Set(DefaultSubreddits);
      timeFilter := Set(DefaultTimeFilter);
    }

    /** The `[redwall]` try block; a Fail is the ValueError from int(), which the KeyError handler does not catch. */
    method ReadRedwall(sections: Sections, cwd: string) returns (o: Outcome<ConfigError>)
      modifies this
      ensures o.Pass? <==> RedwallSettings(sections, cwd).Success?
      ensures o.Pass? ==> State() == WithSettings(old(State()), RedwallSettings(sections, cwd).value)
      ensures o.Fail? ==> o.error == RedwallSettings(sections, cwd).error
    {
      if "redwall" !in sections {
        UseDefaults(cwd);
        return Pass;
      }
      var section := sections["redwall"];
      dataDir := Set(Get(section, "data_dir", DefaultDataDir(cwd)));
      if "submission_limit" in section {
        var limit := ParseInt(section["submission_limit"]);
        if limit.None? {
          return Fail(InvalidLimit(section["submission_limit"]));
        }
        submissionLimit := Set(limit.value);
      } else {
        submissionLimit := Set(DefaultSubmissionLimit);
      }
      timeFilter := Set(Get(section, "time_filter", DefaultTimeFilter));
      if "subreddits" in section {
        subreddits := Set(SubredditList(section["subreddits"]));
      } else {
        UseDefaults(cwd);
      }
      o := Pass;
    }

    /** `__init__` on what ConfigParser read; a Fail is the error that escapes it. */
    method Init(sections: Sections, cwd: string) returns (o: Outcome<ConfigError>)
      requires State() == Blank
      modifies this
      ensures o.Pass? <==> Resolve(sections, cwd).Success?
      ensures o.Pass? ==> State() == Resolve(sections, cwd).value
      ensures o.Fail? ==> o.error == Resolve(sections, cwd).error
    {
      ReadCredentials(sections);
      o := ReadRedwall(sections, cwd);
      if o.Pass? {
        dbFilename := Set(JoinPath(dataDir.value, "redwall.db"));
      }
    }
  }
}
