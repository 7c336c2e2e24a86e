/**
 * The dashboard: the recorded interview sessions, the metric cards, the
 * language and model charts, the recent-sessions table, the CSV export and
 * the recording of a finished session.
 */
module Analytics {
  import opened Lists
  import opened Text

  // -------------------------------------------------------------- sessions

  /**
   * One stored session. Every field may be missing in stored data; a
   * missing or falsy field (absent, empty text, zero) is shown with its
   * default.
   */
  datatype Session = Session(
    date: string,
    company: Option<string>,
    position: Option<string>,
    duration: Option<nat>,
    questions: Option<nat>,
    language: Option<string>,
    model: Option<string>,
    avgResponseTime: Option<real>)

  /** JavaScript `text || fallback`. */
  function OrText(v: Option<string>, fallback: string): (r: string)
    ensures v.Some? && v.value != "" ==> r == v.value
    ensures v.None? || v.value == "" ==> r == fallback
  {
    if v.Some? && v.value != "" then v.value else fallback
  }

  /** JavaScript `n || 0`. */
  function OrZero(v: Option<nat>): (r: nat)
    ensures v.Some? ==> r == v.value
    ensures v.None? ==> r == 0
  {
    if v.Some? then v.value else 0
  }

  function OrZeroReal(v: Option<real>): real
  {
    if v.Some? then v.value else 0.0
  }

  function LanguageOf(s: Session): string { OrText(s.language, "English") }

  function ModelOf(s: Session): string { OrText(s.model, "gpt-4o") }

  // --------------------------------------------------------------- metrics

  /** The metric cards' figures. */
  datatype Metrics = Metrics(totalInterviews: nat, totalQuestions: nat, avgDuration: real, avgResponseTime: real)

  function SumQuestions(ss: seq<Session>): nat
  {
    if |ss| == 0 then 0 else OrZero(ss[0].questions) + SumQuestions(ss[1..])
  }

  function SumDuration(ss: seq<Session>): nat
  {
    if |ss| == 0 then 0 else OrZero(ss[0].duration) + SumDuration(ss[1..])
  }

  function SumResponse(ss: seq<Session>): real
  {
    if |ss| == 0 then 0.0 else OrZeroReal(ss[0].avgResponseTime) + SumResponse(ss[1..])
  }

  /**
   * `calculateMetrics`: counts the sessions and their questions; the two
   * averages are recomputed only when there are sessions and otherwise
   * keep their previous values.
   */
  function CalculateMetrics(prev: Metrics, ss: seq<Session>): (m: Metrics)
    ensures m.totalInterviews == |ss|
    ensures |ss| == 0 ==> m == Metrics(0, 0, prev.avgDuration, prev.avgResponseTime)
    ensures |ss| > 0 ==> m.avgDuration * (|ss| as real) == SumDuration(ss) as real
    ensures |ss| > 0 ==> m.avgResponseTime * (|ss| as real) == SumResponse(ss)
  {
    var questions := SumQuestions(ss);
    if |ss| > 0 then
      Metrics(|ss|, questions, SumDuration(ss) as real / |ss| as real, SumResponse(ss) / |ss| as real)
    else Metrics(0, questions, prev.avgDuration, prev.avgResponseTime)
  }

  /** The question total adds up over a split of the sessions. */
  lemma {:induction false} SumQuestionsAppend(a: seq<Session>, b: seq<Session>)
    ensures SumQuestions(a + b) == SumQuestions(a) + SumQuestions(b)
    decreases |a|
  {
    if |a| > 0 {
      assert (a + b)[1..] == a[1..] + b;
      SumQuestionsAppend(a[1..], b);
    } else {
      assert a + b == b;
    }
  }

  /** Recording one more session adds one interview and its questions. */
  lemma MetricsAfterRecording(prev: Metrics, ss: seq<Session>, s: Session)
    ensures var m := CalculateMetrics(prev, ss + [s]);
      m.totalInterviews == |ss| + 1
      && m.totalQuestions == CalculateMetrics(prev, ss).totalQuestions + OrZero(s.questions)
  {
    SumQuestionsAppend(ss, [s]);
    assert [s][1..] == [];
  }

  // ---------------------------------------------------------------- tallies

  /** Counts per key, in order of first appearance. */
  type Tally = seq<(string, nat)>

  function KeysOf(t: Tally): seq<string>
  {
    Map((p: (string, nat)) => p.0, t)
  }

  predicate DistinctKeys(t: Tally)
  {
    forall i, j :: 0 <= i < j < |t| ==> t[i].0 != t[j].0
  }

  /** The count recorded for `k`, 0 when it has none. */
  function CountOf(t: Tally, k: string): nat
  {
    if |t| == 0 then 0 else if t[0].0 == k then t[0].1 else CountOf(t[1..], k)
  }

  function Total(t: Tally): nat
  {
    if |t| == 0 then 0 else t[0].1 + Total(t[1..])
  }

  /** `counts[k] = (counts[k] || 0) + 1` on an insertion-ordered object. */
  function Increment(t: Tally, k: string): (r: Tally)
    ensures |r| == if k in KeysOf(t) then |t| else |t| + 1
    ensures forall i :: 0 <= i < |t| ==> r[i].0 == t[i].0
    ensures k !in KeysOf(t) ==> r == t + [(k, 1)]
    ensures Total(r) == Total(t) + 1
  {
    if |t| == 0 then [(k, 1)]
    else if t[0].0 == k then [(k, t[0].1 + 1)] + t[1..]
    else
      assert KeysOf(t) == [t[0].0] + KeysOf(t[1..]);
      var r := [t[0]] + Increment(t[1..], k);
      assert r[1..] == Increment(t[1..], k);
      r
  }

  /** Counting keeps each key once. */
  lemma {:induction false} IncrementDistinct(t: Tally, k: string)
    requires DistinctKeys(t)
    ensures DistinctKeys(Increment(t, k))
    decreases |t|
  {
    var r := Increment(t, k);
    if |t| > 0 && t[0].0 != k {
      var rest := Increment(t[1..], k);
      assert r == [t[0]] + rest;
      assert forall i :: 1 <= i < |t| ==> t[i] == t[1..][i - 1];
      IncrementDistinct(t[1..], k);
      forall j | 0 < j < |r|
        ensures r[j].0 != t[0].0
      {
        assert r[j] == rest[j - 1];
        if j - 1 < |t[1..]| {
          assert rest[j - 1].0 == t[j].0;
        } else {
          assert k !in KeysOf(t[1..]);
          assert rest == t[1..] + [(k, 1)];
        }
      }
    } else if |t| > 0 {
      assert r[1..] == t[1..];
    }
  }

  /** Counting `k` adds one to its count and leaves every other count alone. */
  lemma {:induction false} IncrementCounts(t: Tally, k: string, x: string)
    requires DistinctKeys(t)
    ensures CountOf(Increment(t, k), x) == CountOf(t, x) + (if x == k then 1 else 0)
    decreases |t|
  {
    if |t| == 0 {
    } else if t[0].0 == k {
      var r := Increment(t, k);
      assert r[1..] == t[1..];
      if x == k {
        assert CountOf(t, x) == t[0].1;
      }
    } else {
      var r := Increment(t, k);
      assert r[1..] == Increment(t[1..], k);
      assert forall i :: 1 <= i < |t| ==> t[i] == t[1..][i - 1];
      IncrementCounts(t[1..], k, x);
    }
  }

  /** A key without a count. */
  lemma CountOfMissing(t: Tally, k: string)
    requires k !in KeysOf(t)
    ensures CountOf(t, k) == 0
  {
    if |t| > 0 {
      assert KeysOf(t) == [t[0].0] + KeysOf(t[1..]);
      CountOfMissing(t[1..], k);
    }
  }

  /** Tallies the keys in order, as the chart code's `forEach` does. */
  function TallyOf(keys: seq<string>): (t: Tally)
    ensures DistinctKeys(t)
    ensures Total(t) == |keys|
    ensures forall x :: CountOf(t, x) == multiset(keys)[x]
    decreases |keys|
  {
    if |keys| == 0 then []
    else
      var prefix := keys[..|keys| - 1];
      var last := keys[|keys| - 1];
      assert keys == prefix + [last];
      var t := TallyOf(prefix);
      IncrementDistinct(t, last);
      assert forall x :: CountOf(Increment(t, last), x) == multiset(keys)[x] by {
        forall x { IncrementCounts(t, last, x); }
      }
      Increment(t, last)
  }

  /** The tally names each key once, in order of first appearance, with a
      positive count. */
  lemma {:induction false} TallyKeysFirstSeen(keys: seq<string>)
    ensures KeysOf(TallyOf(keys)) == Dedup(keys)
    decreases |keys|
  {
    if |keys| > 0 {
      var prefix := keys[..|keys| - 1];
      var last := keys[|keys| - 1];
      assert keys == prefix + [last];
      TallyKeysFirstSeen(prefix);
      var t := TallyOf(prefix);
      DedupKeeps(prefix, last);
      IncrementKeys(t, last);
      assert Dedup(keys) == if last in Dedup(prefix) then Dedup(prefix) else Dedup(prefix) + [last];
    }
  }

  /** Counting a key keeps the key list, adding the key at the end when it is new. */
  lemma IncrementKeys(t: Tally, k: string)
    ensures KeysOf(Increment(t, k)) == if k in KeysOf(t) then KeysOf(t) else KeysOf(t) + [k]
  {
    var r := Increment(t, k);
    var want := if k in KeysOf(t) then KeysOf(t) else KeysOf(t) + [k];
    assert |KeysOf(r)| == |want|;
    forall i | 0 <= i < |want|
      ensures KeysOf(r)[i] == want[i]
    {
      if i < |t| {
        assert KeysOf(r)[i] == r[i].0 == t[i].0;
      } else {
        assert r == t + [(k, 1)];
      }
    }
  }

  /** The distinct elements of `s` in order of first appearance. */
  function Dedup(s: seq<string>): seq<string>
    decreases |s|
  {
    if |s| == 0 then []
    else
      var d := Dedup(s[..|s| - 1]);
      if s[|s| - 1] in d then d else d + [s[|s| - 1]]
  }

  /** An element is in the deduplicated list exactly when it is in the list. */
  lemma {:induction false} DedupKeeps(s: seq<string>, x: string)
    ensures x in Dedup(s) <==> x in s
    decreases |s|
  {
    if |s| > 0 {
      var prefix := s[..|s| - 1];
      DedupKeeps(prefix, x);
      assert s == prefix + [s[|s| - 1]];
    }
  }

  /** A chart's labels and values. */
  datatype Chart = Chart(labels: seq<string>, values: seq<nat>)

  /** The chart of a tally, or the given placeholder when there is nothing
      to count. */
  function ChartOf(t: Tally, defaultLabels: seq<string>, defaultValues: seq<nat>): (c: Chart)
    ensures |t| > 0 ==> (c.labels == KeysOf(t) && |c.values| == |t|
      && forall i :: 0 <= i < |t| ==> c.values[i] == t[i].1)
    ensures |t| == 0 ==> c == Chart(defaultLabels, defaultValues)
  {
    if |t| > 0 then Chart(KeysOf(t), Map((p: (string, nat)) => p.1, t))
    else Chart(defaultLabels, defaultValues)
  }

  /** The language chart: sessions per language (English when unset), or
      a placeholder distribution when there are no sessions. */
  function LanguageChart(ss: seq<Session>): (c: Chart)
    ensures |ss| == 0 ==> c == Chart(["English", "Portuguese", "French", "Spanish"], [45, 30, 15, 10])
    ensures |ss| > 0 ==> |c.labels| == |c.values| > 0
  {
    var t := TallyOf(Map(LanguageOf, ss));
    TallyNonEmpty(Map(LanguageOf, ss));
    ChartOf(t, ["English", "Portuguese", "French", "Spanish"], [45, 30, 15, 10])
  }

  /** The model chart: sessions per model (gpt-4o when unset), or a
      placeholder distribution when there are no sessions. */
  function ModelChart(ss: seq<Session>): (c: Chart)
    ensures |ss| == 0 ==> c == Chart(["GPT-4o", "GPT-4", "GPT-3.5-turbo"], [65, 25, 10])
    ensures |ss| > 0 ==> |c.labels| == |c.values| > 0
  {
    var t := TallyOf(Map(ModelOf, ss));
    TallyNonEmpty(Map(ModelOf, ss));
    ChartOf(t, ["GPT-4o", "GPT-4", "GPT-3.5-turbo"], [65, 25, 10])
  }

  /** Something to count gives a non-empty tally. */
  lemma TallyNonEmpty(keys: seq<string>)
    ensures |TallyOf(keys)| == 0 <==> |keys| == 0
  {
  }

  /** With sessions, the language chart's bars add up to the number of
      sessions and each bar counts the sessions in that language. */
  lemma LanguageChartCounts(ss: seq<Session>)
    requires |ss| > 0
    ensures var c := LanguageChart(ss);
      forall i :: 0 <= i < |c.labels| ==>
        c.values[i] == multiset(Map(LanguageOf, ss))[c.labels[i]] && c.values[i] > 0
  {
    var keys := Map(LanguageOf, ss);
    var t := TallyOf(keys);
    TallyNonEmpty(keys);
    forall i | 0 <= i < |t|
      ensures t[i].1 == multiset(keys)[t[i].0] && t[i].1 > 0
    {
      CountOfAt(t, i);
      assert t[i].0 in KeysOf(t);
      TallyKeysFirstSeen(keys);
      DedupKeeps(keys, t[i].0);
    }
  }

  /** With distinct keys, the count found for a key is the one at its position. */
  lemma CountOfAt(t: Tally, i: nat)
    requires DistinctKeys(t) && i < |t|
    ensures CountOf(t, t[i].0) == t[i].1
  {
    if i > 0 {
      assert forall j :: 1 <= j < |t| ==> t[j] == t[1..][j - 1];
      CountOfAt(t[1..], i - 1);
    }
  }

  // ----------------------------------------------------------------- table

  /** A date in the browser's locale; the locale is outside the model. */
  type LocaleDate = string -> string

  /** The cells of one line of the CSV export. */
  function CsvCells(s: Session, localeDate: LocaleDate): (r: seq<string>)
    ensures |r| == 8 && r[7] == "Completed"
  {
    [localeDate(s.date), OrText(s.company, "-"), OrText(s.position, "-"),
     NatToString(OrZero(s.duration)), NatToString(OrZero(s.questions)),
     LanguageOf(s), ModelOf(s), "Completed"]
  }

  /** The cells of one row of the sessions table: the CSV's cells, except
      that the duration is shown with its unit. */
  function TableCells(s: Session, localeDate: LocaleDate): (r: seq<string>)
    ensures |r| == 8
    ensures forall i :: 0 <= i < 8 && i != 3 ==> r[i] == CsvCells(s, localeDate)[i]
    ensures var parts := Split(r[3], ' ');
      && |parts| == 2 && parts[1] == "min"
      && parts[0] == CsvCells(s, localeDate)[3]
      && (forall i :: 0 <= i < |parts[0]| ==> IsDigit(parts[0][i]))
      && ParseDecimal(parts[0]) == OrZero(s.duration)
  {
    var csv := CsvCells(s, localeDate);
    var duration := csv[3] + " min";
    CountAndWord(OrZero(s.duration), "min");
    assert duration == NatToString(OrZero(s.duration)) + " " + "min";
    var r := csv[..3] + [duration] + csv[4..];
    assert r[3] == duration;
    r
  }

  /** `updateSessionsTable`: the ten most recent sessions, newest first, or
      the "no sessions" placeholder. */
  function SessionsTable(ss: seq<Session>, localeDate: LocaleDate): (r: Option<seq<seq<string>>>)
    ensures r.None? <==> |ss| == 0
    ensures r.Some? ==> (|r.value| == Min(10, |ss|)
      && forall d :: 0 <= d < |r.value| ==> r.value[d] == TableCells(ss[|ss| - 1 - d], localeDate))
  {
    if |ss| == 0 then None
    else
      var rows := RecentFirst(ss, 10);
      RecentFirstIndexes(ss, 10);
      Some(Map((row: Shown<Session>) => TableCells(row.item, localeDate), rows))
  }

  // -------------------------------------------------------------------- CSV

  const CsvHeader: string := "Date,Company,Position,Duration (min),Questions,Language,Model,Status"

  /** The text of one CSV line, without its line break. */
  function CsvLine(s: Session, localeDate: LocaleDate): string
  {
    Join(CsvCells(s, localeDate), ',')
  }

  function CsvBody(ss: seq<Session>, localeDate: LocaleDate): string
  {
    if |ss| == 0 then "" else CsvLine(ss[0], localeDate) + "\n" + CsvBody(ss[1..], localeDate)
  }

  /**
   * `exportToCSV`: nothing when there are no sessions; otherwise the
   * header line and one line per session, in stored order, each ended by a
   * line break.
   */
  function ExportCsv(ss: seq<Session>, localeDate: LocaleDate): (r: Option<string>)
    ensures r.None? <==> |ss| == 0
    ensures r.Some? ==> IsPrefix(CsvHeader + "\n", r.value) && r.value[|r.value| - 1] == '\n'
  {
    if |ss| == 0 then None
    else
      var body := CsvBody(ss, localeDate);
      var text := CsvHeader + "\n" + body;
      assert text[..|CsvHeader + "\n"|] == CsvHeader + "\n";
      assert body == CsvLine(ss[0], localeDate) + "\n" + CsvBody(ss[1..], localeDate);
      CsvBodyEnds(ss, localeDate);
      Some(text)
  }

  lemma CsvBodyEnds(ss: seq<Session>, localeDate: LocaleDate)
    requires |ss| > 0
    ensures var b := CsvBody(ss, localeDate); |b| > 0 && b[|b| - 1] == '\n'
  {
    if |ss| > 1 {
      CsvBodyEnds(ss[1..], localeDate);
    }
  }

  /** No cell of the session holds `c`. */
  predicate CellsFree(s: Session, localeDate: LocaleDate, c: char)
  {
    forall i :: 0 <= i < 8 ==> c !in CsvCells(s, localeDate)[i]
  }

  /** When no cell holds a line break, the export splits into the header,
      one line per session in order, and a final empty piece. */
  lemma {:induction false} CsvLines(ss: seq<Session>, localeDate: LocaleDate)
    requires forall k :: 0 <= k < |ss| ==> CellsFree(ss[k], localeDate, '\n')
    ensures Split(CsvBody(ss, localeDate), '\n') == Map((s: Session) => CsvLine(s, localeDate), ss) + [""]
    decreases |ss|
  {
    var line := (s: Session) => CsvLine(s, localeDate);
    if |ss| > 0 {
      CsvLines(ss[1..], localeDate);
      JoinFree(CsvCells(ss[0], localeDate), ',', '\n');
      SplitCons(CsvLine(ss[0], localeDate), '\n', CsvBody(ss[1..], localeDate));
      assert CsvBody(ss, localeDate) == CsvLine(ss[0], localeDate) + ['\n'] + CsvBody(ss[1..], localeDate);
      MapCons(line, ss);
    }
  }

  /** Joining pieces that avoid `c` with another separator avoids `c`. */
  lemma {:induction false} JoinFree(parts: seq<string>, sep: char, c: char)
    requires sep != c
    requires forall i :: 0 <= i < |parts| ==> c !in parts[i]
    ensures c !in Join(parts, sep)
    decreases |parts|
  {
    if |parts| > 1 {
      JoinFree(parts[1..], sep, c);
      assert Join(parts, sep) == parts[0] + [sep] + Join(parts[1..], sep);
    }
  }

  /** When no cell holds a comma, each line reads back as the eight cells. */
  lemma CsvLineFields(s: Session, localeDate: LocaleDate)
    requires CellsFree(s, localeDate, ',')
    ensures Split(CsvLine(s, localeDate), ',') == CsvCells(s, localeDate)
  {
    SplitJoin(CsvCells(s, localeDate), ',');
  }

  /** A company name with a comma shifts the columns: the line reads back
      as nine fields. */
  lemma CommaInCompany(localeDate: LocaleDate)
    requires ',' !in localeDate("2025-01-01")
    ensures var s := Session("2025-01-01", Some("Acme, Inc"), None, None, None, None, None, None);
      |Split(CsvLine(s, localeDate), ',')| == 9
  {
    var s := Session("2025-01-01", Some("Acme, Inc"), None, None, None, None, None, None);
    var cells := CsvCells(s, localeDate);
    var parts := [localeDate("2025-01-01"), "Acme", " Inc", "-", "0", "0", "English", "gpt-4o", "Completed"];
    assert NatToString(0) == "0";
    assert cells == [localeDate("2025-01-01"), "Acme, Inc", "-", "0", "0", "English", "gpt-4o", "Completed"];
    assert Join(cells, ',') == Join(parts, ',') by {
      JoinSplitsCell(cells, parts);
    }
    assert forall i :: 0 <= i < |parts| ==> ',' !in parts[i];
    SplitJoin(parts, ',');
  }

  /** Splitting the second cell at its comma leaves the joined text alone. */
  lemma JoinSplitsCell(cells: seq<string>, parts: seq<string>)
    requires |cells| == 8 && |parts| == 9
    requires parts[0] == cells[0] && cells[1] == parts[1] + "," + parts[2]
    requires parts[3..] == cells[2..]
    ensures Join(cells, ',') == Join(parts, ',')
  {
    var rest := Join(cells[2..], ',');
    assert cells[1..][1..] == cells[2..] && parts[2..][1..] == parts[3..] && parts[1..][1..] == parts[2..];
    var second := cells[1] + [','] + rest;
    assert Join(cells[1..], ',') == second;
    assert Join(parts[2..], ',') == parts[2] + [','] + rest;
    assert Join(parts[1..], ',') == parts[1] + [','] + (parts[2] + [','] + rest);
    assert second == parts[1] + [','] + (parts[2] + [','] + rest);
  }

  /** The name of the downloaded file: the date part of the ISO timestamp,
      that is everything before its first `T`. */
  function ExportFileName(isoNow: string): (r: string)
    ensures |r| >= 23 && IsPrefix("interview-sessions-", r) && r[|r| - 4..] == ".csv"
    ensures var date := r[19..|r| - 4];
      && 'T' !in date && IsPrefix(date, isoNow)
      && (|date| < |isoNow| ==> isoNow[|date|] == 'T')
  {
    var date := Split(isoNow, 'T')[0];
    var name := "interview-sessions-" + date + ".csv";
    SplitFirst(isoNow, 'T');
    assert name[..19] == "interview-sessions-";
    assert name[19..|name| - 4] == date;
    name
  }

  // -------------------------------------------------------------- recording

  /** What the interview page reports when a session ends. */
  datatype SessionInfo = SessionInfo(
    company: Option<string>, position: Option<string>, duration: Option<nat>, questions: Option<nat>,
    language: Option<string>, model: Option<string>, avgResponseTime: Option<real>)

  /** A session with every field filled in. */
  predicate Complete(s: Session)
  {
    && s.company.Some? && s.company.value != ""
    && s.position.Some? && s.position.value != ""
    && s.duration.Some? && s.questions.Some?
    && s.language.Some? && s.language.value != ""
    && s.model.Some? && s.model.value != ""
    && s.avgResponseTime.Some?
  }

  /**
   * `addSessionToAnalytics`: appends the session stamped with the current
   * time, every missing or falsy field replaced by its default.
   */
  function AddSession(ss: seq<Session>, info: SessionInfo, now: string): (r: seq<Session>)
    ensures |r| == |ss| + 1 && r[..|ss|] == ss
    ensures Complete(r[|ss|]) && r[|ss|].date == now
  {
    ss + [Session(now, Some(OrText(info.company, "-")), Some(OrText(info.position, "-")),
                  Some(OrZero(info.duration)), Some(OrZero(info.questions)),
                  Some(OrText(info.language, "English")), Some(OrText(info.model, "gpt-4o")),
                  Some(OrZeroReal(info.avgResponseTime)))]
  }

  /** Filling in the defaults when recording changes nothing that the
      table, the export or the charts show. */
  lemma RecordedShowsAsReported(ss: seq<Session>, info: SessionInfo, now: string, localeDate: LocaleDate)
    ensures var s := AddSession(ss, info, now)[|ss|];
      var raw := Session(now, info.company, info.position, info.duration, info.questions,
                         info.language, info.model, info.avgResponseTime);
      CsvCells(s, localeDate) == CsvCells(raw, localeDate)
      && TableCells(s, localeDate) == TableCells(raw, localeDate)
      && LanguageOf(s) == LanguageOf(raw) && ModelOf(s) == ModelOf(raw)
  {
  }
}
