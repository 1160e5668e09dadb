/**
 * `GameState::parse_sm_file` and its helpers: scalar tags, the `#BPMS` and
 * `#STOPS` maps, the grouping of note lines into rows, measures and
 * difficulties, and the emission of `Arrow` records from the note grid.
 */
module Chart {
  import opened Wrappers
  import opened Text
  import opened Timing

  /**
   * One note of a chart. `hitTime` is when it should be hit (the start of a
   * hold), `spawnTime` when it appears, `endTime` the end of a hold (0 for a tap).
   */
  datatype Arrow = Arrow(lane: nat, hitTime: real, spawnTime: real, long: bool, endTime: real)

  /** What `parse_sm_file` returns. */
  datatype Parsed = Parsed(
    allArrows: seq<seq<Arrow>>,
    difficulties: seq<string>,
    song: string,
    artist: string,
    title: string,
    bg: string,
    sampleStart: real,
    sampleLen: real)

  // ---------------------------------------------------------------------
  // Scalar tags

  /** The untrimmed text between the first `tag` and the next `;`. */
  function TagText(contents: string, tag: string): (r: Option<string>)
    ensures r.Some? ==> Find(contents, tag).Some? && ';' !in r.value
  {
    match Find(contents, tag)
    case None => None
    case Some(start) =>
      var rest := contents[start + |tag|..];
      FindChar(rest, ';');
      match Find(rest, ";")
      case None => None
      case Some(end) => Some(rest[..end])
  }

  /**
   * `parse_tag_value`: the trimmed text between the first occurrence of
   * `tag` and the next `;`; nothing when the tag is missing or no `;` follows.
   */
  function ParseTagValue(contents: string, tag: string): (r: Option<string>)
    ensures r.Some? ==> Find(contents, tag).Some? && ';' !in r.value
    ensures r.Some? ==> r.value == [] || (!IsWhitespace(r.value[0]) && !IsWhitespace(r.value[|r.value| - 1]))
  {
    match TagText(contents, tag)
    case Some(text) =>
      TrimWithin(text);
      Some(Trim(text))
    case None => None
  }

  /** `tag` first occurs at `i` and the first `;` after it is at `j`. */
  predicate Declaration(contents: string, tag: string, i: nat, j: nat) {
    FirstAt(contents, tag, i) && i + |tag| <= j < |contents| && contents[j] == ';'
    && ';' !in contents[i + |tag|..j]
  }

  lemma FirstAtUnique(s: string, pat: string, i: nat, k: nat)
    requires FirstAt(s, pat, i) && FirstAt(s, pat, k)
    ensures i == k
  {
  }

  /** The value of a declared tag is the trimmed text up to its first `;`. */
  lemma TagValueOfDeclaration(contents: string, tag: string, i: nat, j: nat)
    requires Declaration(contents, tag, i, j)
    ensures ParseTagValue(contents, tag) == Some(Trim(contents[i + |tag|..j]))
  {
    FirstAtUnique(contents, tag, i, Find(contents, tag).value);
    var rest := contents[i + |tag|..];
    var k := j - i - |tag|;
    assert rest[..k] == contents[i + |tag|..j];
    FindChar(rest, ';');
    assert Find(rest, ";") == Some(k);
    assert TagText(contents, tag) == Some(rest[..k]);
  }

  /** The untrimmed text is missing exactly when no `;` follows the tag's first occurrence. */
  lemma TagTextAbsent(contents: string, tag: string)
    ensures TagText(contents, tag).None?
        <==> forall i: nat :: FirstAt(contents, tag, i) ==> ';' !in contents[i + |tag|..]
  {
    match Find(contents, tag)
    case None =>
    case Some(start) =>
      var rest := contents[start + |tag|..];
      FindChar(rest, ';');
      assert TagText(contents, tag).None? <==> ';' !in rest;
      forall i: nat | FirstAt(contents, tag, i) ensures i == start {
        FirstAtUnique(contents, tag, i, start);
      }
  }

  /** A tag that is missing, or has no `;` after it, has no value. */
  lemma TagValueAbsent(contents: string, tag: string)
    ensures ParseTagValue(contents, tag).None?
        <==> forall i: nat :: FirstAt(contents, tag, i) ==> ';' !in contents[i + |tag|..]
  {
    TagTextAbsent(contents, tag);
  }

  /** A numeric tag: its parsed value, or 0.0 when it is missing or does not parse. */
  function NumberTag(contents: string, tag: string): real {
    match ParseTagValue(contents, tag)
    case Some(text) => ParseReal(text).GetOr(0.0)
    case None => 0.0
  }

  /** `#OFFSET` is always used as its absolute value. */
  function Offset(contents: string): (r: real)
    ensures r >= 0.0
    ensures r == NumberTag(contents, "#OFFSET:") || r == -NumberTag(contents, "#OFFSET:")
  {
    var v := NumberTag(contents, "#OFFSET:");
    if v < 0.0 then -v else v
  }

  // ---------------------------------------------------------------------
  // `#BPMS` and `#STOPS`

  /** Slicing one character past the marker stays inside the text. */
  predicate DeclarationInBounds(contents: string, marker: string) {
    match Find(contents, marker)
    case None => true
    case Some(i) => i + |marker| + 1 <= |contents|
  }

  /**
   * The comma-separated entries after the first `marker` and the character
   * after it, up to the next `;`, with newlines removed.
   */
  function DeclarationEntries(contents: string, marker: string): (entries: seq<string>)
    requires DeclarationInBounds(contents, marker)
    ensures Find(contents, marker).None? ==> entries == []
    ensures Find(contents, marker).Some? ==> |entries| >= 1
    ensures forall e :: e in entries ==> ',' !in e && '\n' !in e && ';' !in e
  {
    match Find(contents, marker)
    case None => []
    case Some(i) =>
      var declaration := Split(contents[i + |marker| + 1..], ';')[0];
      var joined := Remove(declaration, '\n');
      RemoveWithin(declaration, '\n');
      SplitWithin(joined, ',');
      Split(joined, ',')
  }

  /**
   * One `beat=value` entry: both sides must parse (only the text before the
   * second `=`, if any, is read); `trimValue` trims the value first.
   */
  function ParseEntry(entry: string, trimValue: bool): (r: Option<(real, real)>)
    ensures '=' !in entry ==> r.None?
  {
    var parts := Split(entry, '=');
    if |parts| <= 1 then None
    else
      match (ParseReal(parts[0]), ParseReal(if trimValue then Trim(parts[1]) else parts[1]))
      case (Some(beat), Some(value)) => Some((beat, value))
      case _ => None
  }

  /** An entry `beat=value` splits into exactly its two sides. */
  lemma EntrySides(beatText: string, valueText: string)
    requires '=' !in beatText && '=' !in valueText
    ensures Split(beatText + "=" + valueText, '=') == [beatText, valueText]
  {
    SplitJoin([beatText, valueText], '=');
    assert [beatText, valueText][1..] == [valueText];
  }

  /**
   * `#STOPS` entries (`trimValue`) read their value trimmed and `#BPMS`
   * entries do not: a `#BPMS` value with white space in it is skipped.
   */
  lemma TrimOnlyForStops(beatText: string, valueText: string)
    requires '=' !in beatText && '=' !in valueText
    ensures ParseEntry(beatText + "=" + valueText, true)
         == ParseEntry(beatText + "=" + Trim(valueText), false)
    ensures ' ' in valueText ==> ParseEntry(beatText + "=" + valueText, false) == None
  {
    TrimWithin(valueText);
    ParseRealChars(valueText);
    EntrySides(beatText, valueText);
    EntrySides(beatText, Trim(valueText));
  }

  /** The map built by inserting every parsed entry in order, skipping the malformed ones. */
  function InsertAll(parsed: seq<Option<(real, real)>>): (m: Schedule)
    ensures Ascending(m)
  {
    if parsed == [] then []
    else
      var m := InsertAll(parsed[..|parsed| - 1]);
      match parsed[|parsed| - 1]
      case Some((beat, value)) => Insert(m, beat, value)
      case None => m
  }

  function ParseEntries(entries: seq<string>, trimValue: bool): (parsed: seq<Option<(real, real)>>)
    ensures |parsed| == |entries|
  {
    seq(|entries|, i requires 0 <= i < |entries| => ParseEntry(entries[i], trimValue))
  }

  function ScheduleOf(entries: seq<string>, trimValue: bool): Schedule {
    InsertAll(ParseEntries(entries, trimValue))
  }

  predicate Declares(entry: Option<(real, real)>, beat: real) {
    entry.Some? && entry.value.0 == beat
  }

  /** Adding one entry either sets its beat or leaves every lookup as it was. */
  lemma InsertAllStep(parsed: seq<Option<(real, real)>>, beat: real)
    requires parsed != []
    ensures var n := |parsed| - 1;
      Lookup(InsertAll(parsed), beat)
      == if Declares(parsed[n], beat) then Some(parsed[n].value.1) else Lookup(InsertAll(parsed[..n]), beat)
  {
  }

  /** A beat is in the map exactly when some well-formed entry declares it. */
  lemma {:induction false} DeclaredBeatsOnly(parsed: seq<Option<(real, real)>>, beat: real)
    ensures Lookup(InsertAll(parsed), beat).None? <==> forall i :: 0 <= i < |parsed| ==> !Declares(parsed[i], beat)
  {
    if parsed != [] {
      var n := |parsed| - 1;
      var init := parsed[..n];
      InsertAllStep(parsed, beat);
      DeclaredBeatsOnly(init, beat);
      assert forall i :: 0 <= i < n ==> init[i] == parsed[i];
    }
  }

  /** A declared beat maps to the value of the last entry that declares it. */
  lemma {:induction false} LastDeclarationWins(parsed: seq<Option<(real, real)>>, beat: real, i: nat)
    requires i < |parsed| && Declares(parsed[i], beat)
    requires forall j :: i < j < |parsed| ==> !Declares(parsed[j], beat)
    ensures Lookup(InsertAll(parsed), beat) == Some(parsed[i].value.1)
  {
    var n := |parsed| - 1;
    InsertAllStep(parsed, beat);
    if i < n {
      var init := parsed[..n];
      assert forall j :: 0 <= j < n ==> init[j] == parsed[j];
      LastDeclarationWins(init, beat, i);
    }
  }

  /** The entry loop of the source for one map. */
  method BuildSchedule(entries: seq<string>, trimValue: bool) returns (m: Schedule)
    ensures m == ScheduleOf(entries, trimValue)
  {
    ghost var parsed := ParseEntries(entries, trimValue);
    m := [];
    for i := 0 to |entries|
      invariant m == InsertAll(parsed[..i])
    {
      assert parsed[..i + 1][..i] == parsed[..i];
      var parts := Split(entries[i], '=');
      if |parts| <= 1 {
        continue;
      }
      var beat := ParseReal(parts[0]);
      var value := ParseReal(if trimValue then Trim(parts[1]) else parts[1]);
      if beat.Some? && value.Some? {
        m := Insert(m, beat.value, value.value);
      }
    }
    assert parsed[..|entries|] == parsed;
  }

  /** The tempo map: `#BPMS` entries, values not trimmed. */
  function TempoOf(contents: string): Schedule
    requires DeclarationInBounds(contents, "#BPMS")
  {
    ScheduleOf(DeclarationEntries(contents, "#BPMS"), false)
  }

  /** The pause map: `#STOPS` entries, values trimmed. */
  function StopsOf(contents: string): Schedule
    requires DeclarationInBounds(contents, "#STOPS")
  {
    ScheduleOf(DeclarationEntries(contents, "#STOPS"), true)
  }

  /** The maps and offset that every `beat_to_time` call of one chart receives. */
  datatype TimingMaps = TimingMaps(tempo: Schedule, offset: real, stops: Schedule) {
    predicate Valid() { NonZeroTempo(tempo) }

    function TimeOf(beat: real): real
      requires Valid()
    {
      BeatTime(beat, tempo, offset, stops)
    }
  }

  // ---------------------------------------------------------------------
  // Grouping lines into rows, measures and difficulties

  /** Every character is a note code `0`, `1`, `2` or `3`. */
  predicate AllNoteCodes(text: string) {
    forall i :: 0 <= i < |text| ==> text[i] in "0123"
  }

  /** A note row: a non-empty text of note codes. */
  predicate IsRow(text: string) {
    text != [] && AllNoteCodes(text)
  }

  /** A note row starts with a note code, so it is neither a `#NOTES` line nor a separator. */
  lemma RowStartsWithCode(line: string)
    ensures IsRow(line) ==> !StartsWith(line, "#NOTES") && !StartsWith(line, ",")
  {
    if IsRow(line) {
      assert line[0] in "0123";
      if |line| >= 6 {
        assert line[..6][0] == line[0];
      }
      assert line[..1][0] == line[0];
    }
  }

  /** A line of the file as the line loop sees it, after `trim`. */
  datatype Line = NotesLine | Separator(text: string) | RowLine(text: string) | OtherLine(text: string)

  /** The tests of the line loop, in the order the loop makes them. */
  function Classify(raw: string): (l: Line)
    ensures l.RowLine? ==> IsRow(l.text)
  {
    var line := Trim(raw);
    if StartsWith(line, "#NOTES") then NotesLine
    else if StartsWith(line, ",") then Separator(line)
    else if IsRow(line) then RowLine(line)
    else OtherLine(line)
  }

  /**
   * The classification is exact: a trimmed line starting with `#NOTES` is a
   * `#NOTES` line, one starting with `,` a separator, and every other trimmed
   * line made only of note codes a note row; each keeps its trimmed text.
   */
  lemma ClassifyExact(raw: string)
    ensures Classify(raw).NotesLine? <==> StartsWith(Trim(raw), "#NOTES")
    ensures Classify(raw).Separator? <==> StartsWith(Trim(raw), ",")
    ensures Classify(raw).RowLine? <==> IsRow(Trim(raw))
    ensures !Classify(raw).NotesLine? ==> Classify(raw).text == Trim(raw)
  {
    RowStartsWithCode(Trim(raw));
  }

  function ClassifyAll(lines: seq<string>): (ls: seq<Line>)
    ensures |ls| == |lines|
  {
    seq(|lines|, i requires 0 <= i < |lines| => Classify(lines[i]))
  }

  /** The scanner's state: the flags, counter and buffers of the line loop. */
  datatype Scan = Scan(
    parsing: bool,
    sinceNotes: nat,
    measure: seq<string>,
    difficulty: seq<seq<string>>,
    measures: seq<seq<seq<string>>>,
    labels: seq<string>)

  const StartScan := Scan(false, 0, [], [], [], [])

  /** One iteration of the line loop. */
  function ScanLine(s: Scan, l: Line): Scan {
    if l.NotesLine? then
      var flushed := if s.difficulty != [] then s.(measures := s.measures + [s.difficulty], difficulty := []) else s;
      flushed.(sinceNotes := 0, parsing := true)
    else if !s.parsing then s
    else
      var since := s.sinceNotes + 1;
      var labelled := s.(sinceNotes := since,
                         labels := if since == 3 then s.labels + [TrimEndMatches(l.text, ':')] else s.labels);
      if l.Separator? then
        if s.measure != [] then labelled.(difficulty := s.difficulty + [s.measure], measure := []) else labelled
      else if l.RowLine? then labelled.(measure := s.measure + [l.text])
      else labelled
  }

  function ScanAll(ls: seq<Line>): Scan {
    if ls == [] then StartScan else ScanLine(ScanAll(ls[..|ls| - 1]), ls[|ls| - 1])
  }

  /** The flush after the loop: the open measure, then the open difficulty. */
  function Flush(s: Scan): seq<seq<seq<string>>> {
    var difficulty := if s.measure != [] then s.difficulty + [s.measure] else s.difficulty;
    if difficulty != [] then s.measures + [difficulty] else s.measures
  }

  /** The difficulties' measures and the labels the line loop produces for `ls`. */
  function Grouped(ls: seq<Line>): (seq<seq<seq<string>>>, seq<string>) {
    (Flush(ScanAll(ls)), ScanAll(ls).labels)
  }

  /** The line loop of `parse_sm_file` and the flush after it. */
  method GroupLines(lines: seq<string>) returns (measures: seq<seq<seq<string>>>, difficulties: seq<string>)
    ensures (measures, difficulties) == Grouped(ClassifyAll(lines))
  {
    ghost var ls := ClassifyAll(lines);
    var parsing := false;
    var linesSinceNotes: nat := 0;
    var currentMeasure: seq<string> := [];
    var currentMeasureDifficulty: seq<seq<string>> := [];
    measures, difficulties := [], [];
    for k := 0 to |lines|
      invariant Scan(parsing, linesSinceNotes, currentMeasure, currentMeasureDifficulty, measures, difficulties)
             == ScanAll(ls[..k])
    {
      assert ls[..k + 1][..k] == ls[..k];
      assert ScanAll(ls[..k + 1]) == ScanLine(ScanAll(ls[..k]), ls[k]);
      var line := Trim(lines[k]);
      if StartsWith(line, "#NOTES") {
        linesSinceNotes := 0;
        parsing := true;
        if currentMeasureDifficulty != [] {
          measures := measures + [currentMeasureDifficulty];
          currentMeasureDifficulty := [];
        }
      } else {
        if !parsing {
          continue;
        }
        linesSinceNotes := linesSinceNotes + 1;
        if linesSinceNotes == 3 {
          difficulties := difficulties + [TrimEndMatches(line, ':')];
        }
        if StartsWith(line, ",") {
          if currentMeasure != [] {
            currentMeasureDifficulty := currentMeasureDifficulty + [currentMeasure];
            currentMeasure := [];
          }
        } else if line != [] {
          if AllNoteCodes(line) {
            currentMeasure := currentMeasure + [line];
          }
        }
      }
    }
    assert ls[..|lines|] == ls;
    if currentMeasure != [] {
      currentMeasureDifficulty := currentMeasureDifficulty + [currentMeasure];
    }
    if currentMeasureDifficulty != [] {
      measures := measures + [currentMeasureDifficulty];
    }
  }

  // ---------------------------------------------------------------------
  // What the grouping computes, stated line by line

  /** Some line of `ls` is a `#NOTES` line. */
  predicate NotesSeen(ls: seq<Line>) {
    ls != [] && (ls[|ls| - 1].NotesLine? || NotesSeen(ls[..|ls| - 1]))
  }

  /** How many lines follow the last `#NOTES` line. */
  function SinceNotes(ls: seq<Line>): nat {
    if ls == [] || ls[|ls| - 1].NotesLine? then 0 else SinceNotes(ls[..|ls| - 1]) + 1
  }

  /** The rows of the file: every note row after the first `#NOTES` line, in file order. */
  function RowLines(ls: seq<Line>): seq<string> {
    if ls == [] then []
    else
      var n := |ls| - 1;
      RowLines(ls[..n]) + (if NotesSeen(ls[..n]) && ls[n].RowLine? then [ls[n].text] else [])
  }

  /** Line `j` is the third line after a `#NOTES` line, with no `#NOTES` line in between. */
  predicate LabelAt(ls: seq<Line>, j: int) {
    3 <= j < |ls| && ls[j - 3].NotesLine?
    && !ls[j - 2].NotesLine? && !ls[j - 1].NotesLine? && !ls[j].NotesLine?
  }

  /** The difficulty labels: each label line stripped of trailing `:`, in file order. */
  function LabelLines(ls: seq<Line>): seq<string> {
    if ls == [] then []
    else
      var n := |ls| - 1;
      LabelLines(ls[..n]) + (if LabelAt(ls, n) then [TrimEndMatches(ls[n].text, ':')] else [])
  }

  /**
   * The rows read since the last separator line: the measure still open after
   * `ls`. A `#NOTES` line does not close it.
   */
  function OpenRun(ls: seq<Line>): seq<string> {
    if ls == [] then []
    else
      var n := |ls| - 1;
      if !NotesSeen(ls[..n]) || ls[n].Separator? then []
      else if ls[n].RowLine? then OpenRun(ls[..n]) + [ls[n].text]
      else OpenRun(ls[..n])
  }

  /** The measures closed by separator lines after the first `#NOTES` line, empty runs dropped. */
  function ClosedRuns(ls: seq<Line>): seq<seq<string>> {
    if ls == [] then []
    else
      var n := |ls| - 1;
      ClosedRuns(ls[..n])
      + (if NotesSeen(ls[..n]) && ls[n].Separator? && OpenRun(ls[..n]) != [] then [OpenRun(ls[..n])] else [])
  }

  /**
   * Every measure of the file, in order: the note rows after the first
   * `#NOTES` line cut at separator lines, with empty runs dropped and the open
   * run at the end of the file kept. `#NOTES` lines cut nothing.
   */
  function MeasuresOf(ls: seq<Line>): seq<seq<string>> {
    ClosedRuns(ls) + (if OpenRun(ls) != [] then [OpenRun(ls)] else [])
  }

  /**
   * The measures closed by separator lines since the last `#NOTES` line: the
   * part of `ClosedRuns` that belongs to the chart still being read. Rows left
   * open at a `#NOTES` line are closed by the next separator, so they land here,
   * in the next chart.
   */
  function ClosedSince(ls: seq<Line>): seq<seq<string>> {
    if ls == [] then []
    else
      var n := |ls| - 1;
      if ls[n].NotesLine? then []
      else
        ClosedSince(ls[..n])
        + (if NotesSeen(ls[..n]) && ls[n].Separator? && OpenRun(ls[..n]) != [] then [OpenRun(ls[..n])] else [])
  }

  /** The charts ended by `#NOTES` lines: each one's closed measures, charts without any dropped. */
  function ClosedCharts(ls: seq<Line>): seq<seq<seq<string>>> {
    if ls == [] then []
    else
      var n := |ls| - 1;
      ClosedCharts(ls[..n]) + (if ls[n].NotesLine? && ClosedSince(ls[..n]) != [] then [ClosedSince(ls[..n])] else [])
  }

  /**
   * The file's charts, in order: each `#NOTES` block holds the measures closed
   * by separators inside it, the last block also takes the run still open at
   * the end of the file, and blocks without measures are dropped.
   */
  function DifficultiesOf(ls: seq<Line>): seq<seq<seq<string>>> {
    var last := ClosedSince(ls) + (if OpenRun(ls) != [] then [OpenRun(ls)] else []);
    ClosedCharts(ls) + (if last != [] then [last] else [])
  }

  function Flatten<T>(ss: seq<seq<T>>): seq<T> {
    if ss == [] then [] else Flatten(ss[..|ss| - 1]) + ss[|ss| - 1]
  }

  /** Every row of every measure of every difficulty, in order. */
  function AllRows(ds: seq<seq<seq<string>>>): seq<string> {
    if ds == [] then [] else AllRows(ds[..|ds| - 1]) + Flatten(ds[|ds| - 1])
  }

  predicate GoodMeasure(m: seq<string>) {
    m != [] && forall r :: r in m ==> IsRow(r)
  }

  predicate GoodDifficulty(d: seq<seq<string>>) {
    d != [] && forall m :: m in d ==> GoodMeasure(m)
  }

  lemma SinceStep(ls: seq<Line>)
    requires ls != [] && !ls[|ls| - 1].NotesLine?
    ensures SinceNotes(ls) == SinceNotes(ls[..|ls| - 1]) + 1
    ensures NotesSeen(ls) == NotesSeen(ls[..|ls| - 1])
  {
  }

  lemma {:induction false} SinceBound(ls: seq<Line>)
    ensures NotesSeen(ls) ==> SinceNotes(ls) < |ls|
  {
    if ls != [] && !ls[|ls| - 1].NotesLine? {
      SinceBound(ls[..|ls| - 1]);
    }
  }

  /** Two lines after the last `#NOTES` line: the next line is a label line. */
  lemma SinceTwo(ls: seq<Line>)
    ensures (NotesSeen(ls) && SinceNotes(ls) == 2)
        <==> (|ls| >= 3 && ls[|ls| - 3].NotesLine? && !ls[|ls| - 2].NotesLine? && !ls[|ls| - 1].NotesLine?)
  {
    SinceBound(ls);
    var n := |ls|;
    if n >= 3 {
      var a := ls[..n - 1];
      var b := ls[..n - 2];
      assert a[..n - 2] == b && a[n - 2] == ls[n - 2] && b[n - 3] == ls[n - 3];
      if !ls[n - 1].NotesLine? {
        SinceStep(ls);
        if !ls[n - 2].NotesLine? {
          SinceStep(a);
          if !ls[n - 3].NotesLine? {
            SinceStep(b);
          }
        }
      }
    }
  }

  /** What the line loop keeps true after every line. */
  predicate ScanFaithful(s: Scan, ls: seq<Line>) {
    && s.parsing == NotesSeen(ls)
    && (s.parsing ==> s.sinceNotes == SinceNotes(ls))
    && s.labels == LabelLines(ls)
    && AllRows(s.measures) + Flatten(s.difficulty) + s.measure == RowLines(ls)
    && Flatten(s.measures) + s.difficulty == ClosedRuns(ls)
    && s.measure == OpenRun(ls)
    && s.difficulty == ClosedSince(ls)
    && s.measures == ClosedCharts(ls)
    && (forall d :: d in s.measures ==> GoodDifficulty(d))
    && (forall m :: m in s.difficulty ==> GoodMeasure(m))
    && (forall r :: r in s.measure ==> IsRow(r))
  }

  lemma ScanLineCounters(s: Scan, ls: seq<Line>, l: Line)
    requires ScanFaithful(s, ls)
    requires l.RowLine? ==> IsRow(l.text)
    ensures var t := ScanLine(s, l);
      && t.parsing == NotesSeen(ls + [l])
      && (t.parsing ==> t.sinceNotes == SinceNotes(ls + [l]))
      && t.labels == LabelLines(ls + [l])
  {
    var all := ls + [l];
    assert all[..|ls|] == ls;
    SinceTwo(ls);
  }

  lemma ScanLineRows(s: Scan, ls: seq<Line>, l: Line)
    requires s.parsing == NotesSeen(ls)
    requires AllRows(s.measures) + Flatten(s.difficulty) + s.measure == RowLines(ls)
    ensures var t := ScanLine(s, l);
      AllRows(t.measures) + Flatten(t.difficulty) + t.measure == RowLines(ls + [l])
  {
    var all := ls + [l];
    assert all[..|ls|] == ls;
    assert RowLines(all) == RowLines(ls) + if s.parsing && l.RowLine? then [l.text] else [];
    if l.NotesLine? {
      if s.difficulty != [] {
        assert (s.measures + [s.difficulty])[..|s.measures|] == s.measures;
      }
    } else if s.parsing && l.Separator? && s.measure != [] {
      assert (s.difficulty + [s.measure])[..|s.difficulty|] == s.difficulty;
    }
  }

  lemma ScanLineMeasures(s: Scan, ls: seq<Line>, l: Line)
    requires s.parsing == NotesSeen(ls)
    requires Flatten(s.measures) + s.difficulty == ClosedRuns(ls)
    requires s.measure == OpenRun(ls)
    ensures var t := ScanLine(s, l);
      Flatten(t.measures) + t.difficulty == ClosedRuns(ls + [l]) && t.measure == OpenRun(ls + [l])
  {
    var all := ls + [l];
    assert all[..|ls|] == ls;
    if l.NotesLine? && s.difficulty != [] {
      assert (s.measures + [s.difficulty])[..|s.measures|] == s.measures;
    }
  }

  lemma ScanLineCharts(s: Scan, ls: seq<Line>, l: Line)
    requires s.parsing == NotesSeen(ls)
    requires s.measure == OpenRun(ls)
    requires s.difficulty == ClosedSince(ls) && s.measures == ClosedCharts(ls)
    ensures var t := ScanLine(s, l);
      t.difficulty == ClosedSince(ls + [l]) && t.measures == ClosedCharts(ls + [l])
  {
    var all := ls + [l];
    assert all[..|ls|] == ls;
  }

  lemma ScanLineShape(s: Scan, ls: seq<Line>, l: Line)
    requires ScanFaithful(s, ls)
    requires l.RowLine? ==> IsRow(l.text)
    ensures var t := ScanLine(s, l);
      && (forall d :: d in t.measures ==> GoodDifficulty(d))
      && (forall m :: m in t.difficulty ==> GoodMeasure(m))
      && (forall r :: r in t.measure ==> IsRow(r))
  {
  }

  /** Every line classified as a note row holds only `0`-`3`. */
  predicate RowsAreRows(ls: seq<Line>) {
    forall i :: 0 <= i < |ls| && ls[i].RowLine? ==> IsRow(ls[i].text)
  }

  lemma {:induction false} ScanFaithfulAll(ls: seq<Line>)
    requires RowsAreRows(ls)
    ensures ScanFaithful(ScanAll(ls), ls)
  {
    if ls != [] {
      var n := |ls| - 1;
      assert RowsAreRows(ls[..n]);
      ScanFaithfulAll(ls[..n]);
      ScanLineFaithful(ScanAll(ls[..n]), ls[..n], ls[n]);
      assert ls[..n] + [ls[n]] == ls;
    }
  }

  /** One step of the line loop keeps `ScanFaithful`. */
  lemma ScanLineFaithful(s: Scan, ls: seq<Line>, l: Line)
    requires ScanFaithful(s, ls)
    requires l.RowLine? ==> IsRow(l.text)
    ensures ScanFaithful(ScanLine(s, l), ls + [l])
  {
    ScanLineCounters(s, ls, l);
    ScanLineRows(s, ls, l);
    ScanLineShape(s, ls, l);
    ScanLineMeasures(s, ls, l);
    ScanLineCharts(s, ls, l);
  }

  lemma FlushRows(s: Scan, ls: seq<Line>)
    requires AllRows(s.measures) + Flatten(s.difficulty) + s.measure == RowLines(ls)
    ensures AllRows(Flush(s)) == RowLines(ls)
  {
    if s.measure != [] {
      assert (s.difficulty + [s.measure])[..|s.difficulty|] == s.difficulty;
    }
    var d := if s.measure != [] then s.difficulty + [s.measure] else s.difficulty;
    if d != [] {
      assert (s.measures + [d])[..|s.measures|] == s.measures;
    }
  }

  lemma FlushMeasures(s: Scan, ls: seq<Line>)
    requires Flatten(s.measures) + s.difficulty == ClosedRuns(ls) && s.measure == OpenRun(ls)
    ensures Flatten(Flush(s)) == MeasuresOf(ls)
  {
    if s.measure != [] {
      assert (s.difficulty + [s.measure])[..|s.difficulty|] == s.difficulty;
    }
    var d := if s.measure != [] then s.difficulty + [s.measure] else s.difficulty;
    if d != [] {
      assert (s.measures + [d])[..|s.measures|] == s.measures;
    }
  }

  lemma FlushCharts(s: Scan, ls: seq<Line>)
    requires s.measure == OpenRun(ls) && s.difficulty == ClosedSince(ls) && s.measures == ClosedCharts(ls)
    ensures Flush(s) == DifficultiesOf(ls)
  {
    var d := if s.measure != [] then s.difficulty + [s.measure] else s.difficulty;
    assert d == ClosedSince(ls) + (if OpenRun(ls) != [] then [OpenRun(ls)] else []);
  }

  lemma FlushFaithful(s: Scan, ls: seq<Line>)
    requires ScanFaithful(s, ls)
    ensures AllRows(Flush(s)) == RowLines(ls)
    ensures forall d :: d in Flush(s) ==> GoodDifficulty(d)
    ensures Flatten(Flush(s)) == MeasuresOf(ls)
    ensures Flush(s) == DifficultiesOf(ls)
  {
    FlushRows(s, ls);
    FlushMeasures(s, ls);
    FlushCharts(s, ls);
  }

  /**
   * The grouping of a file: its rows, in order, are exactly the note rows after
   * the first `#NOTES` line; its measures, across all difficulties, are those
   * rows cut at separator lines only; its difficulties are the `#NOTES`
   * blocks of `DifficultiesOf`, so rows open at a `#NOTES` line go to the next
   * chart; every difficulty and measure is non-empty and holds only note rows;
   * the labels are the label lines.
   */
  lemma GroupingFacts(lines: seq<string>)
    ensures AllRows(Grouped(ClassifyAll(lines)).0) == RowLines(ClassifyAll(lines))
    ensures Flatten(Grouped(ClassifyAll(lines)).0) == MeasuresOf(ClassifyAll(lines))
    ensures Grouped(ClassifyAll(lines)).0 == DifficultiesOf(ClassifyAll(lines))
    ensures forall d :: d in Grouped(ClassifyAll(lines)).0 ==> GoodDifficulty(d)
    ensures Grouped(ClassifyAll(lines)).1 == LabelLines(ClassifyAll(lines))
  {
    var ls := ClassifyAll(lines);
    assert RowsAreRows(ls);
    ScanFaithfulAll(ls);
    FlushFaithful(ScanAll(ls), ls);
  }

  /** `ScanAll` on a prefix is one more `ScanLine` than on the prefix one line shorter. */
  lemma ScanAllStep(ls: seq<Line>, n: nat)
    requires 0 < n <= |ls|
    ensures ScanAll(ls[..n]) == ScanLine(ScanAll(ls[..n - 1]), ls[n - 1])
  {
    assert ls[..n][..n - 1] == ls[..n - 1];
  }

  /** The first chart of `CarryExample`: its last rows are still open at the next `#NOTES` line. */
  lemma CarryFirstChart()
    ensures ScanAll(CarryExample[..5]) == Scan(true, 4, ["0100"], [["1000"]], [], ["0100"])
  {
    var ls := CarryExample;
    assert ls[..0] == [];
    ScanAllStep(ls, 1);
    assert ScanAll(ls[..1]) == Scan(true, 0, [], [], [], []);
    ScanAllStep(ls, 2);
    assert ScanAll(ls[..2]) == Scan(true, 1, ["1000"], [], [], []);
    ScanAllStep(ls, 3);
    assert ScanAll(ls[..3]) == Scan(true, 2, [], [["1000"]], [], []);
    ScanAllStep(ls, 4);
    assert ScanAll(ls[..4]) == Scan(true, 3, ["0100"], [["1000"]], [], ["0100"]);
    ScanAllStep(ls, 5);
  }

  /**
   * Rows still open when the next `#NOTES` line arrives are not closed: the
   * last measure of one chart, ended by `;` rather than `,`, opens the next
   * chart's first measure.
   */
  lemma OpenRowsCarryOver()
    ensures Grouped(CarryExample).0 == [[["1000"]], [["0100", "0010"]]]
  {
    var ls := CarryExample;
    CarryFirstChart();
    ScanAllStep(ls, 6);
    assert ScanAll(ls[..6]) == Scan(true, 0, ["0100"], [], [[["1000"]]], ["0100"]);
    ScanAllStep(ls, 7);
    assert ls[..7] == ls;
    var last := Scan(true, 1, ["0100", "0010"], [], [[["1000"]]], ["0100"]);
    assert ScanAll(ls) == last;
    assert Flush(last) == [[["1000"]]] + [[] + [["0100", "0010"]]];
    assert [] + [["0100", "0010"]] == [["0100", "0010"]];
  }

  /** The reference grouping agrees: the row open at the second `#NOTES` line opens the second chart. */
  lemma CarryExampleCharts()
    ensures DifficultiesOf(CarryExample) == [[["1000"]], [["0100", "0010"]]]
  {
    var ls := CarryExample;
    assert IsRow("1000") && IsRow("0100") && IsRow("0010");
    assert RowsAreRows(ls);
    ScanFaithfulAll(ls);
    FlushFaithful(ScanAll(ls), ls);
    OpenRowsCarryOver();
  }

  const CarryExample := [NotesLine, RowLine("1000"), Separator(","), RowLine("0100"), OtherLine(";"),
                         NotesLine, RowLine("0010")]

  // ---------------------------------------------------------------------
  // Emitting arrows from one difficulty's measures

  /** One character of a row: its beat, its lane (the column) and its code. */
  datatype Cell = Cell(beat: real, lane: nat, note: char)

  /** The beat of row `rowIndex` of the `measureIndex`-th recorded measure of `rowCount` rows. */
  function RowBeat(measureIndex: nat, rowIndex: nat, rowCount: nat): real
    requires rowCount > 0
  {
    (measureIndex as real) * 4.0 + (rowIndex as real) * (4.0 / (rowCount as real))
  }

  /** Rows split their measure's four beats evenly, in order. */
  lemma RowBeatInMeasure(measureIndex: nat, rowIndex: nat, rowCount: nat)
    requires rowIndex < rowCount
    ensures (measureIndex as real) * 4.0 <= RowBeat(measureIndex, rowIndex, rowCount) < (measureIndex as real) * 4.0 + 4.0
    ensures rowIndex + 1 < rowCount ==> RowBeat(measureIndex, rowIndex, rowCount) < RowBeat(measureIndex, rowIndex + 1, rowCount)
  {
    var step := 4.0 / (rowCount as real);
    assert step * (rowCount as real) == 4.0;
    assert (rowIndex as real) * step <= ((rowCount - 1) as real) * step;
  }

  function RowCells(row: string, beat: real): (cells: seq<Cell>)
    ensures |cells| == |row|
  {
    seq(|row|, j requires 0 <= j < |row| => Cell(beat, j, row[j]))
  }

  /** The cells of the first `k` rows of a measure. */
  function MeasureCells(measure: seq<string>, measureIndex: nat, k: nat): seq<Cell>
    requires 0 < |measure| && k <= |measure|
  {
    if k == 0 then []
    else MeasureCells(measure, measureIndex, k - 1) + RowCells(measure[k - 1], RowBeat(measureIndex, k - 1, |measure|))
  }

  lemma MeasureCellsStep(before: seq<Cell>, measure: seq<string>, measureIndex: nat, k: nat)
    requires k < |measure|
    ensures before + MeasureCells(measure, measureIndex, k + 1)
         == before + MeasureCells(measure, measureIndex, k) + RowCells(measure[k], RowBeat(measureIndex, k, |measure|))
  {
  }

  /** How many non-empty measures `d` has: empty measures take no beats. */
  function RecordedMeasures(d: seq<seq<string>>): nat {
    if d == [] then 0 else RecordedMeasures(d[..|d| - 1]) + (if d[|d| - 1] == [] then 0 else 1)
  }

  /** Every cell of a difficulty, in row-major, lane-ascending order. */
  function Cells(d: seq<seq<string>>): seq<Cell> {
    if d == [] then []
    else
      var m := d[|d| - 1];
      Cells(d[..|d| - 1]) + (if m == [] then [] else MeasureCells(m, RecordedMeasures(d[..|d| - 1]), |m|))
  }

  lemma CellsStep(d: seq<seq<string>>, i: nat)
    requires i < |d|
    ensures RecordedMeasures(d[..i + 1]) == RecordedMeasures(d[..i]) + (if d[i] == [] then 0 else 1)
    ensures d[i] == [] ==> Cells(d[..i + 1]) == Cells(d[..i])
    ensures d[i] != [] ==> Cells(d[..i + 1]) == Cells(d[..i]) + MeasureCells(d[i], RecordedMeasures(d[..i]), |d[i]|)
  {
    assert d[..i + 1][..i] == d[..i];
  }

  /** The hold register of `lane` after `cells`: the time of the last `2` there, or 0.0. */
  function LastOpen(cells: seq<Cell>, lane: nat, time: real -> real): real {
    if cells == [] then 0.0
    else
      var c := cells[|cells| - 1];
      if c.lane == lane && c.note == '2' then time(c.beat) else LastOpen(cells[..|cells| - 1], lane, time)
  }

  /** The arrows one cell adds after the cells `before` it. */
  function CellArrows(before: seq<Cell>, c: Cell, time: real -> real): seq<Arrow> {
    if c.note == '1' then [Arrow(c.lane, time(c.beat), 0.0, false, 0.0)]
    else if c.note == '3' then [Arrow(c.lane, LastOpen(before, c.lane, time), 0.0, true, time(c.beat))]
    else []
  }

  /** The arrows of a sequence of cells, in cell order, with `time` converting beats to seconds. */
  function Emitted(cells: seq<Cell>, time: real -> real): seq<Arrow> {
    if cells == [] then []
    else Emitted(cells[..|cells| - 1], time) + CellArrows(cells[..|cells| - 1], cells[|cells| - 1], time)
  }

  lemma PrefixStep<T>(xs: seq<T>, ys: seq<T>, k: nat)
    requires k < |ys|
    ensures xs + ys[..k + 1] == xs + ys[..k] + [ys[k]]
  {
    assert ys[..k + 1] == ys[..k] + [ys[k]];
  }

  lemma PrefixEmpty<T>(xs: seq<T>, ys: seq<T>)
    ensures xs + ys[..0] == xs
  {
  }

  lemma PrefixFull<T>(xs: seq<T>, ys: seq<T>)
    ensures xs + ys[..|ys|] == xs + ys
  {
    assert ys[..|ys|] == ys;
  }

  lemma EmitStep(cells: seq<Cell>, c: Cell, time: real -> real)
    ensures Emitted(cells + [c], time) == Emitted(cells, time) + CellArrows(cells, c, time)
    ensures forall lane: nat :: LastOpen(cells + [c], lane, time)
                                == if c.lane == lane && c.note == '2' then time(c.beat) else LastOpen(cells, lane, time)
  {
    assert (cells + [c])[..|cells|] == cells;
  }

  /** Only lanes 0 to 3 of `row` hold the start or end of a hold. */
  predicate HoldLanes(row: string) {
    forall j :: 0 <= j < |row| && (row[j] == '2' || row[j] == '3') ==> j < 4
  }

  predicate HoldsFit(d: seq<seq<string>>) {
    forall m, r :: m in d && r in m ==> HoldLanes(r)
  }

  /** `time` is the beat-to-seconds conversion of `tm`. */
  ghost predicate ClockFor(time: real -> real, tm: TimingMaps) {
    tm.Valid() && forall b {:trigger tm.TimeOf(b)} :: time(b) == tm.TimeOf(b)
  }

  /** The four hold registers hold `LastOpen` of `cells` for their lanes. */
  ghost predicate Registers(lastLongStart: array<real>, cells: seq<Cell>, time: real -> real)
    reads lastLongStart
  {
    lastLongStart.Length == 4 && forall l :: 0 <= l < 4 ==> lastLongStart[l] == LastOpen(cells, l, time)
  }

  /**
   * The lane loop for one row: taps and hold ends are appended, hold starts
   * set the lane's register in `lastLongStart`.
   */
  method EmitRow(line: string, currentBeat: real, tm: TimingMaps, ghost time: real -> real,
                 lastLongStart: array<real>, ghost before: seq<Cell>, arrowsBefore: seq<Arrow>)
    returns (arrows: seq<Arrow>)
    requires ClockFor(time, tm)
    requires HoldLanes(line)
    requires arrowsBefore == Emitted(before, time)
    requires Registers(lastLongStart, before, time)
    modifies lastLongStart
    ensures arrows == Emitted(before + RowCells(line, currentBeat), time)
    ensures Registers(lastLongStart, before + RowCells(line, currentBeat), time)
  {
    ghost var row := RowCells(line, currentBeat);
    assert time(currentBeat) == tm.TimeOf(currentBeat);
    arrows := arrowsBefore;
    PrefixEmpty(before, row);
    for lane := 0 to |line|
      invariant arrows == Emitted(before + row[..lane], time)
      invariant Registers(lastLongStart, before + row[..lane], time)
    {
      EmitStep(before + row[..lane], row[lane], time);
      PrefixStep(before, row, lane);
      var ch := line[lane];
      if ch == '1' {
        var hitTime := BeatToTime(currentBeat, tm.tempo, tm.offset, tm.stops);
        arrows := arrows + [Arrow(lane, hitTime, 0.0, false, 0.0)];
      } else if ch == '2' {
        lastLongStart[lane] := BeatToTime(currentBeat, tm.tempo, tm.offset, tm.stops);
      } else if ch == '3' {
        var endTime := BeatToTime(currentBeat, tm.tempo, tm.offset, tm.stops);
        arrows := arrows + [Arrow(lane, lastLongStart[lane], 0.0, true, endTime)];
      }
    }
    PrefixFull(before, row);
  }

  /** The row loop for one non-empty measure. */
  method EmitMeasure(measure: seq<string>, measureIndex: nat, tm: TimingMaps, ghost time: real -> real,
                     lastLongStart: array<real>, ghost before: seq<Cell>, arrowsBefore: seq<Arrow>)
    returns (arrows: seq<Arrow>)
    requires ClockFor(time, tm)
    requires measure != [] && forall r :: r in measure ==> HoldLanes(r)
    requires arrowsBefore == Emitted(before, time)
    requires Registers(lastLongStart, before, time)
    modifies lastLongStart
    ensures arrows == Emitted(before + MeasureCells(measure, measureIndex, |measure|), time)
    ensures Registers(lastLongStart, before + MeasureCells(measure, measureIndex, |measure|), time)
  {
    var numLines := |measure|;
    arrows := arrowsBefore;
    ghost var done := before;
    for lineIndex := 0 to numLines
      invariant done == before + MeasureCells(measure, measureIndex, lineIndex)
      invariant arrows == Emitted(done, time)
      invariant Registers(lastLongStart, done, time)
    {
      var line := measure[lineIndex];
      var currentBeat := RowBeat(measureIndex, lineIndex, numLines);
      assert line in measure;
      arrows := EmitRow(line, currentBeat, tm, time, lastLongStart, done, arrows);
      MeasureCellsStep(before, measure, measureIndex, lineIndex);
      done := done + RowCells(line, currentBeat);
    }
  }

  /** The measure loop of `parse_sm_file` for one difficulty. */
  method CompileDifficulty(difficulty: seq<seq<string>>, tm: TimingMaps, ghost time: real -> real)
    returns (arrows: seq<Arrow>)
    requires ClockFor(time, tm)
    requires HoldsFit(difficulty)
    ensures arrows == Emitted(Cells(difficulty), time)
  {
    var measureIndex: nat := 0;
    var lastLongStart := new real[4](_ => 0.0);
    arrows := [];
    for i := 0 to |difficulty|
      invariant measureIndex == RecordedMeasures(difficulty[..i])
      invariant arrows == Emitted(Cells(difficulty[..i]), time)
      invariant Registers(lastLongStart, Cells(difficulty[..i]), time)
    {
      CellsStep(difficulty, i);
      var measure := difficulty[i];
      if |measure| == 0 {
        continue;
      }
      assert measure in difficulty;
      arrows := EmitMeasure(measure, measureIndex, tm, time, lastLongStart, Cells(difficulty[..i]), arrows);
      measureIndex := measureIndex + 1;
    }
    assert difficulty[..|difficulty|] == difficulty;
  }

  // ---------------------------------------------------------------------
  // What emission promises

  /** Cell `j` starts a hold in `lane`. */
  predicate OpensIn(cells: seq<Cell>, j: int, lane: nat) {
    0 <= j < |cells| && cells[j].lane == lane && cells[j].note == '2'
  }

  /** A lane's register holds the time of the last `2` in that lane... */
  lemma {:induction false} LastOpenIsLastStart(cells: seq<Cell>, lane: nat, time: real -> real, j: nat)
    requires OpensIn(cells, j, lane)
    requires forall k :: j < k < |cells| ==> !OpensIn(cells, k, lane)
    ensures LastOpen(cells, lane, time) == time(cells[j].beat)
  {
    var n := |cells| - 1;
    if j < n {
      assert !OpensIn(cells, n, lane);
      var init := cells[..n];
      assert OpensIn(init, j, lane);
      forall k | j < k < n ensures !OpensIn(init, k, lane) {
        assert !OpensIn(cells, k, lane);
      }
      LastOpenIsLastStart(init, lane, time, j);
    }
  }

  /** ...and 0.0 while no hold has started in that lane. */
  lemma {:induction false} LastOpenBeforeAnyStart(cells: seq<Cell>, lane: nat, time: real -> real)
    requires forall k :: 0 <= k < |cells| ==> !OpensIn(cells, k, lane)
    ensures LastOpen(cells, lane, time) == 0.0
  {
    if cells != [] {
      var n := |cells| - 1;
      assert !OpensIn(cells, n, lane);
      var init := cells[..n];
      forall k | 0 <= k < n ensures !OpensIn(init, k, lane) {
        assert !OpensIn(cells, k, lane);
      }
      LastOpenBeforeAnyStart(init, lane, time);
    }
  }

  /**
   * Every emitted arrow comes from a cell of its lane: a tap from a `1`, hit
   * at that cell's time; a hold from a `3`, ending at that cell's time.
   */
  lemma {:induction false} EmittedFromCells(cells: seq<Cell>, time: real -> real)
    ensures forall a :: a in Emitted(cells, time) ==>
      && a.spawnTime == 0.0
      && (!a.long ==> a.endTime == 0.0 && exists c :: c in cells && c.note == '1' && c.lane == a.lane && a.hitTime == time(c.beat))
      && (a.long ==> exists c :: c in cells && c.note == '3' && c.lane == a.lane && a.endTime == time(c.beat))
  {
    if cells != [] {
      var n := |cells| - 1;
      EmittedFromCells(cells[..n], time);
      forall a | a in Emitted(cells, time)
        ensures a.spawnTime == 0.0
        ensures !a.long ==> a.endTime == 0.0 && exists c :: c in cells && c.note == '1' && c.lane == a.lane && a.hitTime == time(c.beat)
        ensures a.long ==> exists c :: c in cells && c.note == '3' && c.lane == a.lane && a.endTime == time(c.beat)
      {
        if a in Emitted(cells[..n], time) {
          forall c | c in cells[..n] ensures c in cells {
          }
        } else {
          assert cells[n] in cells;
        }
      }
    }
  }

  /** Cells other than `1` and `3` emit nothing. */
  lemma {:induction false} NoNotesNoArrows(cells: seq<Cell>, time: real -> real)
    requires forall i :: 0 <= i < |cells| ==> cells[i].note !in "13"
    ensures Emitted(cells, time) == []
  {
    if cells != [] {
      NoNotesNoArrows(cells[..|cells| - 1], time);
    }
  }

  /** How many `1` and `3` cells there are. */
  function NoteCount(cells: seq<Cell>): nat {
    if cells == [] then 0
    else NoteCount(cells[..|cells| - 1]) + (if cells[|cells| - 1].note in "13" then 1 else 0)
  }

  /** One arrow per `1` or `3` cell, and none for any other code. */
  lemma {:induction false} OneArrowPerNote(cells: seq<Cell>, time: real -> real)
    ensures |Emitted(cells, time)| == NoteCount(cells)
  {
    if cells != [] {
      OneArrowPerNote(cells[..|cells| - 1], time);
    }
  }

  /** `a` comes before `b` when read row by row, lanes left to right. */
  predicate ReadBefore(a: Cell, b: Cell) {
    a.beat < b.beat || (a.beat == b.beat && a.lane < b.lane)
  }

  predicate InReadingOrder(cells: seq<Cell>) {
    forall i, j :: 0 <= i < j < |cells| ==> ReadBefore(cells[i], cells[j])
  }

  predicate BeatsIn(cells: seq<Cell>, lo: real, hi: real) {
    forall i :: 0 <= i < |cells| ==> lo <= cells[i].beat < hi
  }

  lemma ConcatInOrder(xs: seq<Cell>, ys: seq<Cell>, mid: real)
    requires InReadingOrder(xs) && InReadingOrder(ys)
    requires forall i :: 0 <= i < |xs| ==> xs[i].beat < mid
    requires forall i :: 0 <= i < |ys| ==> mid <= ys[i].beat
    ensures InReadingOrder(xs + ys)
  {
    forall i, j | 0 <= i < j < |xs + ys| ensures ReadBefore((xs + ys)[i], (xs + ys)[j]) {
      if j < |xs| {
        assert (xs + ys)[i] == xs[i] && (xs + ys)[j] == xs[j];
      } else if i >= |xs| {
        assert (xs + ys)[i] == ys[i - |xs|] && (xs + ys)[j] == ys[j - |xs|];
      } else {
        assert (xs + ys)[i] == xs[i] && (xs + ys)[j] == ys[j - |xs|];
      }
    }
  }

  lemma RowCellsOrdered(row: string, beat: real)
    ensures InReadingOrder(RowCells(row, beat))
    ensures forall i :: 0 <= i < |row| ==> RowCells(row, beat)[i].beat == beat
  {
  }

  lemma {:induction false} MeasureCellsOrdered(measure: seq<string>, measureIndex: nat, k: nat)
    requires 0 < |measure| && 0 < k <= |measure|
    ensures InReadingOrder(MeasureCells(measure, measureIndex, k))
    ensures BeatsIn(MeasureCells(measure, measureIndex, k), (measureIndex as real) * 4.0, (measureIndex as real) * 4.0 + 4.0)
    ensures forall i :: 0 <= i < |MeasureCells(measure, measureIndex, k)| ==>
      MeasureCells(measure, measureIndex, k)[i].beat <= RowBeat(measureIndex, k - 1, |measure|)
  {
    var beat := RowBeat(measureIndex, k - 1, |measure|);
    var row := RowCells(measure[k - 1], beat);
    RowBeatInMeasure(measureIndex, k - 1, |measure|);
    RowCellsOrdered(measure[k - 1], beat);
    if k > 1 {
      var earlier := MeasureCells(measure, measureIndex, k - 1);
      MeasureCellsOrdered(measure, measureIndex, k - 1);
      RowBeatInMeasure(measureIndex, k - 2, |measure|);
      ConcatInOrder(earlier, row, beat);
      BeatsConcat(earlier, row, (measureIndex as real) * 4.0, (measureIndex as real) * 4.0 + 4.0, beat);
    } else {
      assert MeasureCells(measure, measureIndex, k) == row;
    }
  }

  lemma BeatsConcat(xs: seq<Cell>, ys: seq<Cell>, lo: real, hi: real, top: real)
    requires BeatsIn(xs, lo, hi) && BeatsIn(ys, lo, hi)
    requires forall i :: 0 <= i < |xs| ==> xs[i].beat <= top
    requires forall i :: 0 <= i < |ys| ==> ys[i].beat <= top
    ensures BeatsIn(xs + ys, lo, hi)
    ensures forall i :: 0 <= i < |xs + ys| ==> (xs + ys)[i].beat <= top
  {
  }

  /**
   * Cells, and so the arrows emitted from them, come in reading order: by
   * beat, and by lane within a row.
   */
  lemma {:induction false} CellsInReadingOrder(d: seq<seq<string>>)
    ensures InReadingOrder(Cells(d))
    ensures forall i :: 0 <= i < |Cells(d)| ==> 0.0 <= Cells(d)[i].beat < (RecordedMeasures(d) as real) * 4.0
  {
    if d != [] {
      var n := |d| - 1;
      CellsInReadingOrder(d[..n]);
      var m := d[n];
      if m != [] {
        var mi := RecordedMeasures(d[..n]);
        MeasureCellsOrdered(m, mi, |m|);
        RowBeatInMeasure(mi, |m| - 1, |m|);
        ConcatInOrder(Cells(d[..n]), MeasureCells(m, mi, |m|), (mi as real) * 4.0);
      }
    }
  }

  /** A two-row measure `2100`, `3000` puts its rows on beats 0 and 2. */
  lemma HoldExampleCells()
    ensures Cells([["2100", "3000"]]) == HoldExample
  {
    var m := ["2100", "3000"];
    assert [m][..0] == [];
    assert RowCells("2100", RowBeat(0, 0, 2)) == HoldExample[..4];
    assert RowCells("3000", RowBeat(0, 1, 2)) == HoldExample[4..];
    assert MeasureCells(m, 0, 1) == HoldExample[..4];
  }

  const HoldExample: seq<Cell> :=
    [Cell(0.0, 0, '2'), Cell(0.0, 1, '1'), Cell(0.0, 2, '0'), Cell(0.0, 3, '0'),
     Cell(2.0, 0, '3'), Cell(2.0, 1, '0'), Cell(2.0, 2, '0'), Cell(2.0, 3, '0')]

  /** The cells `2` and `1` of the first row emit the tap and open a hold in lane 0. */
  lemma HoldExampleFirstCells(time: real -> real)
    ensures Emitted(HoldExample[..2], time) == [Arrow(1, time(0.0), 0.0, false, 0.0)]
    ensures LastOpen(HoldExample[..2], 0, time) == time(0.0)
  {
    var cells := HoldExample;
    EmitStep([], cells[0], time);
    assert [cells[0]] == cells[..1];
    EmitStep(cells[..1], cells[1], time);
    assert cells[..1] + [cells[1]] == cells[..2];
  }

  /** The first row `2100` emits only the tap, and opens a hold in lane 0 at beat 0. */
  lemma HoldExampleFirstRow(time: real -> real)
    ensures Emitted(HoldExample[..4], time) == [Arrow(1, time(0.0), 0.0, false, 0.0)]
    ensures LastOpen(HoldExample[..4], 0, time) == time(0.0)
  {
    var cells := HoldExample;
    HoldExampleFirstCells(time);
    EmitStep(cells[..2], cells[2], time);
    assert cells[..2] + [cells[2]] == cells[..3];
    EmitStep(cells[..3], cells[3], time);
    assert cells[..3] + [cells[3]] == cells[..4];
  }

  /**
   * A hold from beat 0 to beat 2 in lane 0 beside a tap in lane 1 at beat 0:
   * the tap is emitted first, the hold only when its `3` is read.
   */
  lemma HoldAfterTap(time: real -> real)
    ensures Emitted(Cells([["2100", "3000"]]), time)
         == [Arrow(1, time(0.0), 0.0, false, 0.0), Arrow(0, time(0.0), 0.0, true, time(2.0))]
  {
    HoldExampleCells();
    HoldExampleFirstRow(time);
    var cells := HoldExample;
    var both := [Arrow(1, time(0.0), 0.0, false, 0.0), Arrow(0, time(0.0), 0.0, true, time(2.0))];
    EmitStep(cells[..4], cells[4], time);
    assert cells[..4] + [cells[4]] == cells[..5];
    assert Emitted(cells[..5], time) == both;
    EmitStep(cells[..5], cells[5], time);
    assert cells[..5] + [cells[5]] == cells[..6];
    EmitStep(cells[..6], cells[6], time);
    assert cells[..6] + [cells[6]] == cells[..7];
    EmitStep(cells[..7], cells[7], time);
    assert cells[..7] + [cells[7]] == cells;
  }

  /** A lane's register is 0.0 or the time of some `2` read earlier in that lane. */
  lemma {:induction false} LastOpenSource(cells: seq<Cell>, lane: nat, time: real -> real)
    ensures LastOpen(cells, lane, time) == 0.0
         || exists k :: OpensIn(cells, k, lane) && LastOpen(cells, lane, time) == time(cells[k].beat)
  {
    if cells != [] {
      var n := |cells| - 1;
      if !OpensIn(cells, n, lane) {
        var init := cells[..n];
        LastOpenSource(init, lane, time);
        if LastOpen(init, lane, time) != 0.0 {
          var k :| OpensIn(init, k, lane) && LastOpen(init, lane, time) == time(init[k].beat);
          assert OpensIn(cells, k, lane);
        }
      } else {
        assert LastOpen(cells, lane, time) == time(cells[n].beat);
      }
    }
  }

  /** `time` never runs backwards and puts no beat from 0 on before 0 seconds. */
  ghost predicate Forward(time: real -> real) {
    && (forall b1, b2 {:trigger time(b1), time(b2)} :: b1 <= b2 ==> time(b1) <= time(b2))
    && (forall b :: 0.0 <= b ==> 0.0 <= time(b))
  }

  /**
   * On a clock that runs forward, no hold arrow ends before it starts: its
   * start is 0.0 or the time of a `2` read before its `3`.
   */
  lemma {:induction false} HoldsEndAfterStart(cells: seq<Cell>, time: real -> real)
    requires InReadingOrder(cells)
    requires forall i :: 0 <= i < |cells| ==> 0.0 <= cells[i].beat
    requires Forward(time)
    ensures forall a :: a in Emitted(cells, time) && a.long ==> a.hitTime <= a.endTime
  {
    if cells != [] {
      var n := |cells| - 1;
      var before := cells[..n];
      assert forall i :: 0 <= i < n ==> before[i] == cells[i];
      HoldsEndAfterStart(before, time);
      var c := cells[n];
      if c.note == '3' {
        LastOpenSource(before, c.lane, time);
        if LastOpen(before, c.lane, time) != 0.0 {
          var k :| OpensIn(before, k, c.lane) && LastOpen(before, c.lane, time) == time(before[k].beat);
          assert ReadBefore(cells[k], cells[n]);
          assert time(cells[k].beat) <= time(c.beat);
        } else {
          assert 0.0 <= time(c.beat);
        }
      }
    }
  }

  // ---------------------------------------------------------------------
  // The whole chart

  /**
   * What `parse_sm_file` needs of a chart: a `#BPMS` or `#STOPS` marker is
   * followed by at least one more character, no tempo is 0, and `2` and `3`
   * only appear in the four lanes that have a hold register.
   */
  predicate Compilable(contents: string) {
    && DeclarationInBounds(contents, "#BPMS")
    && DeclarationInBounds(contents, "#STOPS")
    && NonZeroTempo(TempoOf(contents))
    && forall d :: d in Grouped(ClassifyAll(Lines(contents))).0 ==> HoldsFit(d)
  }

  function MapsOf(contents: string): TimingMaps
    requires DeclarationInBounds(contents, "#BPMS") && DeclarationInBounds(contents, "#STOPS")
  {
    TimingMaps(TempoOf(contents), Offset(contents), StopsOf(contents))
  }

  /** `beat_to_time` with the chart's maps, as a total function of the beat. */
  function ClockOf(tm: TimingMaps): real -> real {
    b => if tm.Valid() then tm.TimeOf(b) else 0.0
  }

  function TextTag(contents: string, tag: string): string {
    ParseTagValue(contents, tag).GetOr("")
  }

  /** Everything `parse_sm_file` returns for `contents`. */
  ghost function CompileChart(contents: string): Parsed
    requires Compilable(contents)
  {
    var g := Grouped(ClassifyAll(Lines(contents)));
    var time := ClockOf(MapsOf(contents));
    Parsed(
      MapAll(g.0, ArrowsOn(time)),
      g.1,
      TextTag(contents, "#MUSIC:"),
      TextTag(contents, "#ARTIST:"),
      TextTag(contents, "#TITLE:"),
      TextTag(contents, "#BACKGROUND:"),
      NumberTag(contents, "#SAMPLESTART:"),
      NumberTag(contents, "#SAMPLELENGTH:"))
  }

  /** `f` applied to each element of `xs`, built up from the front. */
  ghost function MapAll<A, B>(xs: seq<A>, f: A -> B): (r: seq<B>)
    ensures |r| == |xs|
  {
    if xs == [] then [] else MapAll(xs[..|xs| - 1], f) + [f(xs[|xs| - 1])]
  }

  lemma MapAllStep<A, B>(xs: seq<A>, i: nat, f: A -> B)
    requires i < |xs|
    ensures MapAll(xs[..i + 1], f) == MapAll(xs[..i], f) + [f(xs[i])]
  {
    assert xs[..i + 1][..i] == xs[..i];
  }

  lemma {:induction false} MapAllAt<A, B>(xs: seq<A>, f: A -> B, i: nat)
    requires i < |xs|
    ensures MapAll(xs, f)[i] == f(xs[i])
  {
    var n := |xs| - 1;
    if i < n {
      MapAllAt(xs[..n], f, i);
    }
  }

  /** The arrows of one difficulty on the clock `time`. */
  ghost function ArrowsOn(time: real -> real): seq<seq<string>> -> seq<Arrow> {
    d => Emitted(Cells(d), time)
  }

  /** The outer loop over difficulties: one arrow list each, in order. */
  method CompileDifficulties(measures: seq<seq<seq<string>>>, tm: TimingMaps, ghost time: real -> real)
    returns (allArrows: seq<seq<Arrow>>)
    requires ClockFor(time, tm)
    requires forall d :: d in measures ==> HoldsFit(d)
    ensures allArrows == MapAll(measures, ArrowsOn(time))
  {
    allArrows := [];
    for i := 0 to |measures|
      invariant allArrows == MapAll(measures[..i], ArrowsOn(time))
    {
      assert measures[i] in measures;
      var arrows := CompileDifficulty(measures[i], tm, time);
      MapAllStep(measures, i, ArrowsOn(time));
      allArrows := allArrows + [arrows];
    }
    assert measures[..|measures|] == measures;
  }

  /** `parse_sm_file`: the tags, the two maps, the line loop, then one arrow list per difficulty. */
  method ParseSmFile(contents: string) returns (p: Parsed)
    requires Compilable(contents)
    ensures p == CompileChart(contents)
  {
    var title := TextTag(contents, "#TITLE:");
    var artist := TextTag(contents, "#ARTIST:");
    var song := TextTag(contents, "#MUSIC:");
    var bg := TextTag(contents, "#BACKGROUND:");
    var offset := Offset(contents);
    var sampleStart := NumberTag(contents, "#SAMPLESTART:");
    var sampleLen := NumberTag(contents, "#SAMPLELENGTH:");

    var tempo := BuildSchedule(DeclarationEntries(contents, "#BPMS"), false);
    var stops := BuildSchedule(DeclarationEntries(contents, "#STOPS"), true);
    var tm := TimingMaps(tempo, offset, stops);
    ghost var time := ClockOf(tm);
    assert ClockFor(time, tm);

    var measures, difficulties := GroupLines(Lines(contents));
    var allArrows := CompileDifficulties(measures, tm, time);
    p := Parsed(allArrows, difficulties, song, artist, title, bg, sampleStart, sampleLen);
  }

  /**
   * With positive tempos, breakpoints at non-negative beats and non-negative
   * pauses, every hold arrow of every difficulty ends no earlier than it starts.
   */
  lemma ChartHoldsEndAfterStart(contents: string)
    requires Compilable(contents)
    requires PositiveTempo(TempoOf(contents)) && NonNegativeBeats(TempoOf(contents))
    requires NonNegativePauses(StopsOf(contents))
    ensures forall i, a :: 0 <= i < |CompileChart(contents).allArrows| && a in CompileChart(contents).allArrows[i] && a.long
              ==> a.hitTime <= a.endTime
  {
    var tm := MapsOf(contents);
    var time := ClockOf(tm);
    forall b1, b2 | b1 <= b2 ensures time(b1) <= time(b2) {
      BeatTimeMonotone(b1, b2, tm.tempo, tm.offset, tm.stops);
    }
    forall b | 0.0 <= b ensures 0.0 <= time(b) {
      NoTimeBeforeOffset(b, tm.tempo, tm.offset, tm.stops);
    }
    var ds := Grouped(ClassifyAll(Lines(contents))).0;
    forall i | 0 <= i < |ds| ensures forall a: Arrow :: a in MapAll(ds, ArrowsOn(time))[i] && a.long ==> a.hitTime <= a.endTime {
      MapAllAt(ds, ArrowsOn(time), i);
      CellsInReadingOrder(ds[i]);
      HoldsEndAfterStart(Cells(ds[i]), time);
    }
  }
}
