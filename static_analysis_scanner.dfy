/**
 * The static-analysis scanner: reek's code smells, flog's per-method
 * complexity and flay's duplication reports, collected into one list of
 * findings in that order, which replaces the app's previous static-analysis
 * findings and is summarised with the mean complexity.
 */
module StaticAnalysisScanner {
  import opened Wrappers
  import Text
  import Numeric
  import Sorting
  import opened QualityScanModel
  import MetricSummaryModel
  import AppModel

  // ---------------------------------------------------------------- reek

  /** The fields of a smell the parser reads. */
  datatype Smell = Smell(smellType: Option<string>, message: Option<string>, source: Option<string>,
                         lines: Option<seq<int>>)

  /** A file entry; `smells` is absent when the value is not an array. */
  datatype ReekFile = ReekFile(smells: Option<seq<Smell>>)

  /** The decoded document; `files` is absent when it is not an array. */
  datatype ReekReport = ReekReport(files: Option<seq<ReekFile>>)

  /** `smell["lines"]&.first`: nil when the lines are missing or empty. */
  function FirstLine(s: Smell): (line: Option<int>)
    ensures line.Some? <==> s.lines.Some? && |s.lines.value| > 0
    ensures line.Some? ==> line.value == s.lines.value[0]
  {
    if s.lines.Some? && |s.lines.value| > 0 then Some(s.lines.value[0]) else None
  }

  /** The finding for one smell: always medium, `"<smell_type>: <message>"`, at its source and first line. */
  function SmellResult(s: Smell): (r: QualityScan)
    ensures r.scanType == "static_analysis" && r.severity == Some("medium")
    ensures r.message == Some(s.smellType.GetOr("") + ": " + s.message.GetOr(""))
    ensures r.filePath == s.source && r.lineNumber == FirstLine(s) && r.metricValue.None?
    ensures Valid(r)
  {
    QualityScan("static_analysis", Some("medium"), Some(s.smellType.GetOr("") + ": " + s.message.GetOr("")),
                s.source, FirstLine(s), None)
  }

  /** One file's findings: one per smell in order, none when its smells are not an array. */
  function SmellResults(f: ReekFile): (r: seq<QualityScan>)
    ensures f.smells.None? ==> r == []
    ensures f.smells.Some? ==> |r| == |f.smells.value|
    ensures f.smells.Some? ==> forall j :: 0 <= j < |r| ==> r[j] == SmellResult(f.smells.value[j])
  {
    match f.smells
    case None => []
    case Some(ss) => seq(|ss|, j requires 0 <= j < |ss| => SmellResult(ss[j]))
  }

  /** The number of smells in files whose smells are an array. */
  function SmellCount(files: seq<ReekFile>): nat {
    if files == [] then 0
    else
      var last := files[|files| - 1];
      SmellCount(files[..|files| - 1]) + (if last.smells.Some? then |last.smells.value| else 0)
  }

  /** The findings of the files in order. */
  function FilesSmellResults(files: seq<ReekFile>): (r: seq<QualityScan>)
    ensures |r| == SmellCount(files)
  {
    if files == [] then []
    else FilesSmellResults(files[..|files| - 1]) + SmellResults(files[|files| - 1])
  }

  lemma FilesSmellResultsPrefix(files: seq<ReekFile>, i: int)
    requires 0 <= i < |files|
    ensures FilesSmellResults(files[..i + 1]) == FilesSmellResults(files[..i]) + SmellResults(files[i])
  {
    assert files[..i + 1][..i] == files[..i];
  }

  /** What `parse_reek_results` appends: nothing for a document that is not an array, else one finding per smell. */
  function ReekResults(data: ReekReport): (r: seq<QualityScan>)
    ensures data.files.None? ==> r == []
    ensures data.files.Some? ==> |r| == SmellCount(data.files.value)
  {
    match data.files
    case None => []
    case Some(files) => FilesSmellResults(files)
  }

  /** Every reek finding is a valid medium static-analysis finding without a metric. */
  lemma {:induction false} FilesSmellResultsMedium(files: seq<ReekFile>)
    ensures forall k :: 0 <= k < |FilesSmellResults(files)| ==> ReekFinding(FilesSmellResults(files)[k])
    decreases |files|
  {
    if files != [] {
      FilesSmellResultsMedium(files[..|files| - 1]);
      var a: seq<QualityScan> := FilesSmellResults(files[..|files| - 1]);
      var b: seq<QualityScan> := SmellResults(files[|files| - 1]);
      assert forall k :: 0 <= k < |b| ==> ReekFinding(b[k]);
      Sorting.AllAppend(a, b, ReekFinding);
    }
  }

  /** A valid medium static-analysis finding without a metric. */
  predicate ReekFinding(r: QualityScan) {
    r.scanType == "static_analysis" && r.severity == Some("medium") && r.metricValue.None? && Valid(r)
  }

  // ---------------------------------------------------------------- flog

  /** The score at the head of a flog line: its whole and fraction digits and the index of the colon after it. */
  datatype FlogScore = FlogScore(whole: string, frac: string, colon: nat)

  predicate AllDigits(s: string) {
    forall k :: 0 <= k < |s| ==> Text.IsDigit(s[k])
  }

  /**
   * The capture of `^\s*(\d+\.\d+):`: leading white space, digits, a
   * point, digits and a colon. Both digit runs are maximal, since neither
   * can be followed by another digit.
   */
  function ScorePrefix(line: string): (r: Option<FlogScore>)
    ensures r.Some? ==>
      && |r.value.whole| > 0 && |r.value.frac| > 0 && AllDigits(r.value.whole) && AllDigits(r.value.frac)
      && r.value.colon < |line| && line[r.value.colon] == ':'
  {
    var w := Text.SpanEnd(line, 0, Text.IsSpace);
    var e1 := Text.SpanEnd(line, w, Text.IsDigit);
    if e1 == w || e1 == |line| || line[e1] != '.' then None
    else
      var e2 := Text.SpanEnd(line, e1 + 1, Text.IsDigit);
      if e2 == e1 + 1 || e2 == |line| || line[e2] != ':' then None
      else
        Some(FlogScore(line[w..e1], line[e1 + 1..e2], e2))
  }

  /** Where the captures lie: white space, the whole digits, a point, the fraction digits, the colon. */
  lemma ScorePrefixShape(line: string)
    ensures var r := ScorePrefix(line);
      r.Some? ==>
      var sc := r.value;
      var point := sc.colon - |sc.frac| - 1;
      var w := point - |sc.whole|;
      && 0 <= w && line[point] == '.'
      && (forall k :: 0 <= k < w ==> Text.IsSpace(line[k]))
      && line[w..point] == sc.whole && line[point + 1..sc.colon] == sc.frac
  {
  }

  /** Spaces, digits, a point, digits and a colon at known places give those digit runs. */
  lemma ScorePrefixAt(line: string, w: nat, e1: nat, e2: nat)
    requires w < e1 && e1 + 1 < e2 < |line|
    requires forall k :: 0 <= k < w ==> Text.IsSpace(line[k])
    requires forall k :: w <= k < e1 ==> Text.IsDigit(line[k])
    requires forall k :: e1 < k < e2 ==> Text.IsDigit(line[k])
    requires line[e1] == '.' && line[e2] == ':'
    ensures ScorePrefix(line) == Some(FlogScore(line[w..e1], line[e1 + 1..e2], e2))
  {
    Text.SpanEndAt(line, 0, w, Text.IsSpace);
    Text.SpanEndAt(line, w, e1, Text.IsDigit);
    Text.SpanEndAt(line, e1 + 1, e2, Text.IsDigit);
  }

  /** Any line of that shape yields exactly its two digit runs. */
  lemma ScorePrefixComplete(spaces: string, whole: string, frac: string, rest: string)
    requires forall k :: 0 <= k < |spaces| ==> Text.IsSpace(spaces[k])
    requires |whole| > 0 && |frac| > 0 && AllDigits(whole) && AllDigits(frac)
    ensures ScorePrefix(spaces + whole + "." + frac + ":" + rest)
         == Some(FlogScore(whole, frac, |spaces| + |whole| + |frac| + 1))
  {
    var line := spaces + whole + "." + frac + ":" + rest;
    ScoreShape(spaces, whole, frac, rest);
    ScorePrefixAt(line, |spaces|, |spaces| + |whole|, |spaces| + |whole| + 1 + |frac|);
  }

  /** Where the parts of such a line lie. */
  lemma ScoreShape(spaces: string, whole: string, frac: string, rest: string)
    requires forall k :: 0 <= k < |spaces| ==> Text.IsSpace(spaces[k])
    requires |whole| > 0 && |frac| > 0 && AllDigits(whole) && AllDigits(frac)
    ensures var line := spaces + whole + "." + frac + ":" + rest;
      var w, e1, e2 := |spaces|, |spaces| + |whole|, |spaces| + |whole| + 1 + |frac|;
      && e2 < |line| && line[w..e1] == whole && line[e1 + 1..e2] == frac
      && line[e1] == '.' && line[e2] == ':'
      && (forall k :: 0 <= k < w ==> Text.IsSpace(line[k]))
      && (forall k :: w <= k < e1 ==> Text.IsDigit(line[k]))
      && (forall k :: e1 < k < e2 ==> Text.IsDigit(line[k]))
  {
    var line := spaces + whole + "." + frac + ":" + rest;
    var w, e1, e2 := |spaces|, |spaces| + |whole|, |spaces| + |whole| + 1 + |frac|;
    var head := spaces + whole;
    assert line == head + ("." + frac + ":" + rest);
    assert line[..e1] == head;
    var tail := line[e1 + 1..];
    assert tail == frac + ":" + rest;
    assert line[w..e1] == whole by {
      assert head[w..] == whole;
    }
    assert line[e1 + 1..e2] == frac by {
      assert tail[..|frac|] == frac;
    }
    forall k | 0 <= k < w
      ensures Text.IsSpace(line[k])
    {
      assert line[k] == head[k] == spaces[k];
    }
    forall k | w <= k < e1
      ensures Text.IsDigit(line[k])
    {
      assert line[k] == head[k] == whole[k - w];
    }
    forall k | e1 < k < e2
      ensures Text.IsDigit(line[k])
    {
      assert line[k] == tail[k - e1 - 1] == frac[k - e1 - 1];
    }
    assert line[e2] == tail[|frac|];
  }

  function Pow10(n: nat): (p: nat)
    ensures p >= 1
  {
    if n == 0 then 1 else 10 * Pow10(n - 1)
  }

  /** `to_f` of the score: the whole part plus the fraction digits over their power of ten. */
  function Complexity(sc: FlogScore): (c: real)
    requires AllDigits(sc.whole) && AllDigits(sc.frac)
    ensures Text.DigitsValue(sc.whole) as real <= c < Text.DigitsValue(sc.whole) as real + 1.0
  {
    FractionBelowOne(sc.frac);
    Numeric.RatioBelowOne(Text.DigitsValue(sc.frac), Pow10(|sc.frac|));
    Text.DigitsValue(sc.whole) as real + Text.DigitsValue(sc.frac) as real / Pow10(|sc.frac|) as real
  }

  /** `n` digits denote less than `10^n`. */
  lemma {:induction false} FractionBelowOne(s: string)
    requires AllDigits(s)
    ensures Text.DigitsValue(s) < Pow10(|s|)
    decreases |s|
  {
    if s != [] {
      var init := s[..|s| - 1];
      FractionBelowOne(init);
      assert Text.DigitsValue(s) == Text.DigitsValue(init) * 10 + Text.DigitValue(s[|s| - 1]);
    }
  }

  /**
   * A method line, `^\s*\d+\.\d+:\s+(.+)#`: the score, then white space
   * right after the colon, at least one more character and a `#` later on.
   */
  function MethodLine(line: string): (r: Option<FlogScore>)
    ensures r.Some? ==> r == ScorePrefix(line)
    ensures r.Some? <==> ScorePrefix(line).Some? && MethodTail(line, ScorePrefix(line).value.colon)
  {
    var sc := ScorePrefix(line);
    if sc.Some? && MethodTail(line, sc.value.colon) then sc else None
  }

  /** `:\s+(.+)#` after the colon at `colon`. */
  predicate MethodTail(line: string, colon: nat) {
    colon + 3 <= |line| && Text.IsSpace(line[colon + 1]) && '#' in line[colon + 3..]
  }

  /**
   * The capture of `:\s+(.+)`: the first colon is the score's, so the
   * method is the rest of the line with its leading white space dropped.
   */
  function MethodInfo(line: string, sc: FlogScore): (info: string)
    requires sc.colon < |line|
    ensures |info| <= |line| - sc.colon - 1 && info == line[|line| - |info|..]
    ensures info == [] || !Text.IsSpace(info[0])
    ensures forall k :: sc.colon < k < |line| - |info| ==> Text.IsSpace(line[k])
  {
    var info := Text.StripLeft(line[sc.colon + 1..], Text.IsSpace);
    SliceFrom(line, sc.colon + 1, |info|);
    info
  }

  lemma SliceFrom(line: string, from: nat, n: nat)
    requires from + n <= |line|
    ensures line[from..][|line| - from - n..] == line[|line| - n..]
    ensures forall k :: from <= k < |line| ==> line[from..][k - from] == line[k]
  {
  }

  /** `complexity.round(1)` as its whole part and its one decimal. */
  function Tenths(c: real): (t: (nat, nat))
    requires c >= 0.0
    ensures t.1 < 10 && Numeric.RoundTenths(c) == t.0 as real + t.1 as real / 10.0
  {
    var n: nat := Numeric.RoundHalfAway(c * 10.0);
    assert n as real == (n / 10) as real * 10.0 + (n % 10) as real;
    (n / 10, n % 10)
  }

  /** `complexity.round(1)` as Ruby prints it: the whole part, a point and the one decimal. */
  function TenthsText(c: real): string
    requires c >= 0.0
  {
    Text.NatToString(Tenths(c).0) + "." + [Text.DigitChar(Tenths(c).1)]
  }

  /** The finding for a method above the threshold: high above 40, else medium, with the complexity as its metric. */
  function FlogResult(c: real, info: string, currentFile: Option<string>): (r: QualityScan)
    requires c > 20.0
    ensures r.scanType == "static_analysis" && r.metricValue == Some(c)
    ensures r.severity == Some("high") <==> c > 40.0
    ensures r.severity == Some("medium") <==> c <= 40.0
    ensures r.message == Some("High complexity (" + TenthsText(c) + "): " + info)
    ensures r.filePath == currentFile && r.lineNumber.None?
    ensures Valid(r)
  {
    QualityScan("static_analysis", Some(if c > 40.0 then "high" else "medium"),
                Some("High complexity (" + TenthsText(c) + "): " + info), currentFile, None, Some(c))
  }

  /** A space run up to an opening parenthesis: `\s+\(`. */
  predicate SpacesThenParen(t: string)
    decreases |t|
  {
    |t| >= 2 && Text.IsSpace(t[0]) && (t[1] == '(' || SpacesThenParen(t[1..]))
  }

  /** A colon at `q` after at least one character, followed by `\s+\(`. */
  predicate HeaderColonAt(line: string, q: int) {
    1 <= q < |line| && line[q] == ':' && SpacesThenParen(line[q + 1..])
  }

  /** The last header colon at or before `q`; the greedy `(.+)` takes the last one. */
  function LastHeaderColon(line: string, q: int): (r: Option<nat>)
    requires q < |line|
    ensures r.Some? ==> r.value <= q && HeaderColonAt(line, r.value)
    ensures r.Some? ==> forall p :: r.value < p <= q ==> !HeaderColonAt(line, p)
    ensures r.None? ==> forall p :: p <= q ==> !HeaderColonAt(line, p)
    decreases q
  {
    if q < 1 then None
    else if line[q] == ':' && SpacesThenParen(line[q + 1..]) then Some(q)
    else LastHeaderColon(line, q - 1)
  }

  /** The capture of `^(.+):\s+\(`: everything before the last header colon. */
  function HeaderPath(line: string): Option<string> {
    match LastHeaderColon(line, |line| - 1)
    case None => None
    case Some(q) => Some(line[..q])
  }

  /** A line has a header path exactly when it has a header colon; the path ends at the last one. */
  lemma HeaderPathCaptures(line: string)
    ensures HeaderPath(line).None? <==> forall q :: !HeaderColonAt(line, q)
    ensures HeaderPath(line).Some? ==> var path := HeaderPath(line).value;
      HeaderColonAt(line, |path|) && line[..|path|] == path
    ensures HeaderPath(line).Some? ==> forall q :: |HeaderPath(line).value| < q ==> !HeaderColonAt(line, q)
  {
  }

  /**
   * One line of flog's output: a method line above 20 gives one finding
   * for the current file, a method line at or below 20 nothing; a header
   * line that is not a method line changes the current file; anything else
   * is ignored.
   */
  function FlogStep(line: string, current: Option<string>): (r: (seq<QualityScan>, Option<string>))
    ensures MethodLine(line).Some? ==> r.1 == current
    ensures MethodLine(line).Some? ==>
      var sc := MethodLine(line).value;
      && (r.0 == [] <==> Complexity(sc) <= 20.0)
      && (Complexity(sc) > 20.0 ==> r.0 == [FlogResult(Complexity(sc), MethodInfo(line, sc), current)])
    ensures MethodLine(line).None? ==> r.0 == [] && r.1 == (if HeaderPath(line).Some? then HeaderPath(line) else current)
  {
    match MethodLine(line)
    case Some(sc) =>
      var c := Complexity(sc);
      (if c > 20.0 then [FlogResult(c, MethodInfo(line, sc), current)] else [], current)
    case None =>
      ([], if HeaderPath(line).Some? then HeaderPath(line) else current)
  }

  /** The findings of the remaining lines, given the current file. */
  function FlogFrom(lines: seq<string>, current: Option<string>): seq<QualityScan>
    decreases |lines|
  {
    if lines == [] then []
    else
      var step := FlogStep(lines[0], current);
      step.0 + FlogFrom(lines[1..], step.1)
  }

  /** What `parse_flog_results` appends for the lines of its output; no file is current at the start. */
  function FlogResults(lines: seq<string>): seq<QualityScan> {
    FlogFrom(lines, None)
  }

  /** Every flog finding is a valid static-analysis finding whose metric is above 20, high exactly above 40. */
  lemma {:induction false} FlogResultsAbove20(lines: seq<string>, current: Option<string>)
    ensures forall k :: 0 <= k < |FlogFrom(lines, current)| ==> FlogFinding(FlogFrom(lines, current)[k])
    decreases |lines|
  {
    if lines != [] {
      var step := FlogStep(lines[0], current);
      FlogResultsAbove20(lines[1..], step.1);
      var a, b := step.0, FlogFrom(lines[1..], step.1);
      FlogStepFinding(lines[0], current);
      Sorting.AllAppend(a, b, FlogFinding);
    }
  }

  lemma FlogStepFinding(line: string, current: Option<string>)
    ensures forall k :: 0 <= k < |FlogStep(line, current).0| ==> FlogFinding(FlogStep(line, current).0[k])
  {
  }

  /** A valid static-analysis finding whose metric is above 20, high exactly above 40. */
  predicate FlogFinding(r: QualityScan) {
    && r.scanType == "static_analysis" && Valid(r) && r.metricValue.Some? && r.metricValue.value > 20.0
    && (r.severity == Some("high") <==> r.metricValue.value > 40.0)
  }

  /** A method at or below the threshold leaves the findings and the current file as they were. */
  lemma FlogIgnoresLowComplexity(line: string, rest: seq<string>, current: Option<string>)
    requires MethodLine(line).Some? && Complexity(MethodLine(line).value) <= 20.0
    ensures FlogFrom([line] + rest, current) == FlogFrom(rest, current)
  {
    assert ([line] + rest)[1..] == rest;
  }

  /** After a header line, a method line above the threshold is reported in the header's file. */
  lemma FlogHeaderSetsFile(lines: seq<string>, current: Option<string>)
    requires |lines| >= 2
    requires MethodLine(lines[0]).None? && HeaderPath(lines[0]).Some?
    requires MethodLine(lines[1]).Some? && Complexity(MethodLine(lines[1]).value) > 20.0
    ensures var sc := MethodLine(lines[1]).value;
      FlogFrom(lines, current)
      == [FlogResult(Complexity(sc), MethodInfo(lines[1], sc), HeaderPath(lines[0]))]
         + FlogFrom(lines[2..], HeaderPath(lines[0]))
  {
    var file := HeaderPath(lines[0]);
    FlogStepHeader(lines[0], current);
    assert FlogFrom(lines, current) == FlogFrom(lines[1..], file);
    assert lines[1..][0] == lines[1] && lines[1..][1..] == lines[2..];
    FlogStepMethod(lines[1], file);
  }

  lemma FlogStepHeader(header: string, current: Option<string>)
    requires MethodLine(header).None? && HeaderPath(header).Some?
    ensures FlogStep(header, current) == ([], HeaderPath(header))
  {
  }

  lemma FlogStepMethod(line: string, current: Option<string>)
    requires MethodLine(line).Some? && Complexity(MethodLine(line).value) > 20.0
    ensures var sc := MethodLine(line).value;
      FlogStep(line, current) == ([FlogResult(Complexity(sc), MethodInfo(line, sc), current)], current)
  {
  }

  /** An empty line, such as a split of a trailing newline leaves, changes nothing. */
  lemma FlogIgnoresEmptyLine(rest: seq<string>, current: Option<string>)
    ensures FlogFrom([""] + rest, current) == FlogFrom(rest, current)
  {
    assert ([""] + rest)[1..] == rest;
  }

  // ---------------------------------------------------------------- flay

  predicate IsSimilarLine(line: string) {
    Text.Contains(line, "Similar code found")
  }

  /** A file location, `(.+\.rb):(\d+)`. */
  datatype FlayLocation = FlayLocation(path: string, line: nat)

  /** `.rb:` and a digit at `e - 3`, with at least one character before it. */
  predicate LocationColonAt(line: string, e: int) {
    4 <= e && e + 1 < |line| && line[e - 3..e] == ".rb" && line[e] == ':' && Text.IsDigit(line[e + 1])
  }

  /** The last location colon at or before `e`; the greedy `(.+)` takes the last one. */
  function LastLocationColon(line: string, e: int): (r: Option<nat>)
    requires e < |line|
    ensures r.Some? ==> r.value <= e && LocationColonAt(line, r.value)
    ensures r.Some? ==> forall p :: r.value < p <= e ==> !LocationColonAt(line, p)
    ensures r.None? ==> forall p :: p <= e ==> !LocationColonAt(line, p)
    decreases e
  {
    if e < 4 then None
    else if LocationColonAt(line, e) then Some(e)
    else LastLocationColon(line, e - 1)
  }

  /** The two captures: the path up to the last `.rb:` before a digit, and the digits after it. */
  function Location(line: string): Option<FlayLocation> {
    match LastLocationColon(line, |line| - 1)
    case None => None
    case Some(e) =>
      var d := Text.SpanEnd(line, e + 1, Text.IsDigit);
      Some(FlayLocation(line[..e], Text.DigitsValue(line[e + 1..d])))
  }

  /** A line has a location exactly when it has a location colon; the path ends at the last one. */
  lemma LocationCaptures(line: string)
    ensures Location(line).None? <==> forall e :: !LocationColonAt(line, e)
    ensures Location(line).Some? ==> var n := |Location(line).value.path|;
      && LocationColonAt(line, n) && line[..n] == Location(line).value.path
      && (forall e :: n < e ==> !LocationColonAt(line, e))
      && Location(line).value.line == Text.DigitsValue(line[n + 1..Text.SpanEnd(line, n + 1, Text.IsDigit)])
  {
  }

  /** A duplication finding: low, with the stripped line as its message and no location yet. */
  function FlayResult(line: string): (r: QualityScan)
    ensures r.scanType == "static_analysis" && r.severity == Some("low") && r.message == Some(Text.RubyStrip(line))
    ensures r.filePath.None? && r.lineNumber.None? && r.metricValue.None?
    ensures Valid(r)
  {
    QualityScan("static_analysis", Some("low"), Some(Text.RubyStrip(line)), None, None, None)
  }

  /** `||=`: the location fills the file and the line only where they are unset. */
  function Fill(r: QualityScan, loc: FlayLocation): (f: QualityScan)
    ensures f.filePath == (if r.filePath.Some? then r.filePath else Some(loc.path))
    ensures f.lineNumber == (if r.lineNumber.Some? then r.lineNumber else Some(loc.line))
    ensures f.(filePath := r.filePath, lineNumber := r.lineNumber) == r
  {
    r.(filePath := if r.filePath.Some? then r.filePath else Some(loc.path),
       lineNumber := if r.lineNumber.Some? then r.lineNumber else Some(loc.line))
  }

  /**
   * One line of flay's output: a "Similar code found" line appends a
   * finding; otherwise a location line fills the last finding so far, when
   * there is one, whichever parser produced it; any other line is ignored.
   */
  function FlayStep(results: seq<QualityScan>, line: string): seq<QualityScan> {
    if IsSimilarLine(line) then results + [FlayResult(line)]
    else if Location(line).Some? && |results| > 0 then
      results[|results| - 1 := Fill(results[|results| - 1], Location(line).value)]
    else results
  }

  /** The findings after the lines, one step at a time. */
  function FlayFold(results: seq<QualityScan>, lines: seq<string>): seq<QualityScan> {
    if lines == [] then results
    else FlayStep(FlayFold(results, lines[..|lines| - 1]), lines[|lines| - 1])
  }

  lemma FlayFoldPrefix(results: seq<QualityScan>, lines: seq<string>, i: int)
    requires 0 <= i < |lines|
    ensures FlayFold(results, lines[..i + 1]) == FlayStep(FlayFold(results, lines[..i]), lines[i])
  {
    assert lines[..i + 1][..i] == lines[..i];
  }

  lemma FlayStepLength(results: seq<QualityScan>, line: string)
    ensures |FlayStep(results, line)| == |results| + (if IsSimilarLine(line) then 1 else 0)
  {
  }

  /** Flay adds exactly one finding per "Similar code found" line. */
  lemma {:induction false} FlayCount(results: seq<QualityScan>, lines: seq<string>)
    ensures |FlayFold(results, lines)| == |results| + SimilarCount(lines)
    decreases |lines|
  {
    if lines != [] {
      FlayCount(results, lines[..|lines| - 1]);
      FlayStepLength(FlayFold(results, lines[..|lines| - 1]), lines[|lines| - 1]);
    }
  }

  /** The number of "Similar code found" lines. */
  function SimilarCount(lines: seq<string>): nat {
    if lines == [] then 0
    else SimilarCount(lines[..|lines| - 1]) + (if IsSimilarLine(lines[|lines| - 1]) then 1 else 0)
  }

  /** `after` is `before` with at most its unset file and line filled in. */
  predicate Fills(before: QualityScan, after: QualityScan) {
    && after.(filePath := before.filePath, lineNumber := before.lineNumber) == before
    && (before.filePath.Some? ==> after.filePath == before.filePath)
    && (before.lineNumber.Some? ==> after.lineNumber == before.lineNumber)
  }

  /** Filling a location keeps the type and the validity. */
  lemma FillsValid(before: QualityScan, after: QualityScan)
    requires Fills(before, after)
    ensures after.scanType == before.scanType && (Valid(after) <==> Valid(before))
  {
    assert after.severity == before.severity && after.message == before.message;
  }

  /** A finding flay adds: a valid low static-analysis finding without a metric. */
  predicate FlayAdded(r: QualityScan) {
    r.scanType == "static_analysis" && r.severity == Some("low") && r.metricValue.None? && Valid(r)
  }

  /** One step only fills the findings so far and adds flay findings after them. */
  lemma FlayStepFills(results: seq<QualityScan>, line: string)
    ensures |FlayStep(results, line)| >= |results|
    ensures forall k :: 0 <= k < |results| ==> Fills(results[k], FlayStep(results, line)[k])
    ensures forall k :: |results| <= k < |FlayStep(results, line)| ==> FlayAdded(FlayStep(results, line)[k])
  {
  }

  /**
   * Flay never changes what a finding is, only where it is, and never
   * overwrites a file or a line already set; the findings it adds are low.
   */
  lemma {:induction false} FlayOnlyFills(results: seq<QualityScan>, lines: seq<string>)
    ensures |FlayFold(results, lines)| >= |results|
    ensures forall k :: 0 <= k < |results| ==> Fills(results[k], FlayFold(results, lines)[k])
    ensures forall k :: |results| <= k < |FlayFold(results, lines)| ==> FlayAdded(FlayFold(results, lines)[k])
    decreases |lines|
  {
    if lines != [] {
      FlayOnlyFills(results, lines[..|lines| - 1]);
      var mid := FlayFold(results, lines[..|lines| - 1]);
      var after := FlayStep(mid, lines[|lines| - 1]);
      assert after == FlayFold(results, lines);
      FlayStepFills(mid, lines[|lines| - 1]);
      assert forall k :: 0 <= k < |results| ==> Fills(results[k], mid[k]);
      assert forall k :: |results| <= k < |mid| ==> FlayAdded(mid[k]);
    }
  }

  /** A valid static-analysis finding, which `create!` accepts. */
  predicate StaticFinding(r: QualityScan) {
    r.scanType == "static_analysis" && Valid(r)
  }

  lemma ReekValid(reek: Option<ReekReport>)
    ensures var a := if reek.Some? then ReekResults(reek.value) else [];
      forall k :: 0 <= k < |a| ==> StaticFinding(a[k])
  {
    if reek.Some? && reek.value.files.Some? {
      FilesSmellResultsMedium(reek.value.files.value);
    }
  }

  lemma FlogValid(lines: seq<string>)
    ensures forall k :: 0 <= k < |FlogResults(lines)| ==> StaticFinding(FlogResults(lines)[k])
  {
    FlogResultsAbove20(lines, None);
  }

  lemma FlayKeepsValid(results: seq<QualityScan>, lines: seq<string>)
    requires forall k :: 0 <= k < |results| ==> StaticFinding(results[k])
    ensures forall k :: 0 <= k < |FlayFold(results, lines)| ==> StaticFinding(FlayFold(results, lines)[k])
  {
    var c := FlayFold(results, lines);
    FlayOnlyFills(results, lines);
    forall k | 0 <= k < |c|
      ensures StaticFinding(c[k])
    {
      if k < |results| {
        FillsValid(results[k], c[k]);
      }
    }
  }

  // ---------------------------------------------------------------- summary

  /** The non-null metric values, as SQL's `AVG` reads them. */
  function MetricValues(scans: seq<QualityScan>): (vs: seq<real>)
    ensures |vs| <= |scans|
    ensures (forall k :: 0 <= k < |scans| ==> scans[k].metricValue.None?) ==> vs == []
  {
    if scans == [] then []
    else (if scans[0].metricValue.Some? then [scans[0].metricValue.value] else []) + MetricValues(scans[1..])
  }

  /** A lower bound on every metric value holds for every value averaged. */
  lemma {:induction false} MetricValuesAtLeast(scans: seq<QualityScan>, lo: real)
    requires forall k :: 0 <= k < |scans| && scans[k].metricValue.Some? ==> lo <= scans[k].metricValue.value
    ensures forall k :: 0 <= k < |MetricValues(scans)| ==> lo <= MetricValues(scans)[k]
    decreases |scans|
  {
    if scans != [] {
      MetricValuesAtLeast(scans[1..], lo);
    }
  }

  /** `average(:metric_value).to_f.round(2)`: 0.0 when no finding has a metric. */
  function AverageMetric(scans: seq<QualityScan>): (r: real)
    ensures MetricValues(scans) == [] ==> r == 0.0
    ensures MetricValues(scans) != [] ==> r == Numeric.RoundHundredths(Numeric.Mean(MetricValues(scans)))
    ensures (r * 100.0).Floor as real == r * 100.0
    ensures MetricValues(scans) != [] ==>
      Numeric.Mean(MetricValues(scans)) - 0.005 <= r <= Numeric.Mean(MetricValues(scans)) + 0.005
  {
    var vs := MetricValues(scans);
    if vs == [] then 0.0 else Numeric.RoundHundredths(Numeric.Mean(vs))
  }

  /** With every metric above 20, as flog's are, a non-zero average is at least 20. */
  lemma AverageOfFlogMetrics(scans: seq<QualityScan>)
    requires forall k :: 0 <= k < |scans| && scans[k].metricValue.Some? ==> scans[k].metricValue.value > 20.0
    ensures AverageMetric(scans) == 0.0 || AverageMetric(scans) >= 20.0
  {
    var vs := MetricValues(scans);
    if vs != [] {
      MetricValuesAtLeast(scans, 20.0);
      Numeric.MeanAtLeast(vs, 20.0);
      Numeric.RoundHundredthsMonotone(20.0, Numeric.Mean(vs));
      assert Numeric.RoundHundredths(20.0) == 20.0;
    }
  }

  /**
   * The summary `create_summary` saves: the RuboCop-style counts, and the
   * average metric in place of whatever average the row held.
   */
  function StaticSummary(prior: MetricSummaryModel.MetricSummary, scans: seq<QualityScan>, now: int)
    : (s: MetricSummaryModel.MetricSummary)
    ensures s.averageScore == Some(AverageMetric(scans))
    ensures s.(averageScore := prior.averageScore) == MetricSummaryModel.CountedSummary(prior, scans, now)
    ensures MetricSummaryModel.Status(s) == "critical" <==> |CriticalIssues(scans)| > 0
  {
    MetricSummaryModel.CountedSummary(prior, scans, now).(averageScore := Some(AverageMetric(scans)))
  }

  // ---------------------------------------------------------------- scanner

  class Scanner {
    var results: seq<QualityScan>

    constructor ()
      ensures results == []
    {
      results := [];
    }

    /** The inner loop of `parse_reek_results`: one file's smells. */
    method AppendSmellResults(f: ReekFile)
      modifies this
      ensures results == old(results) + SmellResults(f)
    {
      if f.smells.None? {
        return;
      }
      var smells := f.smells.value;
      var j := 0;
      while j < |smells|
        invariant 0 <= j <= |smells|
        invariant results == old(results) + SmellResults(f)[..j]
      {
        results := results + [SmellResult(smells[j])];
        assert SmellResults(f)[..j + 1] == SmellResults(f)[..j] + [SmellResult(smells[j])];
        j := j + 1;
      }
      assert SmellResults(f)[..j] == SmellResults(f);
    }

    /** `parse_reek_results`. */
    method ParseReekResults(data: ReekReport)
      modifies this
      ensures results == old(results) + ReekResults(data)
    {
      if data.files.None? {
        return;
      }
      var files := data.files.value;
      var i := 0;
      while i < |files|
        invariant 0 <= i <= |files|
        invariant results == old(results) + FilesSmellResults(files[..i])
      {
        Sorting.AppendAssoc(old(results), FilesSmellResults(files[..i]), SmellResults(files[i]));
        AppendSmellResults(files[i]);
        FilesSmellResultsPrefix(files, i);
        i := i + 1;
      }
      assert files[..i] == files;
    }

    /** `parse_flog_results`: the loop over the output's lines, tracking the current file. */
    method ParseFlogResults(output: string)
      modifies this
      ensures results == old(results) + FlogResults(Text.Split(output, '\n'))
    {
      var lines := Text.Split(output, '\n');
      var current: Option<string> := None;
      var i := 0;
      while i < |lines|
        invariant 0 <= i <= |lines|
        invariant results + FlogFrom(lines[i..], current) == old(results) + FlogFrom(lines, None)
      {
        var step := FlogStep(lines[i], current);
        assert lines[i..][1..] == lines[i + 1..];
        Sorting.AppendAssoc(results, step.0, FlogFrom(lines[i + 1..], step.1));
        results := results + step.0;
        current := step.1;
        i := i + 1;
      }
    }

    /** `parse_flay_results`: appends duplication findings and fills the last finding's location in place. */
    method ParseFlayResults(output: string)
      modifies this
      ensures results == FlayFold(old(results), Text.Split(output, '\n'))
    {
      var lines := Text.Split(output, '\n');
      var i := 0;
      while i < |lines|
        invariant 0 <= i <= |lines|
        invariant results == FlayFold(old(results), lines[..i])
      {
        var line := lines[i];
        FlayFoldPrefix(old(results), lines, i);
        ghost var next := FlayStep(results, line);
        if IsSimilarLine(line) {
          results := results + [FlayResult(line)];
        } else {
          var loc := Location(line);
          if loc.Some? && |results| > 0 {
            results := results[|results| - 1 := Fill(results[|results| - 1], loc.value)];
          }
        }
        assert results == next;
        i := i + 1;
      }
      assert lines[..i] == lines;
    }

    /** What the three parsers leave, in order, for the given outputs. */
    static function Collected(reek: Option<ReekReport>, flogOutput: string, flayOutput: string): seq<QualityScan> {
      FlayFold((if reek.Some? then ReekResults(reek.value) else []) + FlogResults(Text.Split(flogOutput, '\n')),
               Text.Split(flayOutput, '\n'))
    }

    /** Every collected finding is a valid static-analysis finding, so `create!` accepts them all. */
    static lemma CollectedValid(reek: Option<ReekReport>, flogOutput: string, flayOutput: string)
      ensures forall k :: 0 <= k < |Collected(reek, flogOutput, flayOutput)| ==>
        StaticFinding(Collected(reek, flogOutput, flayOutput)[k])
    {
      var a: seq<QualityScan> := if reek.Some? then ReekResults(reek.value) else [];
      var b: seq<QualityScan> := FlogResults(Text.Split(flogOutput, '\n'));
      ReekValid(reek);
      FlogValid(Text.Split(flogOutput, '\n'));
      Sorting.AllAppend(a, b, StaticFinding);
      FlayKeepsValid(a + b, Text.Split(flayOutput, '\n'));
    }

    /**
     * `scan`: nothing for an app whose directory is missing; otherwise reek
     * (no findings when it left no readable report), flog and flay run in
     * that order, their findings replace the app's static-analysis findings,
     * and the summary is saved.
     */
    method Scan(app: AppModel.App, appExists: bool, reek: Option<ReekReport>, flogOutput: string, flayOutput: string,
                now: int)
      requires results == []
      modifies this, app
      ensures !appExists ==>
        results == [] && app.qualityScans == old(app.qualityScans) && app.metricSummaries == old(app.metricSummaries)
      ensures appExists ==> results == Collected(reek, flogOutput, flayOutput)
      ensures appExists ==> app.qualityScans == AppModel.WithoutType(old(app.qualityScans), "static_analysis") + results
      ensures appExists ==> app.metricSummaries == AppModel.Upsert(old(app.metricSummaries),
        StaticSummary(AppModel.FindOrInitialize(old(app.metricSummaries), "static_analysis"), results, now))
      ensures app.status == old(app.status) && app.lastScannedAt == old(app.lastScannedAt)
    {
      if !appExists {
        return;
      }
      if reek.Some? {
        ParseReekResults(reek.value);
        assert results == [] + ReekResults(reek.value);
      }
      ghost var afterReek := results;
      assert afterReek == if reek.Some? then ReekResults(reek.value) else [];
      ParseFlogResults(flogOutput);
      ghost var afterFlog := results;
      ParseFlayResults(flayOutput);
      assert results == FlayFold(afterFlog, Text.Split(flayOutput, '\n'));
      assert results == Collected(reek, flogOutput, flayOutput);
      CollectedValid(reek, flogOutput, flayOutput);
      app.ReplaceScans("static_analysis", results);
      AppModel.ReplacedScansOfType(old(app.qualityScans), "static_analysis", results);
      var stored := ByType(app.qualityScans, "static_analysis");
      assert stored == results;
      app.SaveSummary(StaticSummary(app.SummaryFor("static_analysis"), stored, now));
    }
  }
}
