/** The three line patterns of parsetocsv (parsetocsv/parsetocsv.go, lines
    14-16), their matcher, and the classification of a log line (lines 49,
    63 and 81 try them in that order).

    A pattern is written as a list of elements that mirrors the regular
    expression: literals, repeated character classes (`[^;]+`, `\d+`,
    `[a-zA-Z]+`) and the parentheses of capture groups. In all three patterns
    every repeated class is followed by a literal whose first character the
    class excludes, or ends the pattern (`Separated`, proved below for the
    three). So at each class Go's leftmost-first greedy match takes the
    maximal run, which is the match this matcher finds: it scans maximal
    runs and never backtracks. */
module LinePatterns {
  import opened Results
  import opened Strconv

  /** Length of the maximal run of characters of class `p` at the start of `s`. */
  function RunLength(s: string, p: char -> bool): (j: nat)
    ensures j <= |s|
    ensures forall k :: 0 <= k < j ==> p(s[k])
    ensures j < |s| ==> !p(s[j])
  {
    if |s| == 0 || !p(s[0]) then 0 else 1 + RunLength(s[1..], p)
  }

  predicate NotSemicolon(c: char) {
    c != ';'
  }

  predicate NotColon(c: char) {
    c != ':'
  }

  predicate IsLetter(c: char) {
    'a' <= c <= 'z' || 'A' <= c <= 'Z'
  }

  // ---------------------------------------------------------------------
  // Patterns and the matcher

  datatype Element =
    | Lit(text: string)          // a literal
    | Run(chars: char -> bool)   // a character class, repeated one or more times
    | Open                       // `(`: a capture group starts
    | Close                      // `)`: the capture group ends

  type Pattern = seq<Element>

  /** `fileLine`: `^use_buffer=([^;]+); (/dev/[^:]+):` (line 15). */
  const FilePattern: Pattern :=
    [Lit("use_buffer="), Open, Run(NotSemicolon), Close, Lit("; "), Open, Lit("/dev/"), Run(NotColon), Close, Lit(":")]

  /** `runTypeLine`: `^use_buffer=([^;]+); write_buffer_bytes=(\d+); type=([a-zA-Z]+)` (line 14). */
  const RunTypePattern: Pattern :=
    [Lit("use_buffer="), Open, Run(NotSemicolon), Close,
     Lit("; write_buffer_bytes="), Open, Run(IsDigit), Close,
     Lit("; type="), Open, Run(IsLetter), Close]

  /** `resultLine` (line 16): `^buf_size=(\d+); duration=(\d+\.\d+s); num_syscalls=(\d+);
      (\d+\.\d+) MiB/s; \d+\.\d+ syscalls/s; short_reads=(\d+)`. */
  const ResultPattern: Pattern :=
    [Lit("buf_size="), Open, Run(IsDigit), Close,
     Lit("; duration="), Open, Run(IsDigit), Lit("."), Run(IsDigit), Lit("s"), Close,
     Lit("; num_syscalls="), Open, Run(IsDigit), Close,
     Lit("; "), Open, Run(IsDigit), Lit("."), Run(IsDigit), Close,
     Lit(" MiB/s; "), Run(IsDigit), Lit("."), Run(IsDigit),
     Lit(" syscalls/s; short_reads="), Open, Run(IsDigit), Close]

  /** The text of the capture group being read, if one is open. */
  function Grow(group: Option<string>, s: string): Option<string> {
    if group.Some? then Some(group.value + s) else None
  }

  /** Number of capture groups closed from element `k` on. */
  function Closes(pat: Pattern, k: nat): nat
    requires k <= |pat|
    decreases |pat| - k
  {
    if k == |pat| then 0 else Closes(pat, k + 1) + if pat[k].Close? then 1 else 0
  }

  /** Match elements `k..` of `pat` against the start of `s`; the captures in
      order, or `None`. The end is not anchored: what follows the last
      element is ignored. */
  function Match(s: string, pat: Pattern, k: nat, group: Option<string>): Option<seq<string>>
    requires k <= |pat|
    decreases |pat| - k
  {
    if k == |pat| then Some([])
    else
      match pat[k]
      case Lit(t) =>
        if |t| <= |s| && s[..|t|] == t then Match(s[|t|..], pat, k + 1, Grow(group, t)) else None
      case Run(p) =>
        var j := RunLength(s, p);
        if j == 0 then None else Match(s[j..], pat, k + 1, Grow(group, s[..j]))
      case Open =>
        Match(s, pat, k + 1, Some([]))
      case Close =>
        if group.None? then None
        else
          var rest := Match(s, pat, k + 1, None);
          if rest.None? then None else Some([group.value] + rest.value)
  }

  /** A match captures one string per group closed after element `k`. */
  lemma {:induction false} MatchCount(s: string, pat: Pattern, k: nat, group: Option<string>)
    requires k <= |pat|
    ensures Match(s, pat, k, group).Some? ==> |Match(s, pat, k, group).value| == Closes(pat, k)
    decreases |pat| - k
  {
    if k < |pat| {
      match pat[k]
      case Lit(t) =>
        if |t| <= |s| && s[..|t|] == t {
          MatchCount(s[|t|..], pat, k + 1, Grow(group, t));
        }
      case Run(p) =>
        var j := RunLength(s, p);
        MatchCount(s[j..], pat, k + 1, Grow(group, s[..j]));
      case Open =>
        MatchCount(s, pat, k + 1, Some([]));
      case Close =>
        MatchCount(s, pat, k + 1, None);
    }
  }

  // ---------------------------------------------------------------------
  // The three patterns element by element (stated once, used by the proofs)

  ghost predicate IsFilePattern(f: Pattern) {
    && |f| == 10
    && f[0] == Lit("use_buffer=") && f[1] == Open && f[2] == Run(NotSemicolon) && f[3] == Close
    && f[4] == Lit("; ") && f[5] == Open && f[6] == Lit("/dev/") && f[7] == Run(NotColon) && f[8] == Close
    && f[9] == Lit(":")
  }

  ghost predicate IsRunTypePattern(t: Pattern) {
    && |t| == 12
    && t[0] == Lit("use_buffer=") && t[1] == Open && t[2] == Run(NotSemicolon) && t[3] == Close
    && t[4] == Lit("; write_buffer_bytes=") && t[5] == Open && t[6] == Run(IsDigit) && t[7] == Close
    && t[8] == Lit("; type=") && t[9] == Open && t[10] == Run(IsLetter) && t[11] == Close
  }

  ghost predicate IsResultPattern(r: Pattern) {
    && |r| == 29
    && r[0] == Lit("buf_size=") && r[1] == Open && r[2] == Run(IsDigit) && r[3] == Close
    && r[4] == Lit("; duration=") && r[5] == Open && r[6] == Run(IsDigit) && r[7] == Lit(".")
    && r[8] == Run(IsDigit) && r[9] == Lit("s") && r[10] == Close
    && r[11] == Lit("; num_syscalls=") && r[12] == Open && r[13] == Run(IsDigit) && r[14] == Close
    && r[15] == Lit("; ") && r[16] == Open && r[17] == Run(IsDigit) && r[18] == Lit(".")
    && r[19] == Run(IsDigit) && r[20] == Close
    && r[21] == Lit(" MiB/s; ") && r[22] == Run(IsDigit) && r[23] == Lit(".") && r[24] == Run(IsDigit)
    && r[25] == Lit(" syscalls/s; short_reads=") && r[26] == Open && r[27] == Run(IsDigit) && r[28] == Close
  }

  lemma PatternsAre()
    ensures IsFilePattern(FilePattern)
    ensures IsRunTypePattern(RunTypePattern)
    ensures IsResultPattern(ResultPattern)
  {
    FilePatternIs();
    RunTypePatternIs();
    ResultPatternIs();
  }

  lemma FilePatternIs()
    ensures IsFilePattern(FilePattern)
  {
  }

  lemma RunTypePatternIs()
    ensures IsRunTypePattern(RunTypePattern)
  {
  }

  /** The result pattern, four elements at a time (a long literal is cheaper
      to inspect in pieces). */
  lemma ResultPatternIs()
    ensures IsResultPattern(ResultPattern)
  {
    ResultPatternA();
    ResultPatternB();
    ResultPatternC();
    ResultPatternD();
    ResultPatternE();
    ResultPatternF();
    ResultPatternG();
  }

  lemma ResultPatternA()
    ensures |ResultPattern| == 29
    ensures var r := ResultPattern; r[0] == Lit("buf_size=") && r[1] == Open && r[2] == Run(IsDigit) && r[3] == Close
  {
  }

  lemma ResultPatternB()
    ensures |ResultPattern| == 29
    ensures var r := ResultPattern; r[4] == Lit("; duration=") && r[5] == Open && r[6] == Run(IsDigit) && r[7] == Lit(".")
  {
  }

  lemma ResultPatternC()
    ensures |ResultPattern| == 29
    ensures var r := ResultPattern; r[8] == Run(IsDigit) && r[9] == Lit("s") && r[10] == Close && r[11] == Lit("; num_syscalls=")
  {
  }

  lemma ResultPatternD()
    ensures |ResultPattern| == 29
    ensures var r := ResultPattern; r[12] == Open && r[13] == Run(IsDigit) && r[14] == Close && r[15] == Lit("; ")
  {
  }

  lemma ResultPatternE()
    ensures |ResultPattern| == 29
    ensures var r := ResultPattern; r[16] == Open && r[17] == Run(IsDigit) && r[18] == Lit(".") && r[19] == Run(IsDigit)
  {
  }

  lemma ResultPatternF()
    ensures |ResultPattern| == 29
    ensures var r := ResultPattern; r[20] == Close && r[21] == Lit(" MiB/s; ") && r[22] == Run(IsDigit) && r[23] == Lit(".")
  {
  }

  lemma ResultPatternG()
    ensures |ResultPattern| == 29
    ensures var r := ResultPattern; r[24] == Run(IsDigit) && r[25] == Lit(" syscalls/s; short_reads=") && r[26] == Open && r[27] == Run(IsDigit) && r[28] == Close
  {
  }

  // ---------------------------------------------------------------------
  // Greedy runs are the only runs

  /** What element `k` matches starts with a character outside `p`: a literal
      that starts outside `p`, possibly behind group parentheses, or the end
      of the pattern. */
  ghost predicate StopsRun(pat: Pattern, k: nat, p: char -> bool)
    requires k <= |pat|
    decreases |pat| - k
  {
    k == |pat|
    || (pat[k].Lit? && |pat[k].text| > 0 && !p(pat[k].text[0]))
    || ((pat[k].Open? || pat[k].Close?) && StopsRun(pat, k + 1, p))
  }

  /** Every repeated class from element `k` on is stopped by what follows it. */
  ghost predicate SeparatedFrom(pat: Pattern, k: nat)
    requires k <= |pat|
    decreases |pat| - k
  {
    k == |pat|
    || ((pat[k].Run? ==> StopsRun(pat, k + 1, pat[k].chars)) && SeparatedFrom(pat, k + 1))
  }

  ghost predicate Separated(pat: Pattern) {
    SeparatedFrom(pat, 0)
  }

  lemma FileSeparated(f: Pattern)
    requires IsFilePattern(f)
    ensures Separated(f)
  {
    assert StopsRun(f, 9, NotColon);
    assert StopsRun(f, 8, NotColon);
    assert StopsRun(f, 4, NotSemicolon);
    assert StopsRun(f, 3, NotSemicolon);
    assert SeparatedFrom(f, 10) && SeparatedFrom(f, 9) && SeparatedFrom(f, 8) && SeparatedFrom(f, 7)
        && SeparatedFrom(f, 6) && SeparatedFrom(f, 5) && SeparatedFrom(f, 4) && SeparatedFrom(f, 3)
        && SeparatedFrom(f, 2) && SeparatedFrom(f, 1) && SeparatedFrom(f, 0);
  }

  lemma RunTypeSeparated(t: Pattern)
    requires IsRunTypePattern(t)
    ensures Separated(t)
  {
    assert StopsRun(t, 12, IsLetter) && StopsRun(t, 11, IsLetter);
    assert StopsRun(t, 8, IsDigit) && StopsRun(t, 7, IsDigit);
    assert StopsRun(t, 4, NotSemicolon) && StopsRun(t, 3, NotSemicolon);
    assert SeparatedFrom(t, 12) && SeparatedFrom(t, 11) && SeparatedFrom(t, 10) && SeparatedFrom(t, 9)
        && SeparatedFrom(t, 8) && SeparatedFrom(t, 7) && SeparatedFrom(t, 6) && SeparatedFrom(t, 5)
        && SeparatedFrom(t, 4) && SeparatedFrom(t, 3) && SeparatedFrom(t, 2) && SeparatedFrom(t, 1)
        && SeparatedFrom(t, 0);
  }

  lemma ResultSeparated(r: Pattern)
    requires IsResultPattern(r)
    ensures Separated(r)
  {
    assert StopsRun(r, 29, IsDigit) && StopsRun(r, 28, IsDigit);
    assert StopsRun(r, 25, IsDigit) && StopsRun(r, 23, IsDigit);
    assert StopsRun(r, 21, IsDigit) && StopsRun(r, 20, IsDigit);
    assert StopsRun(r, 18, IsDigit);
    assert StopsRun(r, 15, IsDigit) && StopsRun(r, 14, IsDigit);
    assert StopsRun(r, 9, IsDigit) && StopsRun(r, 7, IsDigit);
    assert StopsRun(r, 4, IsDigit) && StopsRun(r, 3, IsDigit);
    assert SeparatedFrom(r, 29) && SeparatedFrom(r, 28) && SeparatedFrom(r, 27) && SeparatedFrom(r, 26)
        && SeparatedFrom(r, 25) && SeparatedFrom(r, 24) && SeparatedFrom(r, 23) && SeparatedFrom(r, 22)
        && SeparatedFrom(r, 21) && SeparatedFrom(r, 20) && SeparatedFrom(r, 19) && SeparatedFrom(r, 18)
        && SeparatedFrom(r, 17) && SeparatedFrom(r, 16) && SeparatedFrom(r, 15) && SeparatedFrom(r, 14);
    assert SeparatedFrom(r, 13) && SeparatedFrom(r, 12) && SeparatedFrom(r, 11) && SeparatedFrom(r, 10)
        && SeparatedFrom(r, 9) && SeparatedFrom(r, 8) && SeparatedFrom(r, 7) && SeparatedFrom(r, 6)
        && SeparatedFrom(r, 5) && SeparatedFrom(r, 4) && SeparatedFrom(r, 3) && SeparatedFrom(r, 2)
        && SeparatedFrom(r, 1) && SeparatedFrom(r, 0);
  }

  /** The three patterns of parsetocsv are separated, so at each class Go's
      leftmost-first greedy match takes the maximal run, which is the match
      this matcher finds. */
  lemma PatternsSeparated()
    ensures Separated(FilePattern) && Separated(RunTypePattern) && Separated(ResultPattern)
  {
    PatternsAre();
    FileSeparated(FilePattern);
    RunTypeSeparated(RunTypePattern);
    ResultSeparated(ResultPattern);
  }

  // ---------------------------------------------------------------------
  // Classification

  datatype FileCaptures = FileCaptures(useBuffer: string, device: string)
  datatype RunTypeCaptures = RunTypeCaptures(useBuffer: string, writeBufferBytes: string, connectionType: string)
  datatype ResultCaptures = ResultCaptures(
    readBufferBytes: string, duration: string, numSyscalls: string, throughput: string, shortReads: string)

  lemma FileCloses(f: Pattern)
    requires IsFilePattern(f)
    ensures Closes(f, 0) == 2
  {
    assert Closes(f, 10) == 0 && Closes(f, 9) == 0 && Closes(f, 8) == 1 && Closes(f, 7) == 1
        && Closes(f, 6) == 1 && Closes(f, 5) == 1 && Closes(f, 4) == 1 && Closes(f, 3) == 2
        && Closes(f, 2) == 2 && Closes(f, 1) == 2;
  }

  lemma RunTypeCloses(t: Pattern)
    requires IsRunTypePattern(t)
    ensures Closes(t, 0) == 3
  {
    assert Closes(t, 12) == 0 && Closes(t, 11) == 1 && Closes(t, 10) == 1 && Closes(t, 9) == 1
        && Closes(t, 8) == 1 && Closes(t, 7) == 2 && Closes(t, 6) == 2 && Closes(t, 5) == 2
        && Closes(t, 4) == 2 && Closes(t, 3) == 3 && Closes(t, 2) == 3 && Closes(t, 1) == 3;
  }

  lemma ResultCloses(r: Pattern)
    requires IsResultPattern(r)
    ensures Closes(r, 0) == 5
  {
    assert Closes(r, 29) == 0 && Closes(r, 28) == 1 && Closes(r, 27) == 1 && Closes(r, 26) == 1
        && Closes(r, 25) == 1 && Closes(r, 24) == 1 && Closes(r, 23) == 1 && Closes(r, 22) == 1
        && Closes(r, 21) == 1 && Closes(r, 20) == 2 && Closes(r, 19) == 2 && Closes(r, 18) == 2
        && Closes(r, 17) == 2 && Closes(r, 16) == 2 && Closes(r, 15) == 2;
    assert Closes(r, 14) == 3 && Closes(r, 13) == 3 && Closes(r, 12) == 3 && Closes(r, 11) == 3
        && Closes(r, 10) == 4 && Closes(r, 9) == 4 && Closes(r, 8) == 4 && Closes(r, 7) == 4
        && Closes(r, 6) == 4 && Closes(r, 5) == 4 && Closes(r, 4) == 4 && Closes(r, 3) == 5
        && Closes(r, 2) == 5 && Closes(r, 1) == 5;
  }

  function MatchFileLine(line: string): (r: Option<FileCaptures>)
    ensures r.Some? <==> Match(line, FilePattern, 0, None).Some?
  {
    var m := Match(line, FilePattern, 0, None);
    PatternsAre();
    FileCloses(FilePattern);
    MatchCount(line, FilePattern, 0, None);
    if m.None? then None else Some(FileCaptures(m.value[0], m.value[1]))
  }

  function MatchRunTypeLine(line: string): (r: Option<RunTypeCaptures>)
    ensures r.Some? <==> Match(line, RunTypePattern, 0, None).Some?
  {
    var m := Match(line, RunTypePattern, 0, None);
    PatternsAre();
    RunTypeCloses(RunTypePattern);
    MatchCount(line, RunTypePattern, 0, None);
    if m.None? then None else Some(RunTypeCaptures(m.value[0], m.value[1], m.value[2]))
  }

  function MatchResultLine(line: string): (r: Option<ResultCaptures>)
    ensures r.Some? <==> Match(line, ResultPattern, 0, None).Some?
  {
    var m := Match(line, ResultPattern, 0, None);
    PatternsAre();
    ResultCloses(ResultPattern);
    MatchCount(line, ResultPattern, 0, None);
    if m.None? then None else Some(ResultCaptures(m.value[0], m.value[1], m.value[2], m.value[3], m.value[4]))
  }

  /** A classified input line: which pattern matched first, with its captures. */
  datatype Token =
    | FileHeader(file: FileCaptures)
    | RunTypeHeader(runType: RunTypeCaptures)
    | ResultLine(result: ResultCaptures)
    | Other

  /** The patterns are tried in the order file line, run-type line, result
      line; the first that matches wins. */
  function Classify(line: string): Token {
    match MatchFileLine(line)
    case Some(f) => FileHeader(f)
    case None =>
      match MatchRunTypeLine(line)
      case Some(t) => RunTypeHeader(t)
      case None =>
        match MatchResultLine(line)
        case Some(r) => ResultLine(r)
        case None => Other
  }

  // ---------------------------------------------------------------------
  // Single matching steps

  /** A match goes past a literal element only where the literal occurs. */
  lemma LitMatched(s: string, pat: Pattern, k: nat, group: Option<string>)
    requires k < |pat| && pat[k].Lit?
    requires Match(s, pat, k, group).Some?
    ensures |pat[k].text| <= |s| && s[..|pat[k].text|] == pat[k].text
    ensures Match(s[|pat[k].text|..], pat, k + 1, Grow(group, pat[k].text)).Some?
  {
  }

  /** A match goes past a repeated class only over a non-empty maximal run. */
  lemma RunMatched(s: string, pat: Pattern, k: nat, group: Option<string>)
    requires k < |pat| && pat[k].Run?
    requires Match(s, pat, k, group).Some?
    ensures var j := RunLength(s, pat[k].chars);
            j > 0 && Match(s[j..], pat, k + 1, Grow(group, s[..j])).Some?
  {
  }

  lemma GroupMatched(s: string, pat: Pattern, k: nat, group: Option<string>)
    requires k < |pat| && (pat[k].Open? || pat[k].Close?)
    requires Match(s, pat, k, group).Some?
    ensures pat[k].Open? ==> Match(s, pat, k + 1, Some([])).Some?
    ensures pat[k].Close? ==> Match(s, pat, k + 1, None).Some?
  {
  }

  /** A literal in front of the input is consumed. */
  lemma LitStep(t: string, s: string, pat: Pattern, k: nat, group: Option<string>)
    requires k < |pat| && pat[k] == Lit(t)
    ensures Match(t + s, pat, k, group) == Match(s, pat, k + 1, Grow(group, t))
  {
    assert (t + s)[..|t|] == t;
    assert (t + s)[|t|..] == s;
  }

  /** A run of the class in front of the input, not followed by another
      character of the class, is consumed whole. */
  lemma RunStep(x: string, s: string, pat: Pattern, k: nat, group: Option<string>)
    requires k < |pat| && pat[k].Run?
    requires |x| > 0 && forall i :: 0 <= i < |x| ==> pat[k].chars(x[i])
    requires |s| > 0 ==> !pat[k].chars(s[0])
    ensures Match(x + s, pat, k, group) == Match(s, pat, k + 1, Grow(group, x))
  {
    RunOver(x, s, pat[k].chars);
    assert (x + s)[..|x|] == x;
    assert (x + s)[|x|..] == s;
  }

  lemma {:induction false} RunOver(x: string, s: string, p: char -> bool)
    requires forall i :: 0 <= i < |x| ==> p(x[i])
    requires |s| > 0 ==> !p(s[0])
    ensures RunLength(x + s, p) == |x|
    decreases |x|
  {
    if |x| == 0 {
      assert x + s == s;
    } else {
      assert (x + s)[1..] == x[1..] + s;
      RunOver(x[1..], s, p);
    }
  }

  lemma OpenStep(s: string, pat: Pattern, k: nat, group: Option<string>)
    requires k < |pat| && pat[k] == Open
    ensures Match(s, pat, k, group) == Match(s, pat, k + 1, Some([]))
  {
  }

  lemma CloseStep(s: string, pat: Pattern, k: nat, g: string, rest: seq<string>)
    requires k < |pat| && pat[k] == Close
    requires Match(s, pat, k + 1, None) == Some(rest)
    ensures Match(s, pat, k, Some(g)) == Some([g] + rest)
  {
  }

  // ---------------------------------------------------------------------
  // No line matches two patterns

  /** What a file line looks like up to the start of its device path. */
  lemma FileLineStart(line: string, f: Pattern)
    requires IsFilePattern(f) && Match(line, f, 0, None).Some?
    ensures |line| >= 11 && line[0] == 'u'
    ensures var s := line[11..]; var j := RunLength(s, NotSemicolon);
            j + 2 < |s| && s[j + 2] == '/'
  {
    LitMatched(line, f, 0, None);
    assert line[0] == line[..11][0];
    var s := line[11..];
    var j := RunLength(s, NotSemicolon);
    GroupMatched(s, f, 1, None);
    RunMatched(s, f, 2, Some([]));
    GroupMatched(s[j..], f, 3, Grow(Some([]), s[..j]));
    LitMatched(s[j..], f, 4, None);
    GroupMatched(s[j..][2..], f, 5, None);
    LitMatched(s[j..][2..], f, 6, Some([]));
    assert s[j + 2] == s[j..][2..][..5][0];
  }

  /** What a run-type line looks like up to its first 'w'. */
  lemma RunTypeLineStart(line: string, t: Pattern)
    requires IsRunTypePattern(t) && Match(line, t, 0, None).Some?
    ensures |line| >= 11 && line[0] == 'u'
    ensures var s := line[11..]; var j := RunLength(s, NotSemicolon);
            j + 2 < |s| && s[j + 2] == 'w'
  {
    RunTypeFlagMatched(line, t);
    var s := line[11..];
    var j := RunLength(s, NotSemicolon);
    var u := s[j..];
    LitMatched(u, t, 4, None);
    SizeLiteralAt(u);
    assert s[j + 2] == u[2];
  }

  /** A run-type match reads "use_buffer=", then the flag up to the first ';'. */
  lemma RunTypeFlagMatched(line: string, t: Pattern)
    requires IsRunTypePattern(t) && Match(line, t, 0, None).Some?
    ensures |line| >= 11 && line[0] == 'u'
    ensures var s := line[11..]; var j := RunLength(s, NotSemicolon);
            j <= |s| && Match(s[j..], t, 4, None).Some?
  {
    LitMatched(line, t, 0, None);
    assert line[0] == line[..11][0];
    var s := line[11..];
    var j := RunLength(s, NotSemicolon);
    GroupMatched(s, t, 1, None);
    RunMatched(s, t, 2, Some([]));
    GroupMatched(s[j..], t, 3, Grow(Some([]), s[..j]));
  }

  lemma SizeLiteralAt(u: string)
    requires 21 <= |u| && u[..21] == "; write_buffer_bytes="
    ensures u[2] == 'w'
  {
    assert u[2] == u[..21][2];
  }

  lemma ResultLineStart(line: string, r: Pattern)
    requires IsResultPattern(r) && Match(line, r, 0, None).Some?
    ensures |line| > 0 && line[0] == 'b'
  {
    LitMatched(line, r, 0, None);
    assert line[0] == line[..9][0];
  }

  /** No line matches two of the patterns, so the order in which they are
      tried does not matter: the two header patterns part at the character
      after "use_buffer=...; ", and result lines start differently. */
  lemma PatternsExclusive(line: string)
    ensures MatchFileLine(line).Some? ==> MatchRunTypeLine(line).None? && MatchResultLine(line).None?
    ensures MatchRunTypeLine(line).Some? ==> MatchResultLine(line).None?
  {
    PatternsAre();
    if MatchFileLine(line).Some? {
      FileLineStart(line, FilePattern);
      if MatchRunTypeLine(line).Some? {
        RunTypeLineStart(line, RunTypePattern);
      }
      if MatchResultLine(line).Some? {
        ResultLineStart(line, ResultPattern);
      }
    }
    if MatchRunTypeLine(line).Some? {
      RunTypeLineStart(line, RunTypePattern);
      if MatchResultLine(line).Some? {
        ResultLineStart(line, ResultPattern);
      }
    }
  }

  // ---------------------------------------------------------------------
  // Round trips: a line built from captures of the right shape matches
  // with exactly those captures

  /** "use_buffer=<flag>; write_buffer_bytes=<size>; type=<kind>" followed by `rest`. */
  function RunTypeText(flag: string, size: string, kind: string, rest: string): string {
    "use_buffer=" + (flag + ("; write_buffer_bytes=" + (size + ("; type=" + (kind + rest)))))
  }

  predicate AllIn(s: string, p: char -> bool) {
    forall i :: 0 <= i < |s| ==> p(s[i])
  }

  /** A capture a repeated class can produce: non-empty, all in the class. */
  predicate Capturable(s: string, p: char -> bool) {
    |s| > 0 && AllIn(s, p)
  }

  /** `s` does not continue a run of class `p`. */
  predicate Stops(s: string, p: char -> bool) {
    |s| > 0 ==> !p(s[0])
  }

  lemma EmptyGrow(x: string)
    ensures Grow(Some([]), x) == Some(x)
  {
    assert [] + x == x;
  }

  /** One captured run: `Open, Run(p), Close` at `k` over `x + s` captures `x`. */
  lemma CaptureStep(x: string, s: string, pat: Pattern, k: nat, p: char -> bool, rest: seq<string>)
    requires k + 2 < |pat| && pat[k] == Open && pat[k + 1] == Run(p) && pat[k + 2] == Close
    requires Capturable(x, p) && Stops(s, p)
    requires Match(s, pat, k + 3, None) == Some(rest)
    ensures Match(x + s, pat, k, None) == Some([x] + rest)
  {
    CloseStep(s, pat, k + 2, x, rest);
    EmptyGrow(x);
    RunStep(x, s, pat, k + 1, Some([]));
    OpenStep(x + s, pat, k, None);
  }

  lemma RunTypeRoundTripFrom(t: Pattern, flag: string, size: string, kind: string, rest: string)
    requires IsRunTypePattern(t)
    requires Capturable(flag, NotSemicolon) && Capturable(size, IsDigit) && Capturable(kind, IsLetter)
    requires Stops(rest, IsLetter)
    ensures Match(RunTypeText(flag, size, kind, rest), t, 0, None) == Some([flag, size, kind])
  {
    var s4 := "; write_buffer_bytes=" + (size + ("; type=" + (kind + rest)));
    RunTypeSizeFrom(t, size, kind, rest);
    CaptureStep(flag, s4, t, 1, NotSemicolon, [size, kind]);
    assert [flag] + [size, kind] == [flag, size, kind];
    LitStep("use_buffer=", flag + s4, t, 0, None);
  }

  /** From the write-buffer-size literal on, a run-type text yields the size and the type. */
  lemma RunTypeSizeFrom(t: Pattern, size: string, kind: string, rest: string)
    requires IsRunTypePattern(t)
    requires Capturable(size, IsDigit) && Capturable(kind, IsLetter)
    requires Stops(rest, IsLetter)
    ensures Match("; write_buffer_bytes=" + (size + ("; type=" + (kind + rest))), t, 4, None) == Some([size, kind])
  {
    var s8 := "; type=" + (kind + rest);
    CaptureStep(kind, rest, t, 9, IsLetter, []);
    assert [kind] + [] == [kind];
    LitStep("; type=", kind + rest, t, 8, None);
    assert Match(s8, t, 8, None) == Some([kind]);
    CaptureStep(size, s8, t, 5, IsDigit, [kind]);
    assert [size] + [kind] == [size, kind];
    LitStep("; write_buffer_bytes=", size + s8, t, 4, None);
  }

  /** The header main prints before a socket run classifies as a run-type
      line with its three fields (`rest` is what follows the connection type). */
  lemma RunTypeRoundTrip(flag: string, size: string, kind: string, rest: string)
    requires Capturable(flag, NotSemicolon) && Capturable(size, IsDigit) && Capturable(kind, IsLetter)
    requires Stops(rest, IsLetter)
    ensures MatchRunTypeLine(RunTypeText(flag, size, kind, rest)) == Some(RunTypeCaptures(flag, size, kind))
  {
    PatternsAre();
    RunTypeRoundTripFrom(RunTypePattern, flag, size, kind, rest);
  }

  /** "use_buffer=<flag>; /dev/<device>:" followed by `rest`. */
  function FileText(flag: string, device: string, rest: string): string {
    "use_buffer=" + (flag + ("; " + ("/dev/" + (device + (":" + rest)))))
  }

  /** The device group: `Open, Lit("/dev/"), Run(NotColon), Close` and the final ':'. */
  lemma DeviceFrom(f: Pattern, device: string, rest: string)
    requires IsFilePattern(f) && Capturable(device, NotColon)
    ensures Match("/dev/" + (device + (":" + rest)), f, 5, None) == Some(["/dev/" + device])
  {
    var s7 := device + (":" + rest);
    LitStep(":", rest, f, 9, None);
    CloseStep(":" + rest, f, 8, "/dev/" + device, []);
    RunStep(device, ":" + rest, f, 7, Some("/dev/"));
    EmptyGrow("/dev/");
    LitStep("/dev/", s7, f, 6, Some([]));
    OpenStep("/dev/" + s7, f, 5, None);
    assert ["/dev/" + device] + [] == ["/dev/" + device];
  }

  lemma FileRoundTripFrom(f: Pattern, flag: string, device: string, rest: string)
    requires IsFilePattern(f)
    requires Capturable(flag, NotSemicolon) && Capturable(device, NotColon)
    ensures Match(FileText(flag, device, rest), f, 0, None) == Some([flag, "/dev/" + device])
  {
    var s5 := "/dev/" + (device + (":" + rest));
    DeviceFrom(f, device, rest);
    LitStep("; ", s5, f, 4, None);
    CaptureStep(flag, "; " + s5, f, 1, NotSemicolon, ["/dev/" + device]);
    assert [flag] + ["/dev/" + device] == [flag, "/dev/" + device];
    LitStep("use_buffer=", flag + ("; " + s5), f, 0, None);
  }

  /** The header main prints before a run on a device file classifies as a
      file line; the device capture keeps its "/dev/" prefix. */
  lemma FileRoundTrip(flag: string, device: string, rest: string)
    requires Capturable(flag, NotSemicolon) && Capturable(device, NotColon)
    ensures MatchFileLine(FileText(flag, device, rest)) == Some(FileCaptures(flag, "/dev/" + device))
  {
    PatternsAre();
    FileRoundTripFrom(FilePattern, flag, device, rest);
  }

  /** A decimal number as the result line prints it: digits, '.', digits. */
  datatype Decimal = Decimal(whole: string, fraction: string)

  function DecimalText(d: Decimal): string {
    d.whole + "." + d.fraction
  }

  predicate IsDecimal(d: Decimal) {
    Capturable(d.whole, IsDigit) && Capturable(d.fraction, IsDigit)
  }

  /** The fields of a result line as main prints them (main.rs line 291). */
  datatype ResultFields = ResultFields(
    bufSize: string, duration: Decimal, numSyscalls: string, throughput: Decimal, syscallRate: Decimal,
    shortReads: string)

  predicate IsResultFields(r: ResultFields) {
    && Capturable(r.bufSize, IsDigit) && IsDecimal(r.duration) && Capturable(r.numSyscalls, IsDigit)
    && IsDecimal(r.throughput) && IsDecimal(r.syscallRate) && Capturable(r.shortReads, IsDigit)
  }

  /** `d` then `s`, nested to the right. */
  function DecimalThen(d: Decimal, s: string): string {
    d.whole + ("." + (d.fraction + s))
  }

  /** "buf_size=<n>; duration=<d>s; num_syscalls=<n>; <t> MiB/s; <r> syscalls/s; short_reads=<n>"
      followed by `rest`. */
  function ResultText(r: ResultFields, rest: string): string {
    "buf_size=" + (r.bufSize + ("; duration=" + DecimalThen(r.duration, "s" + ("; num_syscalls=" + (r.numSyscalls
      + ("; " + DecimalThen(r.throughput, " MiB/s; " + DecimalThen(r.syscallRate,
        " syscalls/s; short_reads=" + (r.shortReads + rest)))))))))
  }

  /** A decimal run, `Run(IsDigit), Lit("."), Run(IsDigit)` at `k`, inside the group read so far. */
  lemma DecimalStep(d: Decimal, s: string, pat: Pattern, k: nat, group: Option<string>)
    requires k + 2 < |pat| && pat[k] == Run(IsDigit) && pat[k + 1] == Lit(".") && pat[k + 2] == Run(IsDigit)
    requires IsDecimal(d) && Stops(s, IsDigit)
    ensures Match(DecimalThen(d, s), pat, k, group) == Match(s, pat, k + 3, Grow(Grow(Grow(group, d.whole), "."), d.fraction))
  {
    RunStep(d.fraction, s, pat, k + 2, Grow(Grow(group, d.whole), "."));
    LitStep(".", d.fraction + s, pat, k + 1, Grow(group, d.whole));
    RunStep(d.whole, "." + (d.fraction + s), pat, k, group);
  }

  lemma ResultTailFrom(r: Pattern, rate: Decimal, shortReads: string, rest: string)
    requires IsResultPattern(r)
    requires IsDecimal(rate) && Capturable(shortReads, IsDigit) && Stops(rest, IsDigit)
    ensures Match(" MiB/s; " + DecimalThen(rate, " syscalls/s; short_reads=" + (shortReads + rest)), r, 21, None)
         == Some([shortReads])
  {
    var s25 := " syscalls/s; short_reads=" + (shortReads + rest);
    CaptureStep(shortReads, rest, r, 26, IsDigit, []);
    assert [shortReads] + [] == [shortReads];
    LitStep(" syscalls/s; short_reads=", shortReads + rest, r, 25, None);
    DecimalStep(rate, s25, r, 22, None);
    LitStep(" MiB/s; ", DecimalThen(rate, s25), r, 21, None);
  }

  /** The throughput group, `Open, Run(IsDigit), Lit("."), Run(IsDigit), Close` at 16. */
  lemma ThroughputFrom(r: Pattern, throughput: Decimal, s21: string, tail: seq<string>)
    requires IsResultPattern(r)
    requires IsDecimal(throughput)
    requires Stops(s21, IsDigit) && Match(s21, r, 21, None) == Some(tail)
    ensures Match(DecimalThen(throughput, s21), r, 16, None) == Some([DecimalText(throughput)] + tail)
  {
    CloseStep(s21, r, 20, DecimalText(throughput), tail);
    EmptyGrow(throughput.whole);
    DecimalStep(throughput, s21, r, 17, Some([]));
    OpenStep(DecimalThen(throughput, s21), r, 16, None);
  }

  lemma ResultMiddleFrom(r: Pattern, numSyscalls: string, throughput: Decimal, s21: string, tail: seq<string>)
    requires IsResultPattern(r)
    requires Capturable(numSyscalls, IsDigit) && IsDecimal(throughput)
    requires Stops(s21, IsDigit) && Match(s21, r, 21, None) == Some(tail)
    ensures Match("; num_syscalls=" + (numSyscalls + ("; " + DecimalThen(throughput, s21))), r, 11, None)
         == Some([numSyscalls, DecimalText(throughput)] + tail)
  {
    var s15 := "; " + DecimalThen(throughput, s21);
    ThroughputFrom(r, throughput, s21, tail);
    LitStep("; ", DecimalThen(throughput, s21), r, 15, None);
    CaptureStep(numSyscalls, s15, r, 12, IsDigit, [DecimalText(throughput)] + tail);
    assert [numSyscalls] + ([DecimalText(throughput)] + tail) == [numSyscalls, DecimalText(throughput)] + tail;
    LitStep("; num_syscalls=", numSyscalls + s15, r, 11, None);
  }

  lemma ResultHeadFrom(r: Pattern, bufSize: string, duration: Decimal, s11: string, tail: seq<string>)
    requires IsResultPattern(r)
    requires Capturable(bufSize, IsDigit) && IsDecimal(duration)
    requires Match(s11, r, 11, None) == Some(tail)
    ensures Match("buf_size=" + (bufSize + ("; duration=" + DecimalThen(duration, "s" + s11))), r, 0, None)
         == Some([bufSize, DecimalText(duration) + "s"] + tail)
  {
    var s4 := "; duration=" + DecimalThen(duration, "s" + s11);
    CloseStep(s11, r, 10, DecimalText(duration) + "s", tail);
    LitStep("s", s11, r, 9, Some(DecimalText(duration)));
    EmptyGrow(duration.whole);
    DecimalStep(duration, "s" + s11, r, 6, Some([]));
    OpenStep(DecimalThen(duration, "s" + s11), r, 5, None);
    LitStep("; duration=", DecimalThen(duration, "s" + s11), r, 4, None);
    assert Match(s4, r, 4, None) == Some([DecimalText(duration) + "s"] + tail);
    CaptureStep(bufSize, s4, r, 1, IsDigit, [DecimalText(duration) + "s"] + tail);
    assert [bufSize] + ([DecimalText(duration) + "s"] + tail) == [bufSize, DecimalText(duration) + "s"] + tail;
    LitStep("buf_size=", bufSize + s4, r, 0, None);
  }

  lemma ResultRoundTripFrom(r: Pattern, fields: ResultFields, rest: string)
    requires IsResultPattern(r)
    requires IsResultFields(fields) && Stops(rest, IsDigit)
    ensures Match(ResultText(fields, rest), r, 0, None)
         == Some([fields.bufSize, DecimalText(fields.duration) + "s", fields.numSyscalls,
                  DecimalText(fields.throughput), fields.shortReads])
  {
    var s21 := " MiB/s; " + DecimalThen(fields.syscallRate, " syscalls/s; short_reads=" + (fields.shortReads + rest));
    ResultTailFrom(r, fields.syscallRate, fields.shortReads, rest);
    assert s21[0] == ' ';
    ResultMiddleFrom(r, fields.numSyscalls, fields.throughput, s21, [fields.shortReads]);
    var s11 := "; num_syscalls=" + (fields.numSyscalls + ("; " + DecimalThen(fields.throughput, s21)));
    var tail := [fields.numSyscalls, DecimalText(fields.throughput)] + [fields.shortReads];
    ResultHeadFrom(r, fields.bufSize, fields.duration, s11, tail);
    assert ResultText(fields, rest) == "buf_size=" + (fields.bufSize + ("; duration=" + DecimalThen(fields.duration, "s" + s11)));
    assert [fields.bufSize, DecimalText(fields.duration) + "s"] + tail
        == [fields.bufSize, DecimalText(fields.duration) + "s", fields.numSyscalls, DecimalText(fields.throughput), fields.shortReads];
  }

  /** A result line as main prints it classifies as a result line whose
      captures are its buffer size, duration (with its unit), syscall count,
      throughput and short-read count; the syscall rate is matched but not
      captured. */
  lemma ResultRoundTrip(fields: ResultFields, rest: string)
    requires IsResultFields(fields) && Stops(rest, IsDigit)
    ensures MatchResultLine(ResultText(fields, rest)) == Some(ResultCaptures(
      fields.bufSize, DecimalText(fields.duration) + "s", fields.numSyscalls, DecimalText(fields.throughput),
      fields.shortReads))
  {
    PatternsAre();
    ResultRoundTripFrom(ResultPattern, fields, rest);
  }

  // ---------------------------------------------------------------------
  // Converse: a match fixes the shape of the line

  /** Past a literal, the input starts with the literal. */
  lemma LitTaken(s: string, pat: Pattern, k: nat, t: string, group: Option<string>, m: seq<string>)
    returns (after: string)
    requires k < |pat| && pat[k] == Lit(t)
    requires Match(s, pat, k, group) == Some(m)
    ensures s == t + after && Match(after, pat, k + 1, Grow(group, t)) == Some(m)
  {
    after := s[|t|..];
    assert s == s[..|t|] + after;
  }

  /** Past a repeated class, the input starts with a maximal run of it. */
  lemma RunTaken(s: string, pat: Pattern, k: nat, group: Option<string>, m: seq<string>)
    returns (x: string, after: string)
    requires k < |pat| && pat[k].Run?
    requires Match(s, pat, k, group) == Some(m)
    ensures Capturable(x, pat[k].chars) && Stops(after, pat[k].chars) && s == x + after
    ensures Match(after, pat, k + 1, Grow(group, x)) == Some(m)
  {
    var j := RunLength(s, pat[k].chars);
    x, after := s[..j], s[j..];
    assert s == x + after;
  }

  /** Past a captured run, the capture is the maximal run at the start of the input. */
  lemma CaptureTaken(s: string, pat: Pattern, k: nat, p: char -> bool, caps: seq<string>)
    returns (x: string, after: string)
    requires k + 2 < |pat| && pat[k] == Open && pat[k + 1] == Run(p) && pat[k + 2] == Close
    requires Match(s, pat, k, None) == Some(caps)
    ensures Capturable(x, p) && Stops(after, p) && s == x + after
    ensures |caps| > 0 && caps[0] == x && Match(after, pat, k + 3, None) == Some(caps[1..])
  {
    OpenStep(s, pat, k, None);
    x, after := RunTaken(s, pat, k + 1, Some([]), caps);
    EmptyGrow(x);
  }

  /** Past a decimal run, the input starts with the decimal. */
  lemma DecimalTaken(s: string, pat: Pattern, k: nat, group: Option<string>, m: seq<string>)
    returns (d: Decimal, after: string)
    requires k + 2 < |pat| && pat[k] == Run(IsDigit) && pat[k + 1] == Lit(".") && pat[k + 2] == Run(IsDigit)
    requires Match(s, pat, k, group) == Some(m)
    ensures IsDecimal(d) && Stops(after, IsDigit) && s == DecimalThen(d, after)
    ensures Match(after, pat, k + 3, Grow(Grow(Grow(group, d.whole), "."), d.fraction)) == Some(m)
  {
    var whole, s1 := RunTaken(s, pat, k, group, m);
    var s2 := LitTaken(s1, pat, k + 1, ".", Grow(group, whole), m);
    var fraction;
    fraction, after := RunTaken(s2, pat, k + 2, Grow(Grow(group, whole), "."), m);
    d := Decimal(whole, fraction);
  }

  /** The run-type line from its write-buffer size on. */
  lemma RunTypeTailTaken(t: Pattern, s4: string, caps: seq<string>) returns (size: string, kind: string, rest: string)
    requires IsRunTypePattern(t) && Match(s4, t, 4, None) == Some(caps)
    ensures caps == [size, kind] && Capturable(size, IsDigit) && Capturable(kind, IsLetter)
    ensures Stops(rest, IsLetter) && s4 == "; write_buffer_bytes=" + (size + ("; type=" + (kind + rest)))
  {
    var s5 := LitTaken(s4, t, 4, "; write_buffer_bytes=", None, caps);
    var s8;
    size, s8 := CaptureTaken(s5, t, 5, IsDigit, caps);
    var s9 := LitTaken(s8, t, 8, "; type=", None, caps[1..]);
    kind, rest := CaptureTaken(s9, t, 9, IsLetter, caps[1..]);
    assert caps[1..][1..] == [];
    assert caps == [size, kind];
  }

  lemma RunTypeShapeFrom(t: Pattern, line: string, caps: seq<string>) returns (rest: string)
    requires IsRunTypePattern(t) && Match(line, t, 0, None) == Some(caps)
    ensures |caps| == 3
    ensures Capturable(caps[0], NotSemicolon) && Capturable(caps[1], IsDigit) && Capturable(caps[2], IsLetter)
    ensures Stops(rest, IsLetter) && line == RunTypeText(caps[0], caps[1], caps[2], rest)
  {
    var s1 := LitTaken(line, t, 0, "use_buffer=", None, caps);
    var flag, s4 := CaptureTaken(s1, t, 1, NotSemicolon, caps);
    var size, kind;
    size, kind, rest := RunTypeTailTaken(t, s4, caps[1..]);
    assert caps == [flag] + caps[1..] == [flag, size, kind];
    assert line == RunTypeText(flag, size, kind, rest);
  }

  /** Every line the run-type pattern accepts is a run-type header as main
      prints it, with the captures as its fields. */
  lemma RunTypeLineShape(line: string)
    requires MatchRunTypeLine(line).Some?
    ensures var c := MatchRunTypeLine(line).value;
      && Capturable(c.useBuffer, NotSemicolon) && Capturable(c.writeBufferBytes, IsDigit)
      && Capturable(c.connectionType, IsLetter)
      && exists rest :: Stops(rest, IsLetter) && line == RunTypeText(c.useBuffer, c.writeBufferBytes, c.connectionType, rest)
  {
    PatternsAre();
    RunTypeCloses(RunTypePattern);
    MatchCount(line, RunTypePattern, 0, None);
    var rest := RunTypeShapeFrom(RunTypePattern, line, Match(line, RunTypePattern, 0, None).value);
  }

  /** The file line from its device group on. */
  lemma FileTailTaken(f: Pattern, s5: string, caps: seq<string>) returns (device: string, rest: string)
    requires IsFilePattern(f) && Match(s5, f, 5, None) == Some(caps)
    ensures caps == ["/dev/" + device] && Capturable(device, NotColon)
    ensures s5 == "/dev/" + (device + (":" + rest))
  {
    OpenStep(s5, f, 5, None);
    var s7 := LitTaken(s5, f, 6, "/dev/", Some([]), caps);
    EmptyGrow("/dev/");
    var s8;
    device, s8 := RunTaken(s7, f, 7, Some("/dev/"), caps);
    CloseStep(s8, f, 8, "/dev/" + device, caps[1..]);
    rest := LitTaken(s8, f, 9, ":", None, caps[1..]);
    assert caps[1..] == [];
  }

  lemma FileShapeFrom(f: Pattern, line: string, caps: seq<string>) returns (device: string, rest: string)
    requires IsFilePattern(f) && Match(line, f, 0, None) == Some(caps)
    ensures |caps| == 2 && Capturable(caps[0], NotSemicolon) && Capturable(device, NotColon)
    ensures caps[1] == "/dev/" + device && line == FileText(caps[0], device, rest)
  {
    var s1 := LitTaken(line, f, 0, "use_buffer=", None, caps);
    var flag, s4 := CaptureTaken(s1, f, 1, NotSemicolon, caps);
    var s5 := LitTaken(s4, f, 4, "; ", None, caps[1..]);
    device, rest := FileTailTaken(f, s5, caps[1..]);
  }

  /** Every line the file pattern accepts is a file header as main prints it. */
  lemma FileLineShape(line: string)
    requires MatchFileLine(line).Some?
    ensures var c := MatchFileLine(line).value;
      && Capturable(c.useBuffer, NotSemicolon)
      && exists device, rest :: Capturable(device, NotColon) && c.device == "/dev/" + device
           && line == FileText(c.useBuffer, device, rest)
  {
    PatternsAre();
    FileCloses(FilePattern);
    MatchCount(line, FilePattern, 0, None);
    var device, rest := FileShapeFrom(FilePattern, line, Match(line, FilePattern, 0, None).value);
  }

  /** Past the end of a group, the group's text is the next capture. */
  lemma CloseTaken(s: string, pat: Pattern, k: nat, g: string, m: seq<string>)
    requires k < |pat| && pat[k] == Close
    requires Match(s, pat, k, Some(g)) == Some(m)
    ensures |m| > 0 && m[0] == g && Match(s, pat, k + 1, None) == Some(m[1..])
  {
  }

  /** A decimal group `Open, Run(IsDigit), Lit("."), Run(IsDigit)` at `k`,
      before the group closes, holds the decimal's text. */
  lemma DecimalGroupTaken(s: string, pat: Pattern, k: nat, m: seq<string>) returns (d: Decimal, after: string)
    requires k + 3 < |pat| && pat[k] == Open
    requires pat[k + 1] == Run(IsDigit) && pat[k + 2] == Lit(".") && pat[k + 3] == Run(IsDigit)
    requires Match(s, pat, k, None) == Some(m)
    ensures IsDecimal(d) && Stops(after, IsDigit) && s == DecimalThen(d, after)
    ensures Match(after, pat, k + 4, Some(DecimalText(d))) == Some(m)
  {
    OpenStep(s, pat, k, None);
    d, after := DecimalTaken(s, pat, k + 1, Some([]), m);
    EmptyGrow(d.whole);
  }

  lemma ResultTailTaken(r: Pattern, s21: string, caps: seq<string>)
    returns (rate: Decimal, shortReads: string, rest: string)
    requires IsResultPattern(r) && Match(s21, r, 21, None) == Some(caps)
    ensures caps == [shortReads] && IsDecimal(rate) && Capturable(shortReads, IsDigit) && Stops(rest, IsDigit)
    ensures s21 == " MiB/s; " + DecimalThen(rate, " syscalls/s; short_reads=" + (shortReads + rest))
  {
    var s22 := LitTaken(s21, r, 21, " MiB/s; ", None, caps);
    var s25;
    rate, s25 := DecimalTaken(s22, r, 22, None, caps);
    shortReads, rest := ShortReadsTaken(r, s25, caps);
  }

  /** The short-read count, the last capture of a result line. */
  lemma ShortReadsTaken(r: Pattern, s25: string, caps: seq<string>) returns (shortReads: string, rest: string)
    requires IsResultPattern(r) && Match(s25, r, 25, None) == Some(caps)
    ensures caps == [shortReads] && Capturable(shortReads, IsDigit) && Stops(rest, IsDigit)
    ensures s25 == " syscalls/s; short_reads=" + (shortReads + rest)
  {
    var s26 := LitTaken(s25, r, 25, " syscalls/s; short_reads=", None, caps);
    shortReads, rest := CaptureTaken(s26, r, 26, IsDigit, caps);
    assert caps[1..] == [];
  }

  lemma ResultMiddleTaken(r: Pattern, s11: string, caps: seq<string>)
    returns (numSyscalls: string, throughput: Decimal, s21: string)
    requires IsResultPattern(r) && Match(s11, r, 11, None) == Some(caps)
    ensures |caps| >= 2 && caps[..2] == [numSyscalls, DecimalText(throughput)]
    ensures Capturable(numSyscalls, IsDigit) && IsDecimal(throughput)
    ensures Match(s21, r, 21, None) == Some(caps[2..])
    ensures s11 == "; num_syscalls=" + (numSyscalls + ("; " + DecimalThen(throughput, s21)))
  {
    var s12 := LitTaken(s11, r, 11, "; num_syscalls=", None, caps);
    var s15;
    numSyscalls, s15 := CaptureTaken(s12, r, 12, IsDigit, caps);
    var s16 := LitTaken(s15, r, 15, "; ", None, caps[1..]);
    throughput, s21 := DecimalGroupTaken(s16, r, 16, caps[1..]);
    CloseTaken(s21, r, 20, DecimalText(throughput), caps[1..]);
    assert caps[1..][1..] == caps[2..];
  }

  /** The duration group, which keeps the unit "s". */
  lemma DurationTaken(r: Pattern, s5: string, caps: seq<string>) returns (duration: Decimal, s11: string)
    requires IsResultPattern(r) && Match(s5, r, 5, None) == Some(caps)
    ensures IsDecimal(duration) && s5 == DecimalThen(duration, "s" + s11)
    ensures |caps| > 0 && caps[0] == DecimalText(duration) + "s" && Match(s11, r, 11, None) == Some(caps[1..])
  {
    var s9;
    duration, s9 := DecimalGroupTaken(s5, r, 5, caps);
    s11 := LitTaken(s9, r, 9, "s", Some(DecimalText(duration)), caps);
    CloseTaken(s11, r, 10, DecimalText(duration) + "s", caps);
  }

  lemma ResultHeadTaken(r: Pattern, line: string, caps: seq<string>)
    returns (bufSize: string, duration: Decimal, s11: string)
    requires IsResultPattern(r) && Match(line, r, 0, None) == Some(caps)
    ensures |caps| >= 2 && caps[..2] == [bufSize, DecimalText(duration) + "s"]
    ensures Capturable(bufSize, IsDigit) && IsDecimal(duration)
    ensures Match(s11, r, 11, None) == Some(caps[2..])
    ensures line == "buf_size=" + (bufSize + ("; duration=" + DecimalThen(duration, "s" + s11)))
  {
    var s1 := LitTaken(line, r, 0, "buf_size=", None, caps);
    var s4;
    bufSize, s4 := CaptureTaken(s1, r, 1, IsDigit, caps);
    var s5 := LitTaken(s4, r, 4, "; duration=", None, caps[1..]);
    duration, s11 := DurationTaken(r, s5, caps[1..]);
    assert caps[1..][1..] == caps[2..];
  }

  lemma ResultShapeFrom(r: Pattern, line: string, caps: seq<string>) returns (fields: ResultFields, rest: string)
    requires IsResultPattern(r) && Match(line, r, 0, None) == Some(caps)
    ensures IsResultFields(fields) && Stops(rest, IsDigit) && line == ResultText(fields, rest)
    ensures caps == [fields.bufSize, DecimalText(fields.duration) + "s", fields.numSyscalls,
                     DecimalText(fields.throughput), fields.shortReads]
  {
    var bufSize, duration, s11 := ResultHeadTaken(r, line, caps);
    var numSyscalls, throughput, s21 := ResultMiddleTaken(r, s11, caps[2..]);
    var rate, shortReads;
    rate, shortReads, rest := ResultTailTaken(r, s21, caps[2..][2..]);
    fields := ResultFields(bufSize, duration, numSyscalls, throughput, rate, shortReads);
    assert caps == caps[..2] + (caps[2..][..2] + caps[2..][2..]);
  }

  /** Every line the result pattern accepts is a result line as main prints
      it, and the captures are its fields. */
  lemma ResultLineShape(line: string)
    requires MatchResultLine(line).Some?
    ensures exists fields, rest ::
      && IsResultFields(fields) && Stops(rest, IsDigit) && line == ResultText(fields, rest)
      && MatchResultLine(line).value == ResultCaptures(fields.bufSize, DecimalText(fields.duration) + "s",
           fields.numSyscalls, DecimalText(fields.throughput), fields.shortReads)
  {
    PatternsAre();
    var fields, rest := ResultShapeFrom(ResultPattern, line, Match(line, ResultPattern, 0, None).value);
  }
}
