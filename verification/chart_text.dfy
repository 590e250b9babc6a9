/** csvtochart's text helpers (csvtochart/csvtochart.go): data-file names
    derived from line labels, gnuplot escaping, the sorted string set, and
    numeric ordering of numerals. */
module ChartText {
  import opened Results
  import Strconv
  import GoStrings

  // ---------------------------------------------------------------------
  // toCSVFileName

  /** The characters `[a-zA-Z0-9_]` that `nonAlphaRE` leaves alone. */
  predicate IsWordChar(c: char) {
    'a' <= c <= 'z' || 'A' <= c <= 'Z' || '0' <= c <= '9' || c == '_'
  }

  /** The characters a file name produced by `toCSVFileName` may contain. */
  predicate IsFileNameChar(c: char) {
    'a' <= c <= 'z' || '0' <= c <= '9' || c == '_' || c == '-'
  }

  /** Lower-casing of one character: an ASCII capital becomes the small
      letter at the same place in the alphabet; everything else is kept. */
  function LowerChar(c: char): (l: char)
    ensures 'A' <= c <= 'Z' ==> 'a' <= l <= 'z' && l as int - 'a' as int == c as int - 'A' as int
    ensures !('A' <= c <= 'Z') ==> l == c
    ensures IsWordChar(l) <==> IsWordChar(c)
    ensures IsWordChar(c) ==> IsFileNameChar(l)
  {
    if 'A' <= c <= 'Z' then (c as int - 'A' as int + 'a' as int) as char else c
  }

  /** `strings.ToLower` on ASCII letters. */
  function Lower(s: string): (t: string)
    ensures |t| == |s|
    ensures forall i :: 0 <= i < |s| ==> t[i] == LowerChar(s[i])
  {
    if |s| == 0 then "" else [LowerChar(s[0])] + Lower(s[1..])
  }

  /** `nonAlphaRE.ReplaceAllString(s, "-")`: each maximal run of characters
      outside `[a-zA-Z0-9_]` becomes one '-'. `inRun` says that the character
      before `s` belonged to such a run (its '-' is already written). */
  function CollapseRuns(s: string, inRun: bool): (t: string)
    ensures inRun && |t| > 0 ==> t[0] != '-'
    ensures forall i :: 0 <= i < |t| - 1 ==> !(t[i] == '-' && t[i + 1] == '-')
    ensures forall i :: 0 <= i < |t| ==> IsWordChar(t[i]) || t[i] == '-'
  {
    if |s| == 0 then ""
    else if IsWordChar(s[0]) then [s[0]] + CollapseRuns(s[1..], false)
    else if inRun then CollapseRuns(s[1..], true)
    else ['-'] + CollapseRuns(s[1..], true)
  }

  /** The word characters of `s`, in order. */
  function Words(s: string): string {
    if |s| == 0 then ""
    else if IsWordChar(s[0]) then [s[0]] + Words(s[1..])
    else Words(s[1..])
  }

  /** `toCSVFileName`: lower-case, then collapse each run of other characters
      into one '-'. The result uses only `[a-z0-9_-]` and never holds "--". */
  function ToCSVFileName(text: string): (name: string)
    ensures forall i :: 0 <= i < |name| ==> IsFileNameChar(name[i])
    ensures forall i :: 0 <= i < |name| - 1 ==> !(name[i] == '-' && name[i + 1] == '-')
  {
    var lower := Lower(text);
    var name := CollapseRuns(lower, false);
    CollapseKeepsLower(lower, false);
    name
  }

  lemma {:induction false} CollapseKeepsLower(s: string, inRun: bool)
    requires forall i :: 0 <= i < |s| ==> IsWordChar(s[i]) ==> IsFileNameChar(s[i])
    ensures forall i :: 0 <= i < |CollapseRuns(s, inRun)| ==> IsFileNameChar(CollapseRuns(s, inRun)[i])
    decreases |s|
  {
    if |s| > 0 {
      CollapseKeepsLower(s[1..], !IsWordChar(s[0]));
    }
  }

  /** Every letter, digit and underscore of the text survives, lower-cased
      and in order; nothing else but '-' appears. */
  lemma {:induction false} FileNameKeepsWords(text: string)
    ensures Words(ToCSVFileName(text)) == Words(Lower(text))
  {
    CollapseKeepsWords(Lower(text), false);
  }

  lemma {:induction false} CollapseKeepsWords(s: string, inRun: bool)
    ensures Words(CollapseRuns(s, inRun)) == Words(s)
    decreases |s|
  {
    if |s| > 0 {
      CollapseKeepsWords(s[1..], !IsWordChar(s[0]));
      if !IsWordChar(s[0]) && !inRun {
        assert (['-'] + CollapseRuns(s[1..], true))[1..] == CollapseRuns(s[1..], true);
      } else if IsWordChar(s[0]) {
        assert ([s[0]] + CollapseRuns(s[1..], false))[1..] == CollapseRuns(s[1..], false);
      }
    }
  }

  /** The text made only of characters from `[a-zA-Z0-9_]`. */
  predicate AllWordChars(p: string) {
    forall k :: 0 <= k < |p| ==> IsWordChar(p[k])
  }

  /** `s` without its leading characters outside `[a-zA-Z0-9_]`. */
  function SkipSeparators(s: string): (t: string)
    ensures |t| <= |s|
    ensures |t| > 0 ==> IsWordChar(t[0])
  {
    if |s| == 0 || IsWordChar(s[0]) then s else SkipSeparators(s[1..])
  }

  /** The pieces of `s` between its maximal runs of characters outside
      `[a-zA-Z0-9_]`. A run at either end leaves an empty piece there, so only
      the first and the last piece can be empty. */
  function WordRuns(s: string): (pieces: seq<string>)
    ensures |pieces| >= 1
    ensures forall i :: 0 <= i < |pieces| ==> AllWordChars(pieces[i])
    ensures forall i :: 0 < i < |pieces| - 1 ==> |pieces[i]| > 0
    ensures |s| > 0 && IsWordChar(s[0]) ==> |pieces[0]| > 0
    decreases |s|
  {
    if |s| == 0 then [""]
    else if IsWordChar(s[0]) then
      var rest := WordRuns(s[1..]);
      [[s[0]] + rest[0]] + rest[1..]
    else [""] + WordRuns(SkipSeparators(s[1..]))
  }

  /** The file name's '-'-separated pieces are the maximal runs of letters,
      digits and underscores of the lower-cased label: every run of other
      characters became exactly one '-'. */
  lemma FileNamePieces(text: string)
    ensures GoStrings.Split(ToCSVFileName(text), '-') == WordRuns(Lower(text))
  {
    CollapseSplits(Lower(text));
  }

  /** Splitting the collapsed text at '-' gives the text's word runs. */
  lemma {:induction false} CollapseSplits(s: string)
    ensures GoStrings.Split(CollapseRuns(s, false), '-') == WordRuns(s)
    decreases |s|
  {
    if |s| > 0 {
      if IsWordChar(s[0]) {
        CollapseSplits(s[1..]);
        SplitCons(s[0], CollapseRuns(s[1..], false), '-');
      } else {
        CollapseInRun(s[1..]);
        CollapseSplits(SkipSeparators(s[1..]));
        SplitLeading(CollapseRuns(s[1..], true), '-');
      }
    }
  }

  /** Inside a run, the rest of the run writes nothing. */
  lemma {:induction false} CollapseInRun(s: string)
    ensures CollapseRuns(s, true) == CollapseRuns(SkipSeparators(s), false)
    decreases |s|
  {
    if |s| > 0 && !IsWordChar(s[0]) {
      CollapseInRun(s[1..]);
    }
  }

  /** A leading character other than the separator joins the first piece. */
  lemma SplitCons(x: char, t: string, c: char)
    requires x != c
    ensures var rest := GoStrings.Split(t, c);
            GoStrings.Split([x] + t, c) == [[x] + rest[0]] + rest[1..]
  {
    var s := [x] + t;
    if c in t {
      var k := GoStrings.IndexOf(t, c);
      assert s[..k + 1] == [x] + t[..k];
      GoStrings.SplitAt(s, c, k + 1);
      assert s[k + 2..] == t[k + 1..];
      GoStrings.SplitAt(t, c, k);
    } else {
      assert c !in s;
    }
  }

  /** A leading separator gives an empty first piece. */
  lemma SplitLeading(t: string, c: char)
    ensures GoStrings.Split([c] + t, c) == [""] + GoStrings.Split(t, c)
  {
    var s := [c] + t;
    assert s[..0] == "";
    GoStrings.SplitAt(s, c, 0);
    assert s[1..] == t;
  }

  /** A file name is its own file name: applying `toCSVFileName` twice is
      applying it once. */
  lemma FileNameIdempotent(text: string)
    ensures ToCSVFileName(ToCSVFileName(text)) == ToCSVFileName(text)
  {
    var name := ToCSVFileName(text);
    LowerFixesFileNames(name);
    CollapseFixes(name, false);
  }

  /** A text already made of `[a-z0-9_]` is used as is. */
  lemma PlainLabelUnchanged(text: string)
    requires forall i :: 0 <= i < |text| ==> IsFileNameChar(text[i]) && text[i] != '-'
    ensures ToCSVFileName(text) == text
  {
    LowerFixesFileNames(text);
    CollapseFixes(text, false);
  }

  lemma LowerFixesFileNames(s: string)
    requires forall i :: 0 <= i < |s| ==> IsFileNameChar(s[i])
    ensures Lower(s) == s
  {
  }

  /** Collapsing leaves alone a text whose every '-' stands alone. */
  lemma {:induction false} CollapseFixes(t: string, inRun: bool)
    requires forall i :: 0 <= i < |t| ==> IsFileNameChar(t[i])
    requires forall i :: 0 <= i < |t| - 1 ==> !(t[i] == '-' && t[i + 1] == '-')
    requires inRun ==> |t| == 0 || t[0] != '-'
    ensures CollapseRuns(t, inRun) == t
    decreases |t|
  {
    if |t| > 0 {
      var rest := t[1..];
      forall i | 0 <= i < |rest| - 1
        ensures !(rest[i] == '-' && rest[i + 1] == '-')
      {
        assert rest[i] == t[i + 1] && rest[i + 1] == t[i + 2];
      }
      if t[0] == '-' && |rest| > 0 {
        assert rest[0] == t[1] != '-';
      }
      CollapseFixes(rest, !IsWordChar(t[0]));
    }
  }

  // ---------------------------------------------------------------------
  // gnuplotEscape

  /** The 4-character replacement of '_': three backslashes, then '_'. */
  const EscapedUnderscore: string := ['\\', '\\', '\\', '_']

  function CountOf(s: string, c: char): nat {
    if |s| == 0 then 0 else (if s[0] == c then 1 else 0) + CountOf(s[1..], c)
  }

  /** `gnuplotEscape`: every '_' becomes `\\\_`, everything else is kept. */
  function GnuplotEscape(s: string): (t: string)
    ensures |t| == |s| + 3 * CountOf(s, '_')
  {
    if |s| == 0 then ""
    else (if s[0] == '_' then EscapedUnderscore else [s[0]]) + GnuplotEscape(s[1..])
  }

  /** Escaping works piecewise. */
  lemma {:induction false} EscapeConcat(a: string, b: string)
    ensures GnuplotEscape(a + b) == GnuplotEscape(a) + GnuplotEscape(b)
    decreases |a|
  {
    if |a| > 0 {
      var head := if a[0] == '_' then EscapedUnderscore else [a[0]];
      assert (a + b)[0] == a[0] && (a + b)[1..] == a[1..] + b;
      EscapeConcat(a[1..], b);
      calc {
        GnuplotEscape(a + b);
        head + GnuplotEscape(a[1..] + b);
        head + (GnuplotEscape(a[1..]) + GnuplotEscape(b));
        (head + GnuplotEscape(a[1..])) + GnuplotEscape(b);
        GnuplotEscape(a) + GnuplotEscape(b);
      }
    } else {
      assert a + b == b;
    }
  }

  /** A text is left unchanged exactly when it has no '_'. */
  lemma EscapeUnchangedIff(s: string)
    ensures GnuplotEscape(s) == s <==> '_' !in s
  {
    CountOfZero(s);
  }

  lemma {:induction false} CountOfZero(s: string)
    ensures CountOf(s, '_') == 0 <==> '_' !in s
  {
    if |s| > 0 {
      CountOfZero(s[1..]);
      assert s == [s[0]] + s[1..];
    }
  }

  /** A left inverse of `GnuplotEscape`: each `\\\_` reads back as '_', every other character stays. */
  function Unescape(t: string): string {
    if |t| == 0 then ""
    else if |t| >= 4 && t[..4] == EscapedUnderscore then "_" + Unescape(t[4..])
    else [t[0]] + Unescape(t[1..])
  }

  /** Escaping loses nothing: decoding the escaped text gives the original,
      backslashes in the original included. */
  lemma {:induction false} EscapeRoundTrip(s: string)
    ensures Unescape(GnuplotEscape(s)) == s
  {
    if |s| > 0 {
      var rest := GnuplotEscape(s[1..]);
      EscapeRoundTrip(s[1..]);
      if s[0] == '_' {
        assert (EscapedUnderscore + rest)[..4] == EscapedUnderscore;
        assert (EscapedUnderscore + rest)[4..] == rest;
      } else {
        var t := [s[0]] + rest;
        UnderscoresLate(s[1..]);
        if |t| >= 4 {
          assert t[3] == rest[2] != '_';
          assert t[..4] != EscapedUnderscore;
        }
        assert t[1..] == rest;
      }
    }
  }

  /** Every '_' of an escaped text has its three backslashes before it. */
  lemma {:induction false} UnderscoresLate(s: string)
    ensures forall i :: 0 <= i < |GnuplotEscape(s)| && GnuplotEscape(s)[i] == '_' ==> i >= 3
  {
    if |s| > 0 {
      UnderscoresLate(s[1..]);
    }
  }

  // ---------------------------------------------------------------------
  // stringSet

  /** Go's string comparison: lexicographic by character. (Comparing UTF-8
      bytes, as Go does, orders code points the same way.) */
  predicate Less(a: string, b: string) {
    if |a| == 0 then |b| > 0
    else if |b| == 0 then false
    else if a[0] != b[0] then a[0] < b[0]
    else Less(a[1..], b[1..])
  }

  lemma {:induction false} LessIrreflexive(a: string)
    ensures !Less(a, a)
  {
    if |a| > 0 {
      LessIrreflexive(a[1..]);
    }
  }

  lemma {:induction false} LessTransitive(a: string, b: string, c: string)
    requires Less(a, b) && Less(b, c)
    ensures Less(a, c)
  {
    if |a| > 0 && |b| > 0 && |c| > 0 && a[0] == b[0] == c[0] {
      LessTransitive(a[1..], b[1..], c[1..]);
    }
  }

  lemma {:induction false} LessTotal(a: string, b: string)
    requires a != b
    ensures Less(a, b) || Less(b, a)
  {
    if |a| > 0 && |b| > 0 && a[0] == b[0] {
      assert a == [a[0]] + a[1..] && b == [b[0]] + b[1..];
      LessTotal(a[1..], b[1..]);
    }
  }

  lemma {:induction false} LessAsymmetric(a: string, b: string)
    requires Less(a, b)
    ensures !Less(b, a)
  {
    if |a| > 0 && |b| > 0 && a[0] == b[0] {
      LessAsymmetric(a[1..], b[1..]);
    }
  }

  predicate StrictlySorted(s: seq<string>) {
    forall i, j :: 0 <= i < j < |s| ==> Less(s[i], s[j])
  }

  /** Insert `x` into a strictly sorted list that lacks it. */
  function Insert(s: seq<string>, x: string): (r: seq<string>)
    requires StrictlySorted(s) && x !in s
    ensures StrictlySorted(r)
    ensures |r| == |s| + 1
    ensures forall y :: y in r <==> y in s || y == x
  {
    if |s| == 0 then [x]
    else if Less(x, s[0]) then
      InsertFront(s, x);
      [x] + s
    else
      LessTotal(x, s[0]);
      var tail := Insert(s[1..], x);
      InsertBehind(s[0], tail, s[1..], x);
      [s[0]] + tail
  }

  lemma InsertFront(s: seq<string>, x: string)
    requires StrictlySorted(s) && |s| > 0 && Less(x, s[0])
    ensures StrictlySorted([x] + s)
  {
    forall j | 0 < j < |s| + 1
      ensures Less(x, ([x] + s)[j])
    {
      if j > 1 {
        LessTransitive(x, s[0], s[j - 1]);
      }
    }
  }

  lemma InsertBehind(h: string, tail: seq<string>, s: seq<string>, x: string)
    requires StrictlySorted(tail) && Less(h, x)
    requires forall i :: 0 <= i < |s| ==> Less(h, s[i])
    requires forall y :: y in tail ==> y in s || y == x
    ensures StrictlySorted([h] + tail)
  {
    forall j | 0 < j < |tail| + 1
      ensures Less(h, ([h] + tail)[j])
    {
      assert tail[j - 1] in tail;
    }
  }

  /** `stringSet.list`: collect the members in map iteration order `order`
      (each member exactly once), then `sort.Strings`. */
  method List(members: set<string>, order: seq<string>) returns (out: seq<string>)
    requires forall i, j :: 0 <= i < j < |order| ==> order[i] != order[j]
    requires forall y :: y in order <==> y in members
    ensures StrictlySorted(out)
    ensures forall y :: y in out <==> y in members
    ensures |out| == |order|
  {
    out := [];
    var i := 0;
    while i < |order|
      invariant i <= |order|
      invariant StrictlySorted(out) && |out| == i
      invariant forall y :: y in out <==> y in order[..i]
    {
      assert order[i] !in order[..i];
      out := Insert(out, order[i]);
      assert order[..i + 1] == order[..i] + [order[i]];
      i := i + 1;
    }
    assert order[..i] == order;
  }

  /** The listing does not depend on the iteration order: there is only one
      strictly sorted list of a given set of strings. */
  lemma {:induction false} SortedUnique(a: seq<string>, b: seq<string>)
    requires StrictlySorted(a) && StrictlySorted(b)
    requires forall y :: y in a <==> y in b
    ensures a == b
    decreases |a|
  {
    if |a| > 0 {
      assert a[0] in a;
    }
    if |b| > 0 {
      assert b[0] in b;
    }
    if |a| > 0 && |b| > 0 {
      SortedHeadsAgree(a, b);
      LessIrreflexive(a[0]);
      forall y
        ensures y in a[1..] <==> y in b[1..]
      {
        TailMember(a, y);
        TailMember(b, y);
      }
      SortedUnique(a[1..], b[1..]);
    }
  }

  /** The head of a strictly sorted list is its least member. */
  lemma SortedHeadsAgree(a: seq<string>, b: seq<string>)
    requires StrictlySorted(a) && StrictlySorted(b) && |a| > 0 && |b| > 0
    requires forall y :: y in a <==> y in b
    ensures a[0] == b[0]
  {
    assert a[0] in a && b[0] in b;
    var i :| 0 <= i < |a| && a[i] == b[0];
    var j :| 0 <= j < |b| && b[j] == a[0];
    if i > 0 && j > 0 {
      LessAsymmetric(a[0], b[0]);
    }
  }

  /** In a strictly sorted list, the members after the head are the members
      other than the head. */
  lemma TailMember(a: seq<string>, y: string)
    requires StrictlySorted(a) && |a| > 0
    ensures y in a[1..] <==> y in a && y != a[0]
  {
    if y in a[1..] {
      var k :| 0 <= k < |a| - 1 && a[1..][k] == y;
      assert Less(a[0], a[k + 1]);
      LessIrreflexive(a[0]);
    }
    if y in a && y != a[0] {
      var i :| 0 <= i < |a| && a[i] == y;
      assert a[1..][i - 1] == y;
    }
  }

  // ---------------------------------------------------------------------
  // numericStringLess

  /** `numericStringLess`: compare two numerals by value; a string `strconv.Atoi`
      rejects panics. */
  function NumericStringLess(i: string, j: string): (r: Result<bool>)
    ensures r.Ok? <==> Strconv.Atoi(i).Some? && Strconv.Atoi(j).Some?
  {
    var a := Strconv.Atoi(i);
    if a.None? then Panic("strconv.Atoi: invalid syntax or out of range")
    else
      var b := Strconv.Atoi(j);
      if b.None? then Panic("strconv.Atoi: invalid syntax or out of range")
      else Ok(a.value < b.value)
  }

  /** On printed integers it is the integer order. */
  lemma NumericLessOfFormatted(a: int, b: int)
    requires Strconv.MinInt <= a <= Strconv.MaxInt && Strconv.MinInt <= b <= Strconv.MaxInt
    ensures NumericStringLess(Strconv.FormatInt(a), Strconv.FormatInt(b)) == Ok(a < b)
  {
    Strconv.AtoiFormatInt(a);
    Strconv.AtoiFormatInt(b);
  }

  /** Which differs from the string order `sort.Strings` uses. */
  lemma NumericOrderIsNotStringOrder()
    ensures NumericStringLess("9", "10") == Ok(true)
    ensures Less("10", "9")
  {
    assert Strconv.AllDigits("9") && Strconv.AllDigits("10");
    assert "10"[..1] == "1";
    assert Strconv.DigitsValue("9") == 9;
    assert Strconv.DigitsValue("10") == 10;
  }
}
