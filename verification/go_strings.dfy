/** Go's `strings.Join` and `strings.Split` for a one-character separator. */
module GoStrings {

  /** Position of the first `c` in `s`. */
  function IndexOf(s: string, c: char): (i: nat)
    requires c in s
    ensures i < |s| && s[i] == c && c !in s[..i]
  {
    if s[0] == c then 0
    else
      var i := 1 + IndexOf(s[1..], c);
      assert s[..i] == [s[0]] + s[1..][..i - 1];
      i
  }

  /** The first occurrence is the one with no occurrence before it. */
  lemma {:induction false} IndexOfIs(s: string, c: char, k: nat)
    requires k < |s| && s[k] == c && c !in s[..k]
    ensures IndexOf(s, c) == k
  {
    if k > 0 {
      assert s[0] == s[..k][0];
      assert s[1..][..k - 1] == s[..k][1..];
      IndexOfIs(s[1..], c, k - 1);
    }
  }

  /** `strings.Join(parts, sep)`: no parts give the empty string. */
  function Join(parts: seq<string>, sep: string): (s: string)
    ensures |parts| == 1 ==> s == parts[0]
  {
    if |parts| == 0 then ""
    else if |parts| == 1 then parts[0]
    else parts[0] + sep + Join(parts[1..], sep)
  }

  /** `strings.Split(s, [c])`: the pieces between the occurrences of `c`.
      Even the empty string yields one (empty) piece. */
  function Split(s: string, c: char): (parts: seq<string>)
    ensures |parts| >= 1
    ensures forall i :: 0 <= i < |parts| ==> c !in parts[i]
    decreases |s|
  {
    if c !in s then [s]
    else
      var i := IndexOf(s, c);
      [s[..i]] + Split(s[i + 1..], c)
  }

  /** Splitting at the first separator. */
  lemma SplitAt(s: string, c: char, k: nat)
    requires k < |s| && s[k] == c && c !in s[..k]
    ensures Split(s, c) == [s[..k]] + Split(s[k + 1..], c)
  {
    IndexOfIs(s, c, k);
  }

  /** Splitting a joined list takes off its first piece. */
  lemma SplitJoinStep(parts: seq<string>, c: char)
    requires |parts| > 1 && c !in parts[0]
    ensures Split(Join(parts, [c]), c) == [parts[0]] + Split(Join(parts[1..], [c]), c)
  {
    var k := |parts[0]|;
    var rest := Join(parts[1..], [c]);
    var s := parts[0] + [c] + rest;
    assert s == Join(parts, [c]);
    assert s[..k] == parts[0] && s[k] == c && s[k + 1..] == rest;
    SplitAt(s, c, k);
  }

  /** Splitting a joined list gives the list back when no piece contains the
      separator. */
  lemma {:induction false} SplitJoin(parts: seq<string>, c: char)
    requires |parts| >= 1
    requires forall i :: 0 <= i < |parts| ==> c !in parts[i]
    ensures Split(Join(parts, [c]), c) == parts
    decreases |parts|
  {
    if |parts| > 1 {
      var tail := Split(Join(parts[1..], [c]), c);
      assert tail == parts[1..] by {
        SplitJoin(parts[1..], c);
      }
      assert Split(Join(parts, [c]), c) == [parts[0]] + tail by {
        SplitJoinStep(parts, c);
      }
      assert [parts[0]] + parts[1..] == parts;
    }
  }

  /** Joining the pieces of a split gives the string back. */
  lemma {:induction false} JoinSplit(s: string, c: char)
    ensures Join(Split(s, c), [c]) == s
    decreases |s|
  {
    if c in s {
      var i := IndexOf(s, c);
      var parts := Split(s, c);
      var tail := Split(s[i + 1..], c);
      assert parts == [s[..i]] + tail;
      assert parts[0] == s[..i] && parts[1..] == tail && |parts| > 1;
      JoinSplit(s[i + 1..], c);
      assert Join(parts, [c]) == s[..i] + [c] + Join(tail, [c]);
      assert s == s[..i] + [c] + s[i + 1..];
    }
  }
}
