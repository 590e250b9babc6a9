/** csvtochart's column lookup and dimension assignments
    (csvtochart/csvtochart.go): a row's dimension values, the map key that
    identifies its data set, parsing that key back, and the
    group-by-all-dimensions-but-one step that decides which data sets share a
    chart. */
module Dimensions {
  import opened Results
  import opened GoStrings

  // ---------------------------------------------------------------------
  // Table

  /** A CSV header row and `columnNameToIndex`. */
  datatype Table = Table(headers: seq<string>, columnIndex: map<string, nat>)

  /** `newTable`: every header names a column; a repeated header names its
      LAST occurrence. */
  function NewTable(headers: seq<string>): (t: Table)
    ensures t.headers == headers
    ensures forall h :: h in t.columnIndex <==> h in headers
    ensures forall h :: h in t.columnIndex ==> t.columnIndex[h] < |headers| && headers[t.columnIndex[h]] == h
    ensures forall j :: 0 <= j < |headers| ==> t.columnIndex[headers[j]] >= j
  {
    ColumnIndexFacts(headers);
    Table(headers, ColumnIndex(headers))
  }

  /** The loop of `newTable`: later headers overwrite earlier ones. */
  function ColumnIndex(headers: seq<string>): map<string, nat> {
    if |headers| == 0 then map[]
    else ColumnIndex(headers[..|headers| - 1])[headers[|headers| - 1] := |headers| - 1]
  }

  lemma {:induction false} ColumnIndexFacts(headers: seq<string>)
    ensures var m := ColumnIndex(headers);
            && (forall h :: h in m <==> h in headers)
            && (forall h :: h in m ==> m[h] < |headers| && headers[m[h]] == h)
            && (forall j :: 0 <= j < |headers| ==> m[headers[j]] >= j)
  {
    var n := |headers|;
    if n > 0 {
      var init := headers[..n - 1];
      ColumnIndexFacts(init);
      var m0 := ColumnIndex(init);
      var m := ColumnIndex(headers);
      assert m == m0[headers[n - 1] := n - 1];
      forall h
        ensures h in m <==> h in headers
      {
        assert h in headers <==> h in init || h == headers[n - 1] by {
          assert headers == init + [headers[n - 1]];
        }
      }
      forall h | h in m
        ensures m[h] < n && headers[m[h]] == h
      {
        if h != headers[n - 1] {
          assert headers[m0[h]] == init[m0[h]];
        }
      }
      forall j | 0 <= j < n
        ensures m[headers[j]] >= j
      {
        if j < n - 1 && headers[j] != headers[n - 1] {
          assert init[j] == headers[j];
        }
      }
    }
  }

  /** `getRowValue`: an unknown column panics, and so does a row too short for
      the column's index (Go's index-out-of-range panic). */
  function GetRowValue(t: Table, row: seq<string>, column: string): (r: Result<string>)
    ensures column !in t.columnIndex ==> r.Panic?
  {
    if column !in t.columnIndex then Panic("could not find column: " + column)
    else if t.columnIndex[column] >= |row| then Panic("index out of range")
    else Ok(row[t.columnIndex[column]])
  }

  /** Looking a column up by name gives the value under its last header. */
  lemma RowValueUnderLastHeader(headers: seq<string>, row: seq<string>, i: nat)
    requires i < |headers|
    requires forall j :: i < j < |headers| ==> headers[j] != headers[i]
    ensures var r := GetRowValue(NewTable(headers), row, headers[i]);
            (r.Ok? <==> i < |row|) && (r.Ok? ==> r.value == row[i])
  {
    var t := NewTable(headers);
    var k := t.columnIndex[headers[i]];
    assert k >= i && headers[k] == headers[i];
  }

  /** A column that is not a header always panics. */
  lemma UnknownColumnPanics(headers: seq<string>, row: seq<string>, column: string)
    requires column !in headers
    ensures GetRowValue(NewTable(headers), row, column).Panic?
  {
  }

  // ---------------------------------------------------------------------
  // Dimension assignments

  /** `dimensionAssignment`: parallel lists of dimension names and values;
      "" marks a dimension not yet assigned. */
  datatype Assignment = Assignment(names: seq<string>, values: seq<string>)

  /** Every constructed assignment has one value slot per name. */
  predicate WellFormed(d: Assignment) {
    |d.values| == |d.names|
  }

  predicate Distinct(names: seq<string>) {
    forall i, j :: 0 <= i < j < |names| ==> names[i] != names[j]
  }

  /** `newDimensionAssignment`: all values unassigned. */
  function NewAssignment(names: seq<string>): (d: Assignment)
    ensures d.names == names && WellFormed(d)
    ensures forall i :: 0 <= i < |names| ==> d.values[i] == ""
  {
    Assignment(names, seq(|names|, _ => ""))
  }

  predicate PermittedChar(c: char) {
    'A' <= c <= 'Z' || 'a' <= c <= 'z' || '0' <= c <= '9' || c == '/' || c == '_' || c == '-'
  }

  /** `permittedDimensionValue`: `^[A-Za-z0-9/_-]+$`. */
  predicate Permitted(v: string) {
    |v| > 0 && forall i :: 0 <= i < |v| ==> PermittedChar(v[i])
  }

  /** Position of the first slot called `name`. */
  function FirstIndex(names: seq<string>, name: string): (i: nat)
    requires name in names
    ensures i < |names| && names[i] == name
    ensures forall j :: 0 <= j < i ==> names[j] != name
  {
    if names[0] == name then 0 else 1 + FirstIndex(names[1..], name)
  }

  /** `assign`: a value outside the permitted alphabet panics, and so does an
      unknown name; otherwise only the FIRST slot with that name changes. */
  function Assign(d: Assignment, name: string, value: string): (r: Result<Assignment>)
    requires WellFormed(d)
    ensures r.Ok? <==> Permitted(value) && name in d.names
    ensures r.Ok? ==> r.value.names == d.names && WellFormed(r.value)
  {
    if !Permitted(value) then Panic("dimension value is not permitted: " + value)
    else if name !in d.names then Panic(name + " not found")
    else
      var i := FirstIndex(d.names, name);
      Ok(d.(values := d.values[i := value]))
  }

  /** A successful `assign` writes the value into the first slot with that
      name and leaves every other slot alone. */
  lemma AssignFirstSlot(d: Assignment, name: string, value: string)
    requires WellFormed(d) && Assign(d, name, value).Ok?
    ensures var r := Assign(d, name, value).value;
            exists i :: 0 <= i < |d.names| && d.names[i] == name
              && (forall j :: 0 <= j < i ==> d.names[j] != name)
              && r.values[i] == value
              && forall j :: 0 <= j < |d.names| && j != i ==> r.values[j] == d.values[j]
  {
    var i := FirstIndex(d.names, name);
    assert Assign(d, name, value).value.values[i] == value;
  }

  /** With distinct names, the first slot called `names[i]` is slot i. */
  lemma FirstIndexDistinct(names: seq<string>, i: nat)
    requires Distinct(names) && i < |names|
    ensures FirstIndex(names, names[i]) == i
  {
  }

  /** Assign `vs[i]` to the i-th dimension, for i = 0 .. k-1 in order. */
  function AssignEach(d: Assignment, vs: seq<string>, k: nat): (r: Result<Assignment>)
    requires WellFormed(d) && k <= |d.names| && k <= |vs|
    ensures r.Ok? ==> r.value.names == d.names && WellFormed(r.value)
  {
    if k == 0 then Ok(d)
    else
      var prev :- AssignEach(d, vs, k - 1);
      Assign(prev, d.names[k - 1], vs[k - 1])
  }

  /** With distinct names, assigning each dimension in turn fills the slots
      in order, and fails exactly when some value is not permitted. */
  lemma AssignEachDistinct(d: Assignment, vs: seq<string>, k: nat)
    requires WellFormed(d) && k <= |d.names| && k <= |vs| && Distinct(d.names)
    ensures AssignEach(d, vs, k).Ok? <==> forall i :: 0 <= i < k ==> Permitted(vs[i])
    ensures AssignEach(d, vs, k).Ok? ==>
              AssignEach(d, vs, k).value.values == vs[..k] + d.values[k..]
  {
    AssignEachOk(d, vs, k);
    if AssignEach(d, vs, k).Ok? {
      AssignEachValues(d, vs, k);
    }
  }

  lemma {:induction false} AssignEachOk(d: Assignment, vs: seq<string>, k: nat)
    requires WellFormed(d) && k <= |d.names| && k <= |vs| && Distinct(d.names)
    ensures AssignEach(d, vs, k).Ok? <==> forall i :: 0 <= i < k ==> Permitted(vs[i])
  {
    if k > 0 {
      var prev := AssignEach(d, vs, k - 1);
      assert AssignEach(d, vs, k).Ok? <==> prev.Ok? && Permitted(vs[k - 1]) by {
        if prev.Ok? {
          AssignSlot(prev.value, k - 1, vs[k - 1]);
        }
      }
      AssignEachOk(d, vs, k - 1);
    }
  }

  lemma {:induction false} AssignEachValues(d: Assignment, vs: seq<string>, k: nat)
    requires WellFormed(d) && k <= |d.names| && k <= |vs| && Distinct(d.names)
    requires AssignEach(d, vs, k).Ok?
    ensures AssignEach(d, vs, k).value.values == vs[..k] + d.values[k..]
  {
    if k > 0 {
      var prev := AssignEach(d, vs, k - 1);
      assert prev.Ok?;
      AssignEachValues(d, vs, k - 1);
      AssignSlot(prev.value, k - 1, vs[k - 1]);
      SpliceStep(vs, d.values, k);
    }
  }

  /** Writing `vs[k-1]` into slot k-1 of `vs[..k-1] + d[k-1..]` gives `vs[..k] + d[k..]`. */
  lemma SpliceStep(vs: seq<string>, d: seq<string>, k: nat)
    requires 0 < k <= |vs| && k <= |d|
    ensures (vs[..k - 1] + d[k - 1..])[k - 1 := vs[k - 1]] == vs[..k] + d[k..]
  {
  }

  /** With distinct names, assigning to the i-th name writes slot i. */
  lemma AssignSlot(d: Assignment, i: nat, value: string)
    requires WellFormed(d) && Distinct(d.names) && i < |d.names|
    ensures Assign(d, d.names[i], value).Ok? <==> Permitted(value)
    ensures Permitted(value) ==> Assign(d, d.names[i], value) == Ok(d.(values := d.values[i := value]))
  {
    FirstIndexDistinct(d.names, i);
  }

  // ---------------------------------------------------------------------
  // Keys

  /** `mapKey`: an unassigned value is a bug and panics; otherwise the values
      joined with ",". */
  function MapKey(d: Assignment): (r: Result<string>)
    ensures r.Panic? <==> "" in d.values
  {
    if "" in d.values then Panic("BUG: unassigned dimension value")
    else Ok(Join(d.values, ","))
  }

  /** `parseDimensionAssignmentKey`: split at "," and assign the pieces to the
      names in order; a piece count that differs from the name count panics. */
  function ParseKey(names: seq<string>, key: string): (r: Result<Assignment>)
    ensures |Split(key, ',')| != |names| ==> r.Panic?
    ensures r.Ok? ==> r.value.names == names && WellFormed(r.value)
  {
    var parts := Split(key, ',');
    if |parts| != |names| then Panic("BUG: mismatched sizes")
    else AssignEach(NewAssignment(names), parts, |names|)
  }

  predicate FullyAssigned(d: Assignment) {
    WellFormed(d) && forall i :: 0 <= i < |d.values| ==> Permitted(d.values[i])
  }

  lemma PermittedHasNoComma(v: string)
    requires Permitted(v)
    ensures ',' !in v
  {
    assert forall i :: 0 <= i < |v| ==> PermittedChar(v[i]) && v[i] != ',';
  }

  /** Key round trip: the key of a fully assigned assignment parses back to
      it, provided there is at least one dimension and no name repeats. */
  lemma KeyRoundTrip(d: Assignment)
    requires FullyAssigned(d) && |d.names| >= 1 && Distinct(d.names)
    ensures MapKey(d).Ok?
    ensures ParseKey(d.names, MapKey(d).value) == Ok(d)
  {
    forall i | 0 <= i < |d.values|
      ensures ',' !in d.values[i]
    {
      PermittedHasNoComma(d.values[i]);
    }
    assert forall i :: 0 <= i < |d.values| ==> Permitted(d.values[i]) && d.values[i] != "";
    SplitJoin(d.values, ',');
    var blank := NewAssignment(d.names);
    AssignEachDistinct(blank, d.values, |d.names|);
    assert d.values[..|d.names|] + blank.values[|d.names|..] == d.values;
  }

  /** The other direction: a key that parses is the key of what it parses to. */
  lemma KeyRoundTripBack(names: seq<string>, key: string)
    requires Distinct(names) && ParseKey(names, key).Ok?
    ensures FullyAssigned(ParseKey(names, key).value)
    ensures MapKey(ParseKey(names, key).value) == Ok(key)
  {
    var parts := Split(key, ',');
    var d := ParseKey(names, key).value;
    AssignEachDistinct(NewAssignment(names), parts, |names|);
    assert d.values == parts;
    assert forall i :: 0 <= i < |parts| ==> Permitted(parts[i]) && parts[i] != "";
    JoinSplit(key, ',');
  }

  /** Distinct assignments over the same names have distinct keys. */
  lemma MapKeyInjective(d1: Assignment, d2: Assignment)
    requires FullyAssigned(d1) && FullyAssigned(d2) && d1.names == d2.names
    requires |d1.names| >= 1 && Distinct(d1.names)
    requires MapKey(d1) == MapKey(d2)
    ensures d1 == d2
  {
    KeyRoundTrip(d1);
    KeyRoundTrip(d2);
  }

  /** Why the round trip needs distinct names: with a repeated name every
      piece lands in the first slot and the second slot stays unassigned. */
  lemma RepeatedNameLosesValue()
    ensures ParseKey(["a", "a"], "x,y") == Ok(Assignment(["a", "a"], ["y", ""]))
    ensures MapKey(Assignment(["a", "a"], ["y", ""])).Panic?
  {
    IndexOfIs("x,y", ',', 1);
    assert "x,y"[..1] == "x" && "x,y"[2..] == "y";
    assert Split("y", ',') == ["y"];
    var parts := Split("x,y", ',');
    assert parts == ["x", "y"];
    var blank := NewAssignment(["a", "a"]);
    assert blank == Assignment(["a", "a"], ["", ""]);
    assert Permitted("x") && Permitted("y") by {
      assert PermittedChar('x') && PermittedChar('y');
    }
    var first := Assignment(["a", "a"], ["x", ""]);
    assert "a" in ["a", "a"] && FirstIndex(["a", "a"], "a") == 0;
    assert blank.values[0 := "x"] == ["x", ""] && first.values[0 := "y"] == ["y", ""];
    assert AssignEach(blank, parts, 1) == Assign(blank, "a", "x") == Ok(first);
    assert AssignEach(blank, parts, 2) == Assign(first, "a", "y");
  }

  /** And why it needs a dimension: no key at all parses to zero names. */
  lemma NoDimensionsNeverParse(key: string)
    ensures ParseKey([], key).Panic?
  {
  }

  // ---------------------------------------------------------------------
  // Titles and paths

  /** The "name=value" text of dimension i. */
  function Pair(d: Assignment, i: nat): string
    requires WellFormed(d) && i < |d.names|
  {
    d.names[i] + "=" + d.values[i]
  }

  /** `combined`: "name=value" for each dimension in order, separated by ", ". */
  function Combined(d: Assignment): string
    requires WellFormed(d)
  {
    Join(seq(|d.names|, i requires 0 <= i < |d.names| => Pair(d, i)), ", ")
  }

  /** The text between the commas of a combined title: the pairs, each but the
      first after the blank of its ", " separator. */
  function Pieces(d: Assignment): (ps: seq<string>)
    requires WellFormed(d)
    ensures |ps| == |d.names|
  {
    seq(|d.names|, i requires 0 <= i < |d.names| => (if i == 0 then "" else " ") + Pair(d, i))
  }

  /** Splitting a title at its commas yields exactly the pairs, in dimension
      order, when no name or value contains a comma. */
  lemma CombinedSplits(d: Assignment)
    requires WellFormed(d) && |d.names| >= 1
    requires forall i :: 0 <= i < |d.names| ==> ',' !in d.names[i] && ',' !in d.values[i]
    ensures Split(Combined(d), ',') == Pieces(d)
  {
    var pairs := seq(|d.names|, i requires 0 <= i < |d.names| => Pair(d, i));
    var pieces := Pieces(d);
    forall i | 0 <= i < |pieces|
      ensures ',' !in pieces[i]
    {
      assert pieces[i] == (if i == 0 then "" else " ") + d.names[i] + "=" + d.values[i];
    }
    JoinCommaBlank(pairs);
    var blanked := [pairs[0]] + seq(|pairs| - 1, i requires 0 <= i < |pairs| - 1 => " " + pairs[i + 1]);
    forall i | 0 <= i < |pieces|
      ensures pieces[i] == blanked[i]
    {
      if i > 0 {
        assert blanked[i] == " " + pairs[i];
      }
    }
    assert pieces == blanked;
    SplitJoin(pieces, ',');
  }

  /** Joining with ", " is joining with "," after prefixing a blank to every
      piece but the first. */
  lemma {:induction false} JoinCommaBlank(ps: seq<string>)
    requires |ps| >= 1
    ensures Join(ps, ", ")
            == Join([ps[0]] + seq(|ps| - 1, i requires 0 <= i < |ps| - 1 => " " + ps[i + 1]), ",")
  {
    var blanked := seq(|ps| - 1, i requires 0 <= i < |ps| - 1 => " " + ps[i + 1]);
    if |ps| > 1 {
      JoinBlanked(ps[1..]);
      assert blanked == seq(|ps[1..]|, i requires 0 <= i < |ps[1..]| => " " + ps[1..][i]);
      assert ([ps[0]] + blanked)[1..] == blanked;
    }
  }

  lemma {:induction false} JoinBlanked(ps: seq<string>)
    requires |ps| >= 1
    ensures Join(seq(|ps|, i requires 0 <= i < |ps| => " " + ps[i]), ",") == " " + Join(ps, ", ")
  {
    var blanked := seq(|ps|, i requires 0 <= i < |ps| => " " + ps[i]);
    if |ps| > 1 {
      JoinBlanked(ps[1..]);
      assert blanked[1..] == seq(|ps[1..]|, i requires 0 <= i < |ps[1..]| => " " + ps[1..][i]);
    }
  }

  /** Titles tell assignments apart: equal titles over the same comma-free
      names and permitted values mean equal values. */
  lemma CombinedInjective(d1: Assignment, d2: Assignment)
    requires FullyAssigned(d1) && FullyAssigned(d2) && d1.names == d2.names && |d1.names| >= 1
    requires forall i :: 0 <= i < |d1.names| ==> ',' !in d1.names[i]
    requires Combined(d1) == Combined(d2)
    ensures d1 == d2
  {
    CommaFreePieces(d1);
    CommaFreePieces(d2);
    CombinedSplits(d1);
    CombinedSplits(d2);
    forall i | 0 <= i < |d1.names|
      ensures d1.values[i] == d2.values[i]
    {
      PieceValue(d1, i);
      PieceValue(d2, i);
    }
  }

  lemma CommaFreePieces(d: Assignment)
    requires FullyAssigned(d)
    ensures forall i :: 0 <= i < |d.names| ==> ',' !in d.values[i]
  {
    forall i | 0 <= i < |d.names|
      ensures ',' !in d.values[i]
    {
      PermittedHasNoComma(d.values[i]);
    }
  }

  /** The value is what follows the name and "=" in its piece. */
  lemma PieceValue(d: Assignment, i: nat)
    requires WellFormed(d) && i < |d.names|
    ensures var prefix := (if i == 0 then "" else " ") + d.names[i] + "=";
            d.values[i] == Pieces(d)[i][|prefix|..]
  {
    var prefix := (if i == 0 then "" else " ") + d.names[i] + "=";
    assert Pieces(d)[i] == prefix + d.values[i];
  }

  /** The `strings.NewReplacer(",", "_", "/", "_")` of `combinedPath`. */
  function PathSafe(s: string): (p: string)
    ensures |p| == |s|
    ensures forall i :: 0 <= i < |s| ==> p[i] == if s[i] == ',' || s[i] == '/' then '_' else s[i]
  {
    if |s| == 0 then "" else [if s[0] == ',' || s[0] == '/' then '_' else s[0]] + PathSafe(s[1..])
  }

  /** `combinedPath`: the title with every ',' and '/' turned into '_', so it
      contains neither, and every other character kept in place. */
  function CombinedPath(d: Assignment): (p: string)
    requires WellFormed(d)
    ensures |p| == |Combined(d)|
    ensures ',' !in p && '/' !in p
    ensures forall i :: 0 <= i < |p| && Combined(d)[i] != ',' && Combined(d)[i] != '/' ==> p[i] == Combined(d)[i]
  {
    PathSafe(Combined(d))
  }

  /** Chart paths need not be distinct: "/" and "_" collide, so two groups
      whose values differ only there write to the same path. */
  lemma PathCollision()
    ensures Assignment(["k"], ["a/b"]) != Assignment(["k"], ["a_b"])
    ensures CombinedPath(Assignment(["k"], ["a/b"])) == CombinedPath(Assignment(["k"], ["a_b"]))
  {
    var d1 := Assignment(["k"], ["a/b"]);
    var d2 := Assignment(["k"], ["a_b"]);
    assert Combined(d1) == "k=a/b";
    assert Combined(d2) == "k=a_b";
    assert "a/b"[1] != "a_b"[1];
    assert CombinedPath(d1) == "k=a_b" == CombinedPath(d2);
  }

  // ---------------------------------------------------------------------
  // Grouping: all dimensions but one held constant

  /** The list without its element at `e`. */
  function Without<T>(s: seq<T>, e: nat): (r: seq<T>)
    requires e < |s|
    ensures |r| == |s| - 1
    ensures forall i :: 0 <= i < |r| ==> r[i] == if i < e then s[i] else s[i + 1]
  {
    s[..e] + s[e + 1..]
  }

  /** A data set's place in the charts for excluded dimension `e`: the
      assignment of the other dimensions (the chart), and the excluded value
      (the label of its line). */
  datatype Labelled = Labelled(rest: Assignment, legend: string)

  /** Lines 214-223: copy every dimension but `e` into a new assignment over
      the remaining names, in order, and keep the value of `e` as the label. */
  function DropDimension(d: Assignment, e: nat): (r: Result<Labelled>)
    requires WellFormed(d) && e < |d.names|
    ensures r.Ok? ==> r.value.legend == d.values[e] && r.value.rest.names == Without(d.names, e)
  {
    var rest :- AssignEach(NewAssignment(Without(d.names, e)), Without(d.values, e), |d.names| - 1);
    Ok(Labelled(rest, d.values[e]))
  }

  /** The chart key a data set is grouped under. */
  function GroupKey(d: Assignment, e: nat): Result<string>
    requires WellFormed(d) && e < |d.names|
  {
    var l :- DropDimension(d, e);
    MapKey(l.rest)
  }

  /** For a fully assigned data set over distinct names, dropping a dimension
      keeps the other values, in order. */
  lemma DropDimensionValues(d: Assignment, e: nat)
    requires FullyAssigned(d) && Distinct(d.names) && e < |d.names|
    ensures DropDimension(d, e) == Ok(Labelled(Assignment(Without(d.names, e), Without(d.values, e)), d.values[e]))
    ensures FullyAssigned(Assignment(Without(d.names, e), Without(d.values, e)))
    ensures Distinct(Without(d.names, e))
  {
    var names := Without(d.names, e);
    var values := Without(d.values, e);
    WithoutDistinct(d.names, e);
    assert forall i :: 0 <= i < |values| ==> Permitted(values[i]) by {
      forall i | 0 <= i < |values|
        ensures Permitted(values[i])
      {
        var i' := if i < e then i else i + 1;
        assert values[i] == d.values[i'];
      }
    }
    AssignAllDistinct(names, values);
  }

  /** Removing one name keeps the others distinct. */
  lemma WithoutDistinct(names: seq<string>, e: nat)
    requires Distinct(names) && e < |names|
    ensures Distinct(Without(names, e))
  {
    var rest := Without(names, e);
    forall i, j | 0 <= i < j < |rest|
      ensures rest[i] != rest[j]
    {
      var i' := if i < e then i else i + 1;
      var j' := if j < e then j else j + 1;
      assert rest[i] == names[i'] && rest[j] == names[j'];
    }
  }

  /** Assigning one value to each of distinct names, in order, fills a new
      assignment with exactly those values. */
  lemma AssignAllDistinct(names: seq<string>, values: seq<string>)
    requires Distinct(names) && |values| == |names|
    requires forall i :: 0 <= i < |values| ==> Permitted(values[i])
    ensures AssignEach(NewAssignment(names), values, |names|) == Ok(Assignment(names, values))
  {
    var blank := NewAssignment(names);
    AssignEachDistinct(blank, values, |names|);
    assert values[..|names|] + blank.values[|names|..] == values;
  }

  /** The chart key of a fully assigned data set is the key of its other
      dimensions. */
  lemma GroupKeyOf(d: Assignment, e: nat)
    requires FullyAssigned(d) && Distinct(d.names) && |d.names| >= 2 && e < |d.names|
    ensures var rest := Assignment(Without(d.names, e), Without(d.values, e));
            && FullyAssigned(rest) && Distinct(rest.names) && |rest.names| >= 1
            && GroupKey(d, e) == MapKey(rest) && MapKey(rest).Ok?
  {
    DropDimensionValues(d, e);
    KeyRoundTrip(Assignment(Without(d.names, e), Without(d.values, e)));
  }

  /** Two data sets share a chart exactly when they agree on every dimension
      other than the excluded one. */
  lemma SameGroupIff(d1: Assignment, d2: Assignment, e: nat)
    requires FullyAssigned(d1) && FullyAssigned(d2) && d1.names == d2.names
    requires Distinct(d1.names) && |d1.names| >= 2 && e < |d1.names|
    ensures GroupKey(d1, e).Ok? && GroupKey(d2, e).Ok?
    ensures GroupKey(d1, e) == GroupKey(d2, e)
            <==> forall i :: 0 <= i < |d1.names| && i != e ==> d1.values[i] == d2.values[i]
  {
    GroupKeyOf(d1, e);
    GroupKeyOf(d2, e);
    var r1 := Assignment(Without(d1.names, e), Without(d1.values, e));
    var r2 := Assignment(Without(d2.names, e), Without(d2.values, e));
    if GroupKey(d1, e) == GroupKey(d2, e) {
      MapKeyInjective(r1, r2);
      WithoutEqual(d1.values, d2.values, e);
    } else {
      WithoutDiffers(d1.values, d2.values, e);
    }
  }

  lemma WithoutEqual(a: seq<string>, b: seq<string>, e: nat)
    requires |a| == |b| && e < |a| && Without(a, e) == Without(b, e)
    ensures forall i :: 0 <= i < |a| && i != e ==> a[i] == b[i]
  {
    forall i | 0 <= i < |a| && i != e
      ensures a[i] == b[i]
    {
      var k := if i < e then i else i - 1;
      assert Without(a, e)[k] == a[i] && Without(b, e)[k] == b[i];
    }
  }

  lemma WithoutDiffers(a: seq<string>, b: seq<string>, e: nat)
    requires |a| == |b| && e < |a| && Without(a, e) != Without(b, e)
    ensures exists i :: 0 <= i < |a| && i != e && a[i] != b[i]
  {
    var k :| 0 <= k < |a| - 1 && Without(a, e)[k] != Without(b, e)[k];
    var i := if k < e then k else k + 1;
    assert a[i] != b[i];
  }

  /** Within one chart every data set has its own label, so building
      `labelledPlotsMaps` never overwrites a line. */
  lemma LabelsTellGroupMembersApart(d1: Assignment, d2: Assignment, e: nat)
    requires FullyAssigned(d1) && FullyAssigned(d2) && d1.names == d2.names
    requires Distinct(d1.names) && |d1.names| >= 2 && e < |d1.names|
    requires GroupKey(d1, e) == GroupKey(d2, e)
    requires d1.values[e] == d2.values[e]
    ensures d1 == d2
  {
    SameGroupIff(d1, d2, e);
    DropDimensionValues(d1, e);
    DropDimensionValues(d2, e);
    assert d1.values == d2.values;
  }

  /** One line of a chart: the excluded dimension's value and the data set's key. */
  datatype Member = Member(legend: string, key: string)

  /** Where the data set filed under `key` goes: the chart key and its line. */
  datatype Placement = Placement(group: string, member: Member)

  /** Lines 214-225 for one data set. */
  function Place(names: seq<string>, key: string, e: nat): (r: Result<Placement>)
    requires e < |names|
    ensures r.Ok? ==> r.value.member.key == key
  {
    var d :- ParseKey(names, key);
    var l :- DropDimension(d, e);
    var g :- MapKey(l.rest);
    Ok(Placement(g, Member(l.legend, key)))
  }

  /** Every data set in `keys` converts and drops the excluded dimension. */
  predicate AllPlaced(names: seq<string>, keys: seq<string>, e: nat)
    requires e < |names|
  {
    forall i :: 0 <= i < |keys| ==> Place(names, keys[i], e).Ok?
  }

  lemma AllPlacedInit(names: seq<string>, keys: seq<string>, e: nat)
    requires e < |names| && |keys| > 0
    ensures AllPlaced(names, keys, e) <==>
              AllPlaced(names, keys[..|keys| - 1], e) && Place(names, keys[|keys| - 1], e).Ok?
  {
    var init := keys[..|keys| - 1];
    assert forall i :: 0 <= i < |init| ==> init[i] == keys[i];
  }

  /** Lines 212-227: the data sets, visited in map iteration order `keys`,
      filed by chart key; each chart's lines in visiting order. */
  function Grouped(names: seq<string>, keys: seq<string>, e: nat): (r: Result<map<string, seq<Member>>>)
    requires e < |names|
    ensures r.Ok? <==> AllPlaced(names, keys, e)
  {
    if |keys| == 0 then Ok(map[])
    else
      var n := |keys|;
      AllPlacedInit(names, keys, e);
      var m :- Grouped(names, keys[..n - 1], e);
      var p :- Place(names, keys[n - 1], e);
      Ok(m[p.group := (if p.group in m then m[p.group] else []) + [p.member]])
  }

  /** The lines of chart `g`: every data set placed there, in visiting order. */
  function Members(names: seq<string>, keys: seq<string>, e: nat, g: string): seq<Member>
    requires e < |names|
    requires forall i :: 0 <= i < |keys| ==> Place(names, keys[i], e).Ok?
  {
    if |keys| == 0 then []
    else
      var n := |keys|;
      assert forall i :: 0 <= i < n - 1 ==> keys[..n - 1][i] == keys[i];
      var p := Place(names, keys[n - 1], e).value;
      Members(names, keys[..n - 1], e, g) + (if p.group == g then [p.member] else [])
  }

  /** The grouping loop files every data set under its own chart key and
      nowhere else: each chart holds exactly its members, in order. */
  lemma {:induction false} GroupedHoldsMembers(names: seq<string>, keys: seq<string>, e: nat)
    requires e < |names| && Grouped(names, keys, e).Ok?
    ensures forall g :: g in Grouped(names, keys, e).value <==> Members(names, keys, e, g) != []
    ensures forall g :: g in Grouped(names, keys, e).value ==>
              Grouped(names, keys, e).value[g] == Members(names, keys, e, g)
  {
    var n := |keys|;
    if n > 0 {
      var init := keys[..n - 1];
      assert forall i :: 0 <= i < n - 1 ==> init[i] == keys[i];
      GroupedHoldsMembers(names, init, e);
    }
  }

  /** Every line of chart `g` belongs to a visited data set placed in `g`. */
  lemma {:induction false} MembersPlaced(names: seq<string>, keys: seq<string>, e: nat, g: string, j: nat)
    requires e < |names|
    requires forall i :: 0 <= i < |keys| ==> Place(names, keys[i], e).Ok?
    requires j < |Members(names, keys, e, g)|
    ensures var x := Members(names, keys, e, g)[j];
            exists i :: 0 <= i < |keys| && keys[i] == x.key && Place(names, keys[i], e).value == Placement(g, x)
  {
    var n := |keys|;
    var init := keys[..n - 1];
    assert forall i :: 0 <= i < n - 1 ==> init[i] == keys[i];
    var x := Members(names, keys, e, g)[j];
    if j < |Members(names, init, e, g)| {
      MembersPlaced(names, init, e, g, j);
      var i :| 0 <= i < n - 1 && init[i] == x.key && Place(names, init[i], e).value == Placement(g, x);
      assert keys[i] == init[i];
    } else {
      assert Place(names, keys[n - 1], e).value == Placement(g, x);
    }
  }

  /** Two distinct data sets never share both chart and legend: with distinct
      dimension names, the map from legend to line built for each chart
      (`labelledPlotsMaps`) loses no line. */
  lemma DistinctLegends(names: seq<string>, k1: string, k2: string, e: nat)
    requires Distinct(names) && |names| >= 2 && e < |names|
    requires Place(names, k1, e).Ok? && Place(names, k2, e).Ok?
    requires Place(names, k1, e).value.group == Place(names, k2, e).value.group
    requires Place(names, k1, e).value.member.legend == Place(names, k2, e).value.member.legend
    ensures k1 == k2
  {
    var d1 := ParseKey(names, k1).value;
    var d2 := ParseKey(names, k2).value;
    KeyRoundTripBack(names, k1);
    KeyRoundTripBack(names, k2);
    DropDimensionValues(d1, e);
    DropDimensionValues(d2, e);
    LabelsTellGroupMembersApart(d1, d2, e);
  }

  /** Hence within each chart the legends are pairwise distinct. */
  lemma ChartLegendsDistinct(names: seq<string>, keys: seq<string>, e: nat, g: string, a: nat, b: nat)
    requires Distinct(names) && |names| >= 2 && e < |names| && Distinct(keys)
    requires Grouped(names, keys, e).Ok? && g in Grouped(names, keys, e).value
    requires a < b < |Grouped(names, keys, e).value[g]|
    ensures Grouped(names, keys, e).value[g][a].legend != Grouped(names, keys, e).value[g][b].legend
  {
    GroupedHoldsMembers(names, keys, e);
    var ms := Members(names, keys, e, g);
    MembersPlaced(names, keys, e, g, a);
    MembersPlaced(names, keys, e, g, b);
    MembersKeysDistinct(names, keys, e, g, a, b);
    if ms[a].legend == ms[b].legend {
      DistinctLegends(names, ms[a].key, ms[b].key, e);
    }
  }

  /** Distinct visited keys give distinct lines within a chart. */
  lemma {:induction false} MembersKeysDistinct(names: seq<string>, keys: seq<string>, e: nat, g: string, a: nat, b: nat)
    requires e < |names| && Distinct(keys)
    requires forall i :: 0 <= i < |keys| ==> Place(names, keys[i], e).Ok?
    requires a < b < |Members(names, keys, e, g)|
    ensures Members(names, keys, e, g)[a].key != Members(names, keys, e, g)[b].key
  {
    var n := |keys|;
    var init := keys[..n - 1];
    assert forall i :: 0 <= i < n - 1 ==> init[i] == keys[i];
    assert Distinct(init);
    var ms0 := Members(names, init, e, g);
    if b < |ms0| {
      MembersKeysDistinct(names, init, e, g, a, b);
    } else {
      MembersPlaced(names, init, e, g, a);
      var i :| 0 <= i < n - 1 && init[i] == ms0[a].key && Place(names, init[i], e).value == Placement(g, ms0[a]);
      assert keys[i] != keys[n - 1];
    }
  }

  // ---------------------------------------------------------------------
  // Rows

  /** Lines 181-187: look up and assign the first `k` dimensions of a row. */
  function RowAssignment(t: Table, row: seq<string>, names: seq<string>, k: nat): (r: Result<Assignment>)
    requires k <= |names|
    ensures r.Ok? ==> r.value.names == names && WellFormed(r.value)
  {
    if k == 0 then Ok(NewAssignment(names))
    else
      var d :- RowAssignment(t, row, names, k - 1);
      var v :- GetRowValue(t, row, names[k - 1]);
      Assign(d, names[k - 1], v)
  }

  /** The row has the column and its value is permitted. */
  predicate ColumnOk(t: Table, row: seq<string>, name: string) {
    GetRowValue(t, row, name).Ok? && Permitted(GetRowValue(t, row, name).value)
  }

  /** One more dimension of a row: it succeeds exactly when the earlier ones
      did and the column exists and holds a permitted value, and it fills
      slot k-1 (distinct names). */
  lemma RowAssignmentStep(t: Table, row: seq<string>, names: seq<string>, k: nat)
    requires 0 < k <= |names| && Distinct(names)
    ensures var prev := RowAssignment(t, row, names, k - 1);
            var v := GetRowValue(t, row, names[k - 1]);
            && (RowAssignment(t, row, names, k).Ok? <==> prev.Ok? && ColumnOk(t, row, names[k - 1]))
            && (RowAssignment(t, row, names, k).Ok? ==>
                  RowAssignment(t, row, names, k).value.values == prev.value.values[k - 1 := v.value])
  {
    var prev := RowAssignment(t, row, names, k - 1);
    var v := GetRowValue(t, row, names[k - 1]);
    if prev.Ok? && v.Ok? && Permitted(v.value) {
      FirstIndexDistinct(names, k - 1);
    }
  }

  /** A row yields a data set exactly when each dimension column exists and
      holds a permitted value. */
  lemma {:induction false} RowAssignmentOk(t: Table, row: seq<string>, names: seq<string>, k: nat)
    requires k <= |names| && Distinct(names)
    ensures RowAssignment(t, row, names, k).Ok? <==> forall i :: 0 <= i < k ==> ColumnOk(t, row, names[i])
  {
    if k > 0 {
      RowAssignmentOk(t, row, names, k - 1);
      RowAssignmentStep(t, row, names, k);
    }
  }

  /** The data set a row yields holds the row's dimension columns, in order. */
  lemma {:induction false} RowAssignmentValues(t: Table, row: seq<string>, names: seq<string>, k: nat)
    requires k <= |names| && Distinct(names) && RowAssignment(t, row, names, k).Ok?
    ensures var values := RowAssignment(t, row, names, k).value.values;
            forall i :: 0 <= i < |names| ==>
              (i < k ==> GetRowValue(t, row, names[i]) == Ok(values[i])) && (k <= i ==> values[i] == "")
  {
    if k > 0 {
      RowAssignmentStep(t, row, names, k);
      RowAssignmentValues(t, row, names, k - 1);
      var prev := RowAssignment(t, row, names, k - 1).value.values;
      var values := RowAssignment(t, row, names, k).value.values;
      forall i | 0 <= i < |names|
        ensures (i < k ==> GetRowValue(t, row, names[i]) == Ok(values[i])) && (k <= i ==> values[i] == "")
      {
        if i != k - 1 {
          assert values[i] == prev[i];
        }
      }
    }
  }

  /** The key a row is filed under (line 192) parses back to the row's
      dimension values, which is what the grouping loop relies on. */
  lemma RowKeyParsesBack(t: Table, row: seq<string>, names: seq<string>)
    requires Distinct(names) && |names| >= 1
    requires RowAssignment(t, row, names, |names|).Ok?
    ensures MapKey(RowAssignment(t, row, names, |names|).value).Ok?
    ensures ParseKey(names, MapKey(RowAssignment(t, row, names, |names|).value).value)
            == RowAssignment(t, row, names, |names|)
  {
    RowAssignmentOk(t, row, names, |names|);
    RowAssignmentValues(t, row, names, |names|);
    var d := RowAssignment(t, row, names, |names|).value;
    assert FullyAssigned(d) by {
      forall i | 0 <= i < |d.values|
        ensures Permitted(d.values[i])
      {
        assert ColumnOk(t, row, names[i]);
      }
    }
    KeyRoundTrip(d);
  }
}
