/**
 * The checks of the Kotlin debugger's smart-step-into test: the expected targets are
 * read from `// EXISTS: ` directives, compared with the targets found as sets, and on
 * a mismatch both lists are rendered side by side as a table.
 */
module SmartStepInto {
  import opened Wrappers
  import opened Text
  import Seqs

  /** Lexicographic order on code units: unit by unit, a proper prefix coming first. */
  predicate UnitsLe(a: seq<int>, b: seq<int>)
    decreases |a|
  {
    if a == [] then true
    else if b == [] then false
    else if a[0] != b[0] then a[0] < b[0]
    else UnitsLe(a[1..], b[1..])
  }

  /** Of two code-unit sequences, one is at most the other. */
  lemma {:induction false} UnitsLeTotal(a: seq<int>, b: seq<int>)
    ensures UnitsLe(a, b) || UnitsLe(b, a)
    decreases |a|
  {
    if a != [] && b != [] && a[0] == b[0] {
      UnitsLeTotal(a[1..], b[1..]);
    }
  }

  /** `String.compareTo(b) <= 0`: the strings' UTF-16 code units compared in order. */
  predicate LexLe(a: string, b: string)
  {
    UnitsLe(Units(a), Units(b))
  }

  /** Of two strings, one is at most the other. */
  lemma LexLeTotal(a: string, b: string)
    ensures LexLe(a, b) || LexLe(b, a)
  {
    UnitsLeTotal(Units(a), Units(b));
  }

  /**
   * The order is by code unit, not by character: a supplementary character, whose high
   * surrogate is below 0xE000, comes before U+FFFD.
   */
  lemma SupplementaryBeforeReplacementChar()
    ensures LexLe("\U{1F600}", "\U{FFFD}") && !LexLe("\U{FFFD}", "\U{1F600}")
  {
    var a, b := "\U{1F600}", "\U{FFFD}";
    assert a[..0] == [] && b[..0] == [];
    assert Units(a) == [0xD83D, 0xDE00];
    assert Units(b) == [0xFFFD];
  }

  /** Each string is at most the next. */
  predicate Sorted(xs: seq<string>)
  {
    forall i :: 0 <= i < |xs| - 1 ==> LexLe(xs[i], xs[i + 1])
  }

  /** `x` put into the sorted `xs` before the first string it is at most. */
  function InsertSorted(x: string, xs: seq<string>): (r: seq<string>)
    requires Sorted(xs)
    ensures multiset(r) == multiset(xs) + multiset{x}
    ensures Sorted(r)
    ensures r[0] == x || (xs != [] && r[0] == xs[0])
    decreases |xs|
  {
    if xs == [] then [x]
    else if LexLe(x, xs[0]) then [x] + xs
    else
      var rest := InsertSorted(x, xs[1..]);
      LexLeTotal(x, xs[0]);
      assert xs == [xs[0]] + xs[1..];
      [xs[0]] + rest
  }

  /** `sorted()`: the same strings in ascending order. */
  function SortStrings(xs: seq<string>): (r: seq<string>)
    ensures multiset(r) == multiset(xs) && Sorted(r)
    decreases |xs|
  {
    if xs == [] then []
    else
      assert xs == xs[..|xs| - 1] + [xs[|xs| - 1]];
      InsertSorted(xs[|xs| - 1], SortStrings(xs[..|xs| - 1]))
  }

  /** `maxOfOrNull { it.length } ?: 0`: the greatest length in code units, 0 for no strings. */
  function MaxLength(xs: seq<string>): (m: nat)
    ensures forall x :: x in xs ==> Length(x) <= m
    ensures xs == [] ==> m == 0
    ensures xs != [] ==> exists x :: x in xs && Length(x) == m
    decreases |xs|
  {
    if xs == [] then 0
    else
      var m := MaxLength(xs[..|xs| - 1]);
      var last := xs[|xs| - 1];
      assert xs == xs[..|xs| - 1] + [last];
      if Length(last) > m then Length(last) else m
  }

  /** The lists as `renderTableWithResults` lays them out, and the first column's width. */
  datatype Layout = Layout(longer: seq<string>, shorter: seq<string>, width: nat)

  /** The lists as `renderTableWithResults` lays them out. */
  function LayoutOf(expected: seq<string>, actual: seq<string>): Layout
  {
    var longer := if |expected| < |actual| then actual else expected;
    var shorter := if |expected| < |actual| then expected else actual;
    Layout(SortStrings(longer), SortStrings(shorter), MaxLength(expected) + 5)
  }

  /**
   * The first column holds the sorted `actual` only when it is strictly longer than
   * `expected`; on a tie it holds `expected`. The width is the longest expected target
   * plus five.
   */
  lemma LayoutChoice(expected: seq<string>, actual: seq<string>)
    ensures var l := LayoutOf(expected, actual);
      && l.width == MaxLength(expected) + 5
      && (|expected| < |actual| ==> multiset(l.longer) == multiset(actual) && multiset(l.shorter) == multiset(expected))
      && (|actual| <= |expected| ==> multiset(l.longer) == multiset(expected) && multiset(l.shorter) == multiset(actual))
      && Sorted(l.longer) && Sorted(l.shorter)
  {
  }

  /** The second column's entry in row `i`: nothing once the shorter list has run out. */
  function Other(shorter: seq<string>, i: nat): string
  {
    if i < |shorter| then shorter[i] else ""
  }

  /**
   * One row: the element padded with spaces to the width, the other list's entry, a line
   * break. Widths are `String.length`s, counted in code units (`LineLayout`).
   */
  function Line(element: string, width: nat, other: string): (line: string)
    requires Length(element) <= width
    ensures |line| == |element| + (width - Length(element)) + |other| + 1
  {
    element + Repeat(' ', width - Length(element)) + other + "\n"
  }

  /**
   * A row starts with the element, spaces follow it up to code unit `width`, and the
   * other entry and a line break come after: the second column starts at the same place
   * in every row.
   */
  lemma LineLayout(element: string, width: nat, other: string)
    requires Length(element) <= width
    ensures var line, col := Line(element, width, other), |element| + (width - Length(element));
      && line[..|element|] == element && line[col..] == other + "\n"
      && (forall k :: |element| <= k < col ==> line[k] == ' ')
      && Length(line[..col]) == width
  {
    var pad := Repeat(' ', width - Length(element));
    var line := Line(element, width, other);
    assert line == (element + pad) + (other + "\n");
    assert line[..|element| + |pad|] == element + pad;
    PaddedLength(element, width);
  }

  /** Each space of the padding is one code unit: the padded element is `width` units long. */
  lemma PaddedLength(element: string, width: nat)
    requires Length(element) <= width
    ensures Length(element + Repeat(' ', width - Length(element))) == width
  {
    var pad := Repeat(' ', width - Length(element));
    UnitsAppend(element, pad);
    BmpUnits(pad);
  }

  /** All of the first `n` elements of `ls` fit the column. */
  predicate Fits(ls: seq<string>, width: nat, n: nat)
    requires n <= |ls|
  {
    forall j :: 0 <= j < n ==> Length(ls[j]) <= width
  }

  /** The first `n` rows of the table, one per element of the first column, in order. */
  function Rows(ls: seq<string>, shorter: seq<string>, width: nat, n: nat): string
    requires n <= |ls| && Fits(ls, width, n)
    decreases n
  {
    if n == 0 then "" else Rows(ls, shorter, width, n - 1) + Line(ls[n - 1], width, Other(shorter, n - 1))
  }

  /** The rows of the whole first column, or None when an element is wider than the column. */
  function Render(ls: seq<string>, shorter: seq<string>, width: nat): Option<string>
  {
    if Fits(ls, width, |ls|) then Some(Rows(ls, shorter, width, |ls|)) else None
  }

  /**
   * The table `renderTableWithResults` builds, or None when `" ".repeat` is given a
   * negative count because a first-column element is wider than the column. That
   * happens only when the found targets are the longer list and one of them is more than
   * five code units longer than every expected target; with `expected` at least as long
   * as `actual`, the table is always built.
   */
  function Table(expected: seq<string>, actual: seq<string>): (r: Option<string>)
    ensures r.None? <==> |expected| < |actual| && exists x :: x in actual && Length(x) > MaxLength(expected) + 5
    ensures |actual| <= |expected| ==> r.Some?
  {
    var l := LayoutOf(expected, actual);
    LayoutChoice(expected, actual);
    FitsSameMembers(l.longer, if |expected| < |actual| then actual else expected, l.width);
    Render(l.longer, l.shorter, l.width)
  }

  /** `renderTableWithResults`: sorts both lists, then renders their rows. */
  method RenderTableWithResults(expected: seq<string>, actual: seq<string>) returns (r: Option<string>)
    ensures r == Table(expected, actual)
  {
    var maxExtStrSize := MaxLength(expected) + 5;
    var longerList := SortStrings(if |expected| < |actual| then actual else expected);
    var shorterList := SortStrings(if |expected| < |actual| then expected else actual);
    r := RenderRows(longerList, shorterList, maxExtStrSize);
    assert LayoutOf(expected, actual).longer == longerList;
    assert LayoutOf(expected, actual).shorter == shorterList;
    assert LayoutOf(expected, actual).width == maxExtStrSize;
  }

  /**
   * The loop of `renderTableWithResults`: one row per element of the first column, or
   * None at the first element wider than the column.
   */
  method RenderRows(longerList: seq<string>, shorterList: seq<string>, maxExtStrSize: nat) returns (r: Option<string>)
    ensures r == Render(longerList, shorterList, maxExtStrSize)
  {
    var sb := "";
    var i := 0;
    while i < |longerList|
      invariant 0 <= i <= |longerList| && Fits(longerList, maxExtStrSize, i)
      invariant sb == Rows(longerList, shorterList, maxExtStrSize, i)
    {
      var element := longerList[i];
      if maxExtStrSize - Length(element) < 0 {
        return None;
      }
      ghost var before := sb;
      sb := sb + element;
      sb := sb + Repeat(' ', maxExtStrSize - Length(element));
      if i < |shorterList| {
        sb := sb + shorterList[i];
      }
      sb := sb + "\n";
      RowAppended(before, element, maxExtStrSize, Other(shorterList, i), sb);
      i := i + 1;
    }
    return Some(sb);
  }

  /** Appending a row piece by piece appends the row. */
  lemma RowAppended(before: string, element: string, width: nat, other: string, after: string)
    requires Length(element) <= width
    requires after == before + element + Repeat(' ', width - Length(element)) + other + "\n"
      || (other == "" && after == before + element + Repeat(' ', width - Length(element)) + "\n")
    ensures after == before + Line(element, width, other)
  {
    var pad := Repeat(' ', width - Length(element));
    if other == "" {
      assert before + element + pad + other == before + element + pad;
    }
    assert before + element + pad + other + "\n" == before + (element + pad + other + "\n");
  }

  /** A column fits exactly when every member of a list with the same multiset fits. */
  lemma FitsSameMembers(ls: seq<string>, xs: seq<string>, width: nat)
    requires multiset(ls) == multiset(xs)
    ensures Fits(ls, width, |ls|) <==> forall x :: x in xs ==> Length(x) <= width
  {
    Seqs.SameMembers(ls, xs);
    if Fits(ls, width, |ls|) {
      forall x | x in xs
        ensures Length(x) <= width
      {
        var j :| 0 <= j < |ls| && ls[j] == x;
      }
    } else {
      var j :| 0 <= j < |ls| && Length(ls[j]) > width;
      assert ls[j] in xs;
    }
  }

  /**
   * When neither column holds a line break, the rendered rows hold exactly one line
   * break each: the table has one line per first-column element.
   */
  lemma {:induction false} RowsLineCount(ls: seq<string>, shorter: seq<string>, width: nat, n: nat)
    requires n <= |ls| && Fits(ls, width, n)
    requires forall j :: 0 <= j < |ls| ==> BreakFree(ls[j])
    requires forall j :: 0 <= j < |shorter| ==> BreakFree(shorter[j])
    ensures Count(Rows(ls, shorter, width, n), '\n') == n
    decreases n
  {
    if n > 0 {
      assert Fits(ls, width, n - 1);
      RowsLineCount(ls, shorter, width, n - 1);
      assert BreakFree(Other(shorter, n - 1)) by {
        if n - 1 < |shorter| {
          assert BreakFree(shorter[n - 1]);
        }
      }
      RowAddsOneBreak(ls, shorter, width, n);
    }
  }

  /** A row of break-free entries adds one line break to the `n - 1` of the rows before it. */
  lemma RowAddsOneBreak(ls: seq<string>, shorter: seq<string>, width: nat, n: nat)
    requires 0 < n <= |ls| && Fits(ls, width, n)
    requires BreakFree(ls[n - 1]) && BreakFree(Other(shorter, n - 1))
    requires Count(Rows(ls, shorter, width, n - 1), '\n') == n - 1
    ensures Count(Rows(ls, shorter, width, n), '\n') == n
  {
    var prev := Rows(ls, shorter, width, n - 1);
    var line := Line(ls[n - 1], width, Other(shorter, n - 1));
    LineHasOneBreak(ls[n - 1], width, Other(shorter, n - 1));
    CountAppend(prev, line, '\n');
  }

  /** No line break in `s`. */
  predicate BreakFree(s: string)
  {
    forall k :: 0 <= k < |s| ==> s[k] != '\n'
  }

  /** A row of two break-free entries holds one line break, its last char. */
  lemma LineHasOneBreak(element: string, width: nat, other: string)
    requires Length(element) <= width
    requires BreakFree(element) && BreakFree(other)
    ensures Count(Line(element, width, other), '\n') == 1
  {
    var line := Line(element, width, other);
    LineLayout(element, width, other);
    var body := line[..|line| - 1];
    assert line == body + "\n";
    forall k | 0 <= k < |body|
      ensures body[k] != '\n'
    {
      if k < |element| {
        assert body[k] == element[k];
      } else if k >= |element| + (width - Length(element)) {
        assert body[k] == other[k - |element| - (width - Length(element))];
      }
    }
    CountAbsent(body, '\n');
    CountAppend(body, "\n", '\n');
    assert "\n"[..0] == [];
  }

  /** What the two assertion loops of `doTest` report: nothing, or the first offending target. */
  datatype Outcome = Pass | Unexpected(target: string) | Missed(target: string)

  /** The first of `xs` that is not in `ys`. */
  function FirstMissing(xs: seq<string>, ys: seq<string>): (r: Option<string>)
    ensures r.None? <==> forall x :: x in xs ==> x in ys
    ensures r.Some? ==> r.value in xs && r.value !in ys
    decreases |xs|
  {
    if xs == [] then None
    else if xs[0] !in ys then Some(xs[0])
    else
      assert xs == [xs[0]] + xs[1..];
      FirstMissing(xs[1..], ys)
  }

  /** `doTest`'s checks: every found target must be expected, then every expected target found. */
  function CheckTargets(expected: seq<string>, actual: seq<string>): (r: Outcome)
    ensures r == Pass <==> (forall x :: x in actual ==> x in expected) && (forall x :: x in expected ==> x in actual)
    ensures r.Unexpected? ==> r.target in actual && r.target !in expected
    ensures r.Missed? ==> r.target in expected && r.target !in actual && forall x :: x in actual ==> x in expected
  {
    match FirstMissing(actual, expected)
    case Some(t) => Unexpected(t)
    case None =>
      match FirstMissing(expected, actual)
      case Some(t) => Missed(t)
      case None => Pass
  }

  /** The check passes exactly when the two lists hold the same targets, as sets. */
  lemma CheckIsSetEquality(expected: seq<string>, actual: seq<string>)
    ensures CheckTargets(expected, actual) == Pass <==> (set x | x in expected) == (set x | x in actual)
    ensures CheckTargets(expected, actual).Unexpected? ==>
      CheckTargets(expected, actual).target in actual && CheckTargets(expected, actual).target !in expected
    ensures CheckTargets(expected, actual).Missed? ==>
      CheckTargets(expected, actual).target in expected && CheckTargets(expected, actual).target !in actual
  {
    var e, a := set x | x in expected, set x | x in actual;
    if e == a {
      assert forall x :: x in actual ==> x in a;
      assert forall x :: x in expected ==> x in e;
    }
  }

  const EscapedComma: string := "\\,"
  const Placeholder: string := "+++"

  /**
   * The expected targets: `\,` in the file text is protected as `+++` while the host
   * splits the `// EXISTS: ` directives into a list (`findList`), then `+++` becomes `,`.
   */
  function ExpectedTargets(text: string, findList: string -> seq<string>): (r: seq<string>)
    ensures |r| == |findList(Replace(text, EscapedComma, Placeholder))|
    ensures forall i :: 0 <= i < |r| ==> r[i] == Replace(findList(Replace(text, EscapedComma, Placeholder))[i], Placeholder, ",")
  {
    var items := findList(Replace(text, EscapedComma, Placeholder));
    seq(|items|, i requires 0 <= i < |items| => Replace(items[i], Placeholder, ","))
  }

  /**
   * Protecting `\,` as `+++` and restoring `+++` as `,` turns each `\,` into `,`, as long
   * as the text has no `+` of its own.
   */
  lemma {:induction false} ProtectThenRestore(t: string)
    requires forall k :: 0 <= k < |t| ==> t[k] != '+'
    ensures Replace(Replace(t, EscapedComma, Placeholder), Placeholder, ",") == Replace(t, EscapedComma, ",")
    decreases |t|
  {
    if |t| < 2 {
    } else if t[..2] == EscapedComma {
      var rest := Replace(t[2..], EscapedComma, Placeholder);
      ProtectThenRestore(t[2..]);
      assert (Placeholder + rest)[..3] == Placeholder && (Placeholder + rest)[3..] == rest;
    } else {
      var rest := Replace(t[1..], EscapedComma, Placeholder);
      ProtectThenRestore(t[1..]);
      var u := [t[0]] + rest;
      if |u| >= 3 {
        assert u[..3] != Placeholder by {
          assert u[0] == t[0];
        }
        assert u[1..] == rest;
      }
    }
  }

  /**
   * Near a `+` of the text's own the protection misfires: a `+` before `\,` ends up after
   * the comma, and a literal `+++` becomes a comma.
   */
  lemma PlusBeforeEscapedComma()
    ensures Replace(Replace("+\\,", EscapedComma, Placeholder), Placeholder, ",") == ",+"
    ensures Replace("+\\,", EscapedComma, ",") == "+,"
    ensures Replace(Replace("+++", EscapedComma, Placeholder), Placeholder, ",") == ","
  {
    assert Replace("+\\,", EscapedComma, Placeholder) == "++++" by {
      assert "+\\,"[..2] != EscapedComma && "+\\,"[1..] == EscapedComma;
      assert "+\\,"[1..][..2] == EscapedComma && "+\\,"[1..][2..] == [];
    }
    assert Replace("++++", Placeholder, ",") == ",+" by {
      assert "++++"[..3] == Placeholder && "++++"[3..] == "+";
    }
    assert Replace("+\\,", EscapedComma, ",") == "+," by {
      assert "+\\,"[1..][..2] == EscapedComma && "+\\,"[1..][2..] == [];
    }
    assert Replace("+++", EscapedComma, Placeholder) == "+++" by {
      assert "+++"[..2] != EscapedComma && "+++"[1..] == "++";
      assert "++"[..2] != EscapedComma && "++"[1..] == "+";
    }
    assert "+++"[..3] == Placeholder && "+++"[3..] == [];
  }
}
