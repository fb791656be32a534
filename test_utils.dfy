/**
 * The string handling of the Kotlin plugin's test utilities: extracting caret markers
 * from a document, and the `// ERROR: ` header that records a file's errors.
 */
module TestUtils {
  import opened Text
  import Seqs

  /** An editor document: only its text is modelled. */
  class Document {
    var text: string

    constructor (text: string)
      ensures this.text == text
    {
      this.text := text;
    }

    /** `setText`. */
    method SetText(t: string)
      modifies this
      ensures text == t
    {
      text := t;
    }
  }

  /** `t` with the `n` chars from index `k` deleted: `StringBuilder.delete(k, k + n)`. */
  function Delete(t: string, k: nat, n: nat): (r: string)
    requires k + n <= |t|
    ensures |r| == |t| - n && r[..k] == t[..k] && r[k..] == t[k + n..]
  {
    t[..k] + t[k + n..]
  }

  /** `t` with `m` inserted before index `k`. */
  function Insert(t: string, k: nat, m: string): (r: string)
    requires k <= |t|
    ensures |r| == |t| + |m| && r[..k] == t[..k] && r[k..k + |m|] == m && r[k + |m|..] == t[k..]
  {
    t[..k] + m + t[k..]
  }

  /**
   * The text left after removing markers, and each removal in order: its character
   * index (`offsets`) and the offset `StringBuilder.indexOf` reports for it, which counts
   * UTF-16 code units (`reported`).
   */
  datatype Extraction = Extraction(text: string, offsets: seq<nat>, reported: seq<nat>)

  /**
   * Removing the first occurrence of `marker` until there is none. Each offset is taken
   * in the text as it was after the previous removals. The text loses `|marker|` chars
   * per offset and ends with no occurrence of the marker. A marker made of whole
   * characters is found at the same place whether the text is read as characters or as
   * code units, so the character index is searched for and converted.
   */
  function Extract(t: string, marker: string): (e: Extraction)
    requires |marker| > 0
    ensures !Contains(e.text, marker)
    ensures |e.text| + |marker| * |e.offsets| == |t|
    ensures |e.reported| == |e.offsets|
    decreases |t|
  {
    var k := IndexOf(t, marker);
    if k == -1 then Extraction(t, [], [])
    else
      var d := Delete(t, k, |marker|);
      var rest := Extract(d, marker);
      MulSucc(|marker|, |rest.offsets|);
      Extraction(rest.text, [k] + rest.offsets, [Length(t[..k])] + rest.reported)
  }

  lemma MulSucc(a: nat, b: nat)
    ensures a * (b + 1) == a * b + a
  {
  }

  /** On text in the Basic Multilingual Plane the reported offsets are the character indices. */
  lemma {:induction false} BmpReportedOffsets(t: string, marker: string)
    requires |marker| > 0 && Bmp(t)
    ensures Extract(t, marker).reported == Extract(t, marker).offsets
    decreases |t|
  {
    var k := IndexOf(t, marker);
    if k != -1 {
      var d := Delete(t, k, |marker|);
      assert Bmp(d) by {
        forall j | 0 <= j < |d|
          ensures d[j] as int < 0x10000
        {
          if j < k {
            assert d[j] == t[j];
          } else {
            assert d[j] == t[j + |marker|];
          }
        }
      }
      BmpReportedOffsets(d, marker);
      BmpUnits(t[..k]);
    }
  }

  /** A supplementary character before a marker counts twice in the reported offset. */
  lemma SupplementaryOffset()
    ensures Extract("\U{1F600}<caret>", "<caret>").offsets == [1]
    ensures Extract("\U{1F600}<caret>", "<caret>").reported == [2]
  {
    var t, m := "\U{1F600}<caret>", "<caret>";
    assert !OccursAt(t, m, 0);
    assert OccursAt(t, m, 1);
    assert IndexOf(t, m) == 1;
    var d := Delete(t, 1, |m|);
    assert d == "\U{1F600}";
    assert !OccursAt(d, m, 0) && !OccursAt(d, m, 1);
    assert IndexOf(d, m) == -1;
    assert t[..1][..0] == [];
    assert Units(t[..1]) == [0xD83D, 0xDE00];
  }

  /** Putting the marker back at the offsets, the last removal first, rebuilds the text. */
  function Restore(t: string, marker: string, offsets: seq<nat>): string
    decreases |offsets|
  {
    if offsets == [] then t
    else
      var inner := Restore(t, marker, offsets[1..]);
      if offsets[0] <= |inner| then Insert(inner, offsets[0], marker) else inner
  }

  /** The offsets `Extract` records undo it: reinserting the marker gives the original text back. */
  lemma {:induction false} ExtractRestore(t: string, marker: string)
    requires |marker| > 0
    ensures var e := Extract(t, marker); Restore(e.text, marker, e.offsets) == t
    decreases |t|
  {
    var k := IndexOf(t, marker);
    if k != -1 {
      var d := Delete(t, k, |marker|);
      var rest := Extract(d, marker);
      ExtractRestore(d, marker);
      var e := Extract(t, marker);
      assert e.offsets[0] == k && e.offsets[1..] == rest.offsets;
      assert Restore(e.text, marker, e.offsets) == Insert(d, k, marker);
      ReinsertDeleted(t, k, marker);
    }
  }

  /** Deleting an occurrence of `m` and inserting `m` at the same place gives the text back. */
  lemma ReinsertDeleted(t: string, k: nat, m: string)
    requires OccursAt(t, m, k)
    ensures Insert(Delete(t, k, |m|), k, m) == t
  {
    Seqs.SliceSplit(t, 0, k, |t|);
    Seqs.SliceSplit(t, k, k + |m|, |t|);
    Seqs.AppendAssoc(t[..k], m, t[k + |m|..]);
    assert t[0..k] == t[..k];
  }

  /** With an empty marker `indexOf` finds it at 0 and deleting it changes nothing, so the loop never ends. */
  lemma EmptyMarkerNoProgress(t: string)
    ensures IndexOf(t, []) == 0 && Delete(t, 0, 0) == t
  {
    assert OccursAt(t, [], 0);
  }

  /**
   * The removals recorded so far (`indices`, `offsets`) followed by those still to come
   * from `text` make up the whole extraction from `orig`.
   */
  ghost predicate ExtractsTo(orig: string, marker: string, text: string, indices: seq<nat>, offsets: seq<nat>)
    requires |marker| > 0
  {
    var e := Extract(text, marker);
    Extract(orig, marker) == Extraction(e.text, indices + e.offsets, offsets + e.reported)
  }

  /** One removal moves the first occurrence from what is to come to what is recorded. */
  lemma ExtractsToStep(orig: string, marker: string, text: string, indices: seq<nat>, offsets: seq<nat>)
    requires |marker| > 0 && IndexOf(text, marker) >= 0
    requires ExtractsTo(orig, marker, text, indices, offsets)
    ensures var k := IndexOf(text, marker);
      ExtractsTo(orig, marker, Delete(text, k, |marker|), indices + [k], offsets + [Length(text[..k])])
  {
    var k := IndexOf(text, marker);
    var rest := Extract(Delete(text, k, |marker|), marker);
    assert Extract(text, marker) == Extraction(rest.text, [k] + rest.offsets, [Length(text[..k])] + rest.reported);
    Seqs.AppendAssoc(indices, [k], rest.offsets);
    Seqs.AppendAssoc(offsets, [Length(text[..k])], rest.reported);
  }

  /**
   * `extractMultipleMarkerOffsets`: deletes the first marker occurrence, stores the text
   * back into the document and records the offset, until the marker no longer occurs.
   * The recorded offset is `indexOf`'s, in code units. The source loops forever on an
   * empty marker, so one is required here.
   */
  method ExtractMultipleMarkerOffsets(doc: Document, marker: string) returns (offsets: seq<nat>)
    requires |marker| > 0
    modifies doc
    ensures var e := Extract(old(doc.text), marker); doc.text == e.text && offsets == e.reported
  {
    ghost var orig := doc.text;
    ghost var indices: seq<nat> := [];
    var text := doc.text;
    offsets := [];
    assert indices + Extract(text, marker).offsets == Extract(text, marker).offsets;
    assert offsets + Extract(text, marker).reported == Extract(text, marker).reported;
    while true
      invariant doc.text == text
      invariant ExtractsTo(orig, marker, text, indices, offsets)
      decreases |text|
    {
      var offset := IndexOf(text, marker);
      if offset >= 0 {
        var unitOffset := Length(text[..offset]);
        ExtractsToStep(orig, marker, text, indices, offsets);
        text := Delete(text, offset, |marker|);
        doc.SetText(text);
        indices := indices + [offset];
        offsets := offsets + [unitOffset];
      } else {
        assert indices + [] == indices && offsets + [] == offsets;
        break;
      }
    }
  }

  /** `extractMarkerOffset`: the one offset found, or -1 when there were none or several. */
  method ExtractMarkerOffset(doc: Document, marker: string) returns (offset: int)
    requires |marker| > 0
    modifies doc
    ensures var e := Extract(old(doc.text), marker);
      && doc.text == e.text
      && (|e.reported| == 1 ==> offset == e.reported[0])
      && (|e.reported| != 1 ==> offset == -1)
  {
    var offsets := ExtractMultipleMarkerOffsets(doc, marker);
    offset := if |offsets| == 1 then offsets[0] else -1;
  }

  /** `Severity` of a compiler diagnostic, and the highlighting severities the tests filter on. */
  datatype Severity = Info | Warning | Error

  /**
   * A diagnostic: its severity, its factory (the kind of diagnostic) and its message as
   * `DefaultErrorMessages.render` renders it.
   */
  datatype Diagnostic = Diagnostic(severity: Severity, factory: nat, rendered: string)

  /** A highlighting result: its severity and its description. */
  datatype Highlight = Highlight(severity: Severity, description: string)

  /** The errors that are not of an ignored factory, in their original order. */
  function KeptErrors(diags: seq<Diagnostic>, ignore: set<nat>): (r: seq<Diagnostic>)
    ensures |r| <= |diags|
    ensures forall d :: d in r <==> d in diags && d.severity == Error && d.factory !in ignore
    ensures |diags| == 1 ==> r == if diags[0].severity == Error && diags[0].factory !in ignore then diags else []
    decreases |diags|
  {
    if diags == [] then []
    else
      var d := diags[|diags| - 1];
      var init := KeptErrors(diags[..|diags| - 1], ignore);
      assert diags == diags[..|diags| - 1] + [d];
      if d.severity == Error && d.factory !in ignore then init + [d] else init
  }

  /** Each kept error is kept as often as it occurs. */
  lemma {:induction false} KeptErrorsCount(diags: seq<Diagnostic>, ignore: set<nat>)
    ensures forall d :: multiset(KeptErrors(diags, ignore))[d] ==
              if d.severity == Error && d.factory !in ignore then multiset(diags)[d] else 0
    decreases |diags|
  {
    if diags != [] {
      assert diags == diags[..|diags| - 1] + [diags[|diags| - 1]];
      KeptErrorsCount(diags[..|diags| - 1], ignore);
    }
  }

  /** Filtering a concatenation filters each part: the kept errors keep their order. */
  lemma {:induction false} KeptErrorsAppend(a: seq<Diagnostic>, b: seq<Diagnostic>, ignore: set<nat>)
    ensures KeptErrors(a + b, ignore) == KeptErrors(a, ignore) + KeptErrors(b, ignore)
    decreases |b|
  {
    if b == [] {
      assert a + b == a;
    } else {
      assert (a + b)[..|a + b| - 1] == a + b[..|b| - 1];
      KeptErrorsAppend(a, b[..|b| - 1], ignore);
    }
  }

  const ErrorPrefix: string := "// ERROR: "

  /** One header line: the prefix and the message with each line break turned into a space. */
  function ErrorLine(message: string): (line: string)
    ensures |line| == |ErrorPrefix| + |message| && line[..|ErrorPrefix|] == ErrorPrefix
    ensures forall k :: 0 <= k < |message| ==> line[|ErrorPrefix| + k] == if message[k] == '\n' then ' ' else message[k]
    ensures forall k :: 0 <= k < |line| ==> line[k] != '\n'
  {
    ErrorPrefix + ReplaceChar(message, '\n', ' ')
  }

  /** The header lines of the kept errors, in order. */
  function ErrorLines(errors: seq<Diagnostic>): (lines: seq<string>)
    ensures |lines| == |errors|
    ensures forall i :: 0 <= i < |errors| ==> lines[i] == ErrorLine(errors[i].rendered)
    decreases |errors|
  {
    if errors == [] then []
    else ErrorLines(errors[..|errors| - 1]) + [ErrorLine(errors[|errors| - 1].rendered)]
  }

  /** Each line followed by a line break. */
  function Terminated(lines: seq<string>): string
    decreases |lines|
  {
    if lines == [] then [] else Terminated(lines[..|lines| - 1]) + lines[|lines| - 1] + "\n"
  }

  /** `joinToString("\n", postfix = "\n")` ends every line with a line break. */
  lemma {:induction false} JoinWithPostfix(lines: seq<string>)
    requires |lines| > 0
    ensures Join(lines, "\n") + "\n" == Terminated(lines)
    decreases |lines|
  {
    if |lines| > 1 {
      var init := lines[..|lines| - 1];
      JoinWithPostfix(init);
      assert init[..|init| - 1] == lines[..|lines| - 2];
      Seqs.AppendAssoc(Join(init, "\n"), "\n", lines[|lines| - 1]);
    } else {
      assert lines[..0] == [];
    }
  }

  /** Lines free of line breaks, each terminated, hold exactly one line break per line. */
  lemma {:induction false} TerminatedLineCount(lines: seq<string>)
    requires forall i, k :: 0 <= i < |lines| && 0 <= k < |lines[i]| ==> lines[i][k] != '\n'
    ensures Count(Terminated(lines), '\n') == |lines|
    decreases |lines|
  {
    if lines != [] {
      var init := lines[..|lines| - 1];
      var last := lines[|lines| - 1];
      TerminatedLineCount(init);
      CountAbsent(last, '\n');
      CountAppend(Terminated(init), last, '\n');
      CountAppend(Terminated(init) + last, "\n", '\n');
      assert "\n"[..0] == [];
    }
  }

  /**
   * `dumpTextWithErrors` once the diagnostics are known. `errorsDisabled` is whether the
   * text defines the `// DISABLE-ERRORS` directive. The text comes back unchanged when
   * errors are disabled or none is kept; otherwise one header line per kept error, each
   * terminated by a line break, precedes it.
   */
  function DumpTextWithErrors(text: string, errorsDisabled: bool, diags: seq<Diagnostic>, ignore: set<nat>): (r: string)
    ensures errorsDisabled || KeptErrors(diags, ignore) == [] ==> r == text
    ensures !errorsDisabled && KeptErrors(diags, ignore) != [] ==>
      r == Terminated(ErrorLines(KeptErrors(diags, ignore))) + text
  {
    if errorsDisabled then text
    else
      var errors := KeptErrors(diags, ignore);
      if errors == [] then text
      else
        var header := Join(ErrorLines(errors), "\n") + "\n";
        JoinWithPostfix(ErrorLines(errors));
        header + text
  }

  /** The header has exactly one line per kept error, and the text follows it unchanged. */
  lemma HeaderLineCount(text: string, diags: seq<Diagnostic>, ignore: set<nat>)
    requires KeptErrors(diags, ignore) != []
    ensures var r := DumpTextWithErrors(text, false, diags, ignore);
      var header := r[..|r| - |text|];
      |text| <= |r| && r[|r| - |text|..] == text && Count(header, '\n') == |KeptErrors(diags, ignore)|
  {
    var lines := ErrorLines(KeptErrors(diags, ignore));
    var r := DumpTextWithErrors(text, false, diags, ignore);
    assert r == Terminated(lines) + text;
    assert r[..|r| - |text|] == Terminated(lines);
    TerminatedLineCount(lines);
  }

  /** The error highlights, in order. */
  function ErrorHighlights(hs: seq<Highlight>): (r: seq<Highlight>)
    ensures |r| <= |hs|
    ensures forall h :: h in r <==> h in hs && h.severity == Error
    ensures |hs| == 1 ==> r == if hs[0].severity == Error then hs else []
    decreases |hs|
  {
    if hs == [] then []
    else
      var h := hs[|hs| - 1];
      var init := ErrorHighlights(hs[..|hs| - 1]);
      assert hs == hs[..|hs| - 1] + [h];
      if h.severity == Error then init + [h] else init
  }

  /** Each error highlight is kept as often as it occurs. */
  lemma {:induction false} ErrorHighlightsCount(hs: seq<Highlight>)
    ensures forall h :: multiset(ErrorHighlights(hs))[h] == if h.severity == Error then multiset(hs)[h] else 0
    decreases |hs|
  {
    if hs != [] {
      assert hs == hs[..|hs| - 1] + [hs[|hs| - 1]];
      ErrorHighlightsCount(hs[..|hs| - 1]);
    }
  }

  /** Filtering a concatenation filters each part: the error highlights keep their order. */
  lemma {:induction false} ErrorHighlightsAppend(a: seq<Highlight>, b: seq<Highlight>)
    ensures ErrorHighlights(a + b) == ErrorHighlights(a) + ErrorHighlights(b)
    decreases |b|
  {
    if b == [] {
      assert a + b == a;
    } else {
      assert (a + b)[..|a + b| - 1] == a + b[..|b| - 1];
      ErrorHighlightsAppend(a, b[..|b| - 1]);
    }
  }

  /**
   * `dumpErrorLines`: no lines under the `// DISABLE-ERRORS` directive, otherwise one
   * `// ERROR: ` line per error highlight, in order.
   */
  function DumpErrorLines(errorsDisabled: bool, hs: seq<Highlight>): (r: seq<string>)
    ensures errorsDisabled ==> r == []
    ensures !errorsDisabled ==> var errors := ErrorHighlights(hs);
      |r| == |errors| && forall i :: 0 <= i < |r| ==> r[i] == ErrorLine(errors[i].description)
  {
    if errorsDisabled then []
    else
      var errors := ErrorHighlights(hs);
      seq(|errors|, i requires 0 <= i < |errors| => ErrorLine(errors[i].description))
  }
}
