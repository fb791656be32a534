/**
 * The `native2ascii` charset decoder used for `.properties` files: bytes are decoded
 * with a base charset, except that `\uXXXX` escapes become single UTF-16 code units.
 * Decoded text first goes to a pending buffer, which is copied into the caller's
 * character buffer as far as it has room.
 */
module Native2Ascii {
  import opened Wrappers
  import Seqs

  /** A Java `byte`: signed. */
  type JByte = b: int | -128 <= b < 128
  /** A Java `char`: one UTF-16 code unit. */
  type JChar = c: int | 0 <= c < 0x1_0000

  const Backslash: JByte := 0x5C
  const LetterU: JByte := 0x75
  /** `(char)-1`, the value `unicode` returns for an escape it refuses to decode. */
  const InvalidChar: JChar := 0xFFFF

  datatype CoderResult = Underflow | Overflow

  function Min(a: int, b: int): int { if a <= b then a else b }

  /** Java's cast `(char)b`: sign extension, then truncation to 16 bits. */
  function ByteChar(b: JByte): JChar
  {
    if b >= 0 then b else b + 0x1_0000
  }

  /** Every byte cast to a char, in order. */
  function Widen(bs: seq<JByte>): (cs: seq<JChar>)
    ensures |cs| == |bs|
    decreases |bs|
  {
    if bs == [] then [] else Widen(bs[..|bs| - 1]) + [ByteChar(bs[|bs| - 1])]
  }

  /** `Widen` casts each byte on its own. */
  lemma {:induction false} WidenAt(bs: seq<JByte>, k: nat)
    requires k < |bs|
    ensures Widen(bs)[k] == ByteChar(bs[k])
    decreases |bs|
  {
    if k < |bs| - 1 {
      WidenAt(bs[..|bs| - 1], k);
    }
  }

  /**
   * `Character.digit((char)b, 16)`. A char cast from a byte is below 0x80 or at least
   * 0xFF80, so the only hexadecimal digits it can be are the ASCII ones.
   */
  function DigitOfByte(b: JByte): (d: int)
    ensures -1 <= d < 16
    ensures d != -1 <==> (0x30 <= b <= 0x39 || 0x41 <= b <= 0x46 || 0x61 <= b <= 0x66)
  {
    if 0x30 <= b <= 0x39 then b - 0x30
    else if 0x61 <= b <= 0x66 then b - 0x61 + 10
    else if 0x41 <= b <= 0x46 then b - 0x41 + 10
    else -1
  }

  /**
   * The number the hexadecimal digits `ds` spell, most significant first, or None when
   * one of them is not a hexadecimal digit.
   */
  function HexNumber(ds: seq<JByte>): Option<nat>
    decreases |ds|
  {
    if ds == [] then Some(0)
    else
      var d := DigitOfByte(ds[|ds| - 1]);
      match HexNumber(ds[..|ds| - 1])
      case None => None
      case Some(v) => if d == -1 then None else Some(v * 16 + d)
  }

  /** Four digits spell `d1 * 4096 + d2 * 256 + d3 * 16 + d4`, which is below 0x10000. */
  lemma HexNumberFour(ord: seq<JByte>)
    requires |ord| == 4
    ensures var d1, d2, d3, d4 := DigitOfByte(ord[0]), DigitOfByte(ord[1]), DigitOfByte(ord[2]), DigitOfByte(ord[3]);
      HexNumber(ord) == if d1 == -1 || d2 == -1 || d3 == -1 || d4 == -1 then None
                        else Some(d1 * 4096 + d2 * 256 + d3 * 16 + d4)
  {
    var d1, d2, d3, d4 := DigitOfByte(ord[0]), DigitOfByte(ord[1]), DigitOfByte(ord[2]), DigitOfByte(ord[3]);
    var p1, p2, p3 := ord[..1], ord[..2], ord[..3];
    assert p1[..0] == [] && p2[..1] == p1 && p3[..2] == p2 && ord[..3] == p3;
    assert HexNumber(p1) == if d1 == -1 then None else Some(d1);
    assert HexNumber(p2) == if d1 == -1 || d2 == -1 then None else Some(d1 * 16 + d2);
    assert HexNumber(p3) == if d1 == -1 || d2 == -1 || d3 == -1 then None else Some(d1 * 256 + d2 * 16 + d3);
  }

  /**
   * The code unit that four bytes escape: the number they spell as hexadecimal digits,
   * unless that is whitespace or 0xFFFF, the value the decoder reserves for "invalid".
   */
  function DecodedUnit(ord: seq<JByte>): (r: Option<JChar>)
    requires |ord| == 4
    ensures r.Some? ==> r.value != InvalidChar && !IsWhitespace(r.value)
    ensures (exists k :: 0 <= k < 4 && DigitOfByte(ord[k]) == -1) ==> r.None?
    ensures r.Some? ==> r.value == DigitOfByte(ord[0]) * 4096 + DigitOfByte(ord[1]) * 256 + DigitOfByte(ord[2]) * 16 + DigitOfByte(ord[3])
  {
    HexNumberFour(ord);
    match HexNumber(ord)
    case None => None
    case Some(c) => if IsWhitespace(c) || c == InvalidChar then None else Some(c)
  }

  /**
   * `Character.isWhitespace` on a code unit, as Java 9 and later define it (the fixed list
   * of separators and controls; Java 8 also counted U+180E).
   */
  predicate IsWhitespace(c: JChar)
  {
    (0x09 <= c <= 0x0D) || (0x1C <= c <= 0x20) || c == 0x1680 || (0x2000 <= c <= 0x2006)
    || (0x2008 <= c <= 0x200A) || c == 0x2028 || c == 0x2029 || c == 0x205F || c == 0x3000
  }

  /** A digit as a 32-bit vector, as Java widens it for the shift. */
  function Nibble(d: int): (x: bv32)
    requires 0 <= d < 16
    ensures x < 16 && x as int == d
  {
    d as bv32
  }

  /**
   * The masked shifts of four values below 16, or-ed together as the decoder does; they
   * occupy disjoint nibbles, so or-ing them adds them.
   */
  function Pack(x: bv32, y: bv32, z: bv32, w: bv32): (v: bv32)
    requires x < 16 && y < 16 && z < 16 && w < 16
    ensures v < 0x1_0000 && v as int == (x as int) * 4096 + (y as int) * 256 + (z as int) * 16 + w as int
  {
    var v := ((x << 12) & 0xF000) | ((y << 8) & 0x0F00) | ((z << 4) & 0x00F0) | (w & 0x000F);
    assert v == x * 4096 + y * 256 + z * 16 + w;
    v
  }

  /** The shift-and-mask assembly of four digits, as the decoder computes it. */
  function Assemble(d1: int, d2: int, d3: int, d4: int): (code: JChar)
    requires 0 <= d1 < 16 && 0 <= d2 < 16 && 0 <= d3 < 16 && 0 <= d4 < 16
    ensures code == d1 * 4096 + d2 * 256 + d3 * 16 + d4
  {
    Pack(Nibble(d1), Nibble(d2), Nibble(d3), Nibble(d4)) as int
  }

  /**
   * `unicode`: the code unit four hex digits spell, or `InvalidChar` when a byte is not a
   * hex digit or the code unit is whitespace. The code unit 0xFFFF is indistinguishable
   * from the sentinel.
   */
  function Unicode(ord: seq<JByte>): (r: JChar)
    requires |ord| == 4
    ensures r != InvalidChar <==> DecodedUnit(ord).Some?
    ensures DecodedUnit(ord).Some? ==> r == DecodedUnit(ord).value
  {
    HexNumberFour(ord);
    var d1 := DigitOfByte(ord[0]);
    if d1 == -1 then InvalidChar else
    var d2 := DigitOfByte(ord[1]);
    if d2 == -1 then InvalidChar else
    var d3 := DigitOfByte(ord[2]);
    if d3 == -1 then InvalidChar else
    var d4 := DigitOfByte(ord[3]);
    if d4 == -1 then InvalidChar else
    var code := Assemble(d1, d2, d3, d4);
    if IsWhitespace(code) then InvalidChar else code
  }

  /**
   * The text an escape contributes: `raw` is a backslash and the byte after it, or a
   * backslash, `u` and four bytes. Only a `\u` escape whose four bytes have a
   * `DecodedUnit` is decoded; every other escape is kept as its bytes cast to chars.
   */
  function EscapeText(raw: seq<JByte>): (text: seq<JChar>)
  {
    if |raw| == 6 && DecodedUnit(raw[2..]).Some? then [DecodedUnit(raw[2..]).value] else Widen(raw)
  }

  /**
   * The length of the escape that starts with the backslash at `s[k]`: 6 for `\u`, 2 for
   * any other byte after the backslash, None when `s` ends before the escape does.
   */
  function EscapeLength(s: seq<JByte>, k: nat): (r: Option<nat>)
    requires k < |s| && s[k] == Backslash
    ensures r.Some? ==> (r.value == 2 || r.value == 6) && k + r.value <= |s| && (r.value == 6 <==> s[k + 1] == LetterU)
    ensures r.None? <==> k + 1 == |s| || (s[k + 1] == LetterU && |s| < k + 6)
  {
    if k + 1 >= |s| then None
    else if s[k + 1] != LetterU then Some(2)
    else if k + 6 > |s| then None
    else Some(6)
  }

  /** A piece of the input: a run of plain bytes for the base charset, or one escape. */
  datatype Segment = Plain(run: seq<JByte>) | Escape(raw: seq<JByte>, text: seq<JChar>)

  datatype ScanResult = ScanResult(segments: seq<Segment>, consumed: nat)

  /** The plain run `s[start..end]` as zero or one segment: empty runs are not decoded. */
  function Run(s: seq<JByte>, start: nat, end: nat): seq<Segment>
    requires start <= end <= |s|
  {
    if start == end then [] else [Plain(s[start..end])]
  }

  /**
   * How the decoder splits `s` (the buffer up to its limit) when the plain run in
   * progress started at `start` and the next byte to read is at `i`: the segments in
   * order and the position it stops at.
   */
  function Scan(s: seq<JByte>, start: nat, i: nat): (r: ScanResult)
    requires start <= i <= |s|
    ensures i <= r.consumed <= |s|
    decreases |s| - i
  {
    if i == |s| then ScanResult(Run(s, start, i), i)
    else if s[i] != Backslash then Scan(s, start, i + 1)
    else match EscapeLength(s, i)
      case None => ScanResult(Run(s, start, i), i)
      case Some(len) =>
        var raw := s[i..i + len];
        var rest := Scan(s, i + len, i + len);
        ScanResult(Run(s, start, i) + [Escape(raw, EscapeText(raw))] + rest.segments, rest.consumed)
  }

  function SegmentText(g: Segment, base: seq<JByte> -> seq<JChar>): seq<JChar>
  {
    match g
    case Plain(run) => base(run)
    case Escape(_, text) => text
  }

  /** The chars the segments decode to: plain runs through `base`, escapes as their text. */
  function Output(segs: seq<Segment>, base: seq<JByte> -> seq<JChar>): seq<JChar>
    decreases |segs|
  {
    if segs == [] then [] else Output(segs[..|segs| - 1], base) + SegmentText(segs[|segs| - 1], base)
  }

  /** The plain runs, in order: what the base charset is asked to decode. */
  function PlainRuns(segs: seq<Segment>): seq<seq<JByte>>
    decreases |segs|
  {
    if segs == [] then []
    else PlainRuns(segs[..|segs| - 1]) + (if segs[|segs| - 1].Plain? then [segs[|segs| - 1].run] else [])
  }

  /** The input bytes the segments were cut from, in order. */
  function RawBytes(segs: seq<Segment>): seq<JByte>
    decreases |segs|
  {
    if segs == [] then []
    else
      var g := segs[|segs| - 1];
      RawBytes(segs[..|segs| - 1]) + (if g.Plain? then g.run else g.raw)
  }

  /** A segment as the decoder produces it; an escape's text is the one `EscapeText` gives. */
  predicate WellFormed(g: Segment)
  {
    match g
    case Plain(run) => |run| > 0 && Backslash !in run
    case Escape(raw, text) =>
      (|raw| == 2 || |raw| == 6) && raw[0] == Backslash && (|raw| == 6 <==> raw[1] == LetterU)
      && text == EscapeText(raw)
  }

  lemma {:induction false} RawBytesAppend(a: seq<Segment>, b: seq<Segment>)
    ensures RawBytes(a + b) == RawBytes(a) + RawBytes(b)
    decreases |b|
  {
    if b != [] {
      assert (a + b)[..|a + b| - 1] == a + b[..|b| - 1];
      RawBytesAppend(a, b[..|b| - 1]);
    } else {
      assert a + b == a;
    }
  }

  lemma RawBytesRun(s: seq<JByte>, start: nat, end: nat)
    requires start <= end <= |s|
    ensures RawBytes(Run(s, start, end)) == s[start..end]
  {
    if start < end {
      assert Run(s, start, end)[..0] == [];
    }
  }

  /** One step of `Scan` over an escape that fits before the limit. */
  lemma ScanEscapeStep(s: seq<JByte>, start: nat, i: nat, len: nat)
    requires start <= i < |s| && s[i] == Backslash && EscapeLength(s, i) == Some(len)
    ensures i + len <= |s|
    ensures var rest := Scan(s, i + len, i + len);
      var raw := s[i..i + len];
      Scan(s, start, i) == ScanResult(Run(s, start, i) + [Escape(raw, EscapeText(raw))] + rest.segments, rest.consumed)
  {
  }

  /** One step of `Scan` over a byte that is not a backslash: the run in progress grows. */
  lemma ScanPlainStep(s: seq<JByte>, start: nat, i: nat)
    requires start <= i < |s| && s[i] != Backslash
    ensures Scan(s, start, i) == Scan(s, start, i + 1)
  {
  }

  /** `Scan` at a backslash whose escape the limit cuts off: it stops there. */
  lemma ScanCutStep(s: seq<JByte>, start: nat, i: nat)
    requires start <= i < |s| && s[i] == Backslash && EscapeLength(s, i).None?
    ensures Scan(s, start, i) == ScanResult(Run(s, start, i), i)
  {
  }

  /** `Scan` at the limit: the run in progress is the last segment. */
  lemma ScanEndStep(s: seq<JByte>, start: nat)
    requires start <= |s|
    ensures Scan(s, start, |s|) == ScanResult(Run(s, start, |s|), |s|)
  {
  }

  /**
   * `total` is the scan from some earlier start: the segments `done` already closed,
   * followed by the scan from `start` with the scanner at `i`.
   */
  ghost predicate Tracks(s: seq<JByte>, total: ScanResult, done: seq<Segment>, start: nat, i: nat)
    requires start <= i <= |s|
  {
    var sc := Scan(s, start, i);
    total.segments == done + sc.segments && total.consumed == sc.consumed
  }

  /** Passing a byte that is not a backslash keeps `Tracks`. */
  lemma TracksPlain(s: seq<JByte>, total: ScanResult, done: seq<Segment>, start: nat, i: nat)
    requires start <= i < |s| && s[i] != Backslash && Tracks(s, total, done, start, i)
    ensures Tracks(s, total, done, start, i + 1)
  {
    ScanPlainStep(s, start, i);
  }

  /** Closing the run and an escape that fits keeps `Tracks`, from just after the escape. */
  lemma TracksEscape(s: seq<JByte>, total: ScanResult, done: seq<Segment>, start: nat, i: nat, len: nat)
    requires start <= i < |s| && s[i] == Backslash && EscapeLength(s, i) == Some(len)
    requires Tracks(s, total, done, start, i)
    ensures i + len <= |s|
    ensures var raw := s[i..i + len];
      Tracks(s, total, done + (Run(s, start, i) + [Escape(raw, EscapeText(raw))]), i + len, i + len)
  {
    ScanEscapeStep(s, start, i, len);
    var raw := s[i..i + len];
    Seqs.AppendAssoc(done, Run(s, start, i) + [Escape(raw, EscapeText(raw))], Scan(s, i + len, i + len).segments);
  }

  /** At an escape the limit cuts off, the scan ends with the run in progress. */
  lemma TracksCut(s: seq<JByte>, total: ScanResult, done: seq<Segment>, start: nat, i: nat)
    requires start <= i < |s| && s[i] == Backslash && EscapeLength(s, i).None?
    requires Tracks(s, total, done, start, i)
    ensures total.segments == done + Run(s, start, i) && total.consumed == i
  {
    ScanCutStep(s, start, i);
  }

  /** At the limit, the scan ends with the run in progress. */
  lemma TracksEnd(s: seq<JByte>, total: ScanResult, done: seq<Segment>, start: nat)
    requires start <= |s| && Tracks(s, total, done, start, |s|)
    ensures total == ScanResult(done + Run(s, start, |s|), |s|)
  {
    ScanEndStep(s, start);
  }

  /** The bytes of a plain run followed by an escape and further segments. */
  lemma RawBytesStep(s: seq<JByte>, start: nat, i: nat, raw: seq<JByte>, text: seq<JChar>, rest: seq<Segment>)
    requires start <= i <= |s|
    ensures RawBytes(Run(s, start, i) + [Escape(raw, text)] + rest) == s[start..i] + raw + RawBytes(rest)
  {
    var esc := [Escape(raw, text)];
    assert RawBytes(esc) == raw by {
      assert esc[..0] == [];
    }
    RawBytesRun(s, start, i);
    RawBytesAppend(Run(s, start, i), esc);
    RawBytesAppend(Run(s, start, i) + esc, rest);
  }

  /**
   * No byte is lost or duplicated: the segments, put back together, are exactly the
   * consumed bytes, and the scan never stops before the run in progress nor past the limit.
   */
  lemma {:induction false} ScanNoLoss(s: seq<JByte>, start: nat, i: nat)
    requires start <= i <= |s|
    ensures var r := Scan(s, start, i); start <= r.consumed <= |s| && RawBytes(r.segments) == s[start..r.consumed]
    decreases |s| - i
  {
    if i == |s| {
      RawBytesRun(s, start, i);
    } else if s[i] != Backslash {
      ScanNoLoss(s, start, i + 1);
    } else if EscapeLength(s, i).None? {
      RawBytesRun(s, start, i);
    } else {
      var len := EscapeLength(s, i).value;
      ScanEscapeStep(s, start, i, len);
      ScanNoLoss(s, i + len, i + len);
      RawBytesJoin(s, start, i, len, Scan(s, i + len, i + len));
    }
  }

  /** A run, an escape right after it and the segments after the escape cover their bytes. */
  lemma RawBytesJoin(s: seq<JByte>, start: nat, i: nat, len: nat, rest: ScanResult)
    requires start <= i && i + len <= rest.consumed <= |s|
    requires RawBytes(rest.segments) == s[i + len..rest.consumed]
    ensures var raw := s[i..i + len];
      RawBytes(Run(s, start, i) + [Escape(raw, EscapeText(raw))] + rest.segments) == s[start..rest.consumed]
  {
    var raw := s[i..i + len];
    RawBytesStep(s, start, i, raw, EscapeText(raw), rest.segments);
    Seqs.SliceSplit(s, start, i, rest.consumed);
    Seqs.SliceSplit(s, i, i + len, rest.consumed);
    Seqs.AppendAssoc(s[start..i], raw, s[i + len..rest.consumed]);
  }

  /**
   * Every plain run handed to the base charset is non-empty and holds no backslash, and
   * every escape is a backslash with one byte after it, or with `u` and four bytes.
   */
  lemma {:induction false} ScanWellFormed(s: seq<JByte>, start: nat, i: nat)
    requires start <= i <= |s|
    requires Backslash !in s[start..i]
    ensures forall g :: g in Scan(s, start, i).segments ==> WellFormed(g)
    decreases |s| - i
  {
    if i == |s| {
    } else if s[i] != Backslash {
      assert s[start..i + 1] == s[start..i] + [s[i]];
      ScanWellFormed(s, start, i + 1);
    } else {
      match EscapeLength(s, i)
      case None =>
      case Some(len) =>
        ScanWellFormed(s, i + len, i + len);
    }
  }

  /**
   * The scan consumes everything up to the limit, except an escape that the limit cuts
   * off: it then stops at that escape's backslash, leaving it unconsumed.
   */
  lemma {:induction false} ScanStopsAtCutEscape(s: seq<JByte>, start: nat, i: nat)
    requires start <= i <= |s|
    ensures var c := Scan(s, start, i).consumed;
      i <= c <= |s| && (c == |s| || (s[c] == Backslash && EscapeLength(s, c).None?))
    decreases |s| - i
  {
    if i < |s| {
      if s[i] != Backslash {
        ScanStopsAtCutEscape(s, start, i + 1);
      } else if EscapeLength(s, i).Some? {
        var len := EscapeLength(s, i).value;
        ScanStopsAtCutEscape(s, i + len, i + len);
      }
    }
  }

  /** A backslash followed by a byte other than `u` is kept as the two chars, whatever the byte. */
  lemma BackslashOtherKept(raw: seq<JByte>)
    requires |raw| == 2 && raw[0] == Backslash
    ensures EscapeText(raw) == [0x5C, ByteChar(raw[1])]
  {
    WidenAt(raw, 0);
    WidenAt(raw, 1);
  }

  /** A `\u` escape whose four bytes have no `DecodedUnit` is kept as its six bytes cast to chars. */
  lemma UndecodableKept(raw: seq<JByte>)
    requires |raw| == 6 && raw[0] == Backslash && raw[1] == LetterU
    requires DecodedUnit(raw[2..]).None?
    ensures EscapeText(raw) == [0x5C, 0x75, ByteChar(raw[2]), ByteChar(raw[3]), ByteChar(raw[4]), ByteChar(raw[5])]
  {
    WidenAt(raw, 0);
    WidenAt(raw, 1);
    WidenAt(raw, 2);
    WidenAt(raw, 3);
    WidenAt(raw, 4);
    WidenAt(raw, 5);
  }

  /** The hexadecimal digit for 0 <= d < 16, lower case (what `native2ascii` writes). */
  function HexByte(d: int): (b: JByte)
    requires 0 <= d < 16
    ensures DigitOfByte(b) == d
  {
    if d < 10 then 0x30 + d else 0x61 + d - 10
  }

  /** Upper- and lower-case letters are the same hexadecimal digit. */
  lemma HexLetterEitherCase(d: int)
    requires 10 <= d < 16
    ensures DigitOfByte(0x41 + d - 10) == d && DigitOfByte(0x61 + d - 10) == d
  {
  }

  /** The escape `\uXXXX` for the code unit `c`. */
  function EscapeOf(c: JChar): (raw: seq<JByte>)
    ensures |raw| == 6
  {
    [Backslash, LetterU, HexByte(c / 4096), HexByte(c / 256 % 16), HexByte(c / 16 % 16), HexByte(c % 16)]
  }

  /** A code unit is the sum of its four hexadecimal digits times their place values. */
  lemma HexDigitsOf(c: JChar)
    ensures (c / 4096) * 4096 + (c / 256 % 16) * 256 + (c / 16 % 16) * 16 + c % 16 == c
  {
    assert c == (c / 16) * 16 + c % 16;
    assert c / 16 == (c / 256) * 16 + c / 16 % 16;
    assert c / 256 == (c / 4096) * 16 + c / 256 % 16;
  }

  /**
   * Round trip: the escape of a code unit decodes back to that code unit, unless the code
   * unit is whitespace or 0xFFFF, in which case the escape stays literal text.
   */
  lemma EscapeRoundTrip(c: JChar)
    ensures !IsWhitespace(c) && c != InvalidChar ==> EscapeText(EscapeOf(c)) == [c]
    ensures IsWhitespace(c) || c == InvalidChar ==> EscapeText(EscapeOf(c)) == Widen(EscapeOf(c))
  {
    var ord := EscapeOf(c)[2..];
    HexNumberFour(ord);
    assert ord[0] == HexByte(c / 4096) && ord[1] == HexByte(c / 256 % 16);
    assert ord[2] == HexByte(c / 16 % 16) && ord[3] == HexByte(c % 16);
    HexDigitsOf(c);
    assert HexNumber(ord) == Some(c);
  }

  /**
   * A `ByteBuffer` over a byte array: the bytes between `pos` and `lim` are still to be
   * read. The decoder never writes to it, so its contents are a constant sequence.
   */
  class ByteBuf {
    const data: seq<JByte>
    var pos: nat
    var lim: nat

    ghost predicate Valid()
      reads this
    {
      pos <= lim <= |data|
    }

    /** `ByteBuffer.wrap(data)`. */
    constructor Wrap(data: seq<JByte>)
      ensures Valid() && this.data == data && pos == 0 && lim == |data|
    {
      this.data := data;
      pos := 0;
      lim := |data|;
    }

    /** `get()`: None stands for `BufferUnderflowException`, which leaves the position alone. */
    method Get() returns (b: Option<JByte>)
      requires Valid()
      modifies this
      ensures Valid() && lim == old(lim)
      ensures old(pos) < lim ==> b == Some(data[old(pos)]) && pos == old(pos) + 1
      ensures old(pos) == lim ==> b == None && pos == old(pos)
    {
      if pos < lim {
        b := Some(data[pos]);
        pos := pos + 1;
      } else {
        b := None;
      }
    }

    /**
     * Four `get()` calls in a row, as `decodeLoop` fills its four-byte array; None when the
     * limit comes first, with the position then at the limit.
     */
    method GetFour() returns (ord: Option<seq<JByte>>)
      requires Valid()
      modifies this
      ensures Valid() && lim == old(lim)
      ensures old(pos) + 4 <= lim ==> ord == Some(data[old(pos)..old(pos) + 4]) && pos == old(pos) + 4
      ensures lim < old(pos) + 4 ==> ord == None && pos == lim
    {
      var b0 :- Get();
      var b1 :- Get();
      var b2 :- Get();
      var b3 :- Get();
      assert [b0, b1, b2, b3] == data[pos - 4..pos];
      ord := Some([b0, b1, b2, b3]);
    }

    /** `reset()` back to a position saved by `mark()`. */
    method Reset(mark: nat)
      requires Valid() && mark <= lim
      modifies this
      ensures Valid() && lim == old(lim) && pos == mark
    {
      pos := mark;
    }
  }

  /**
   * A `CharBuffer`: chars are written at `pos`, up to `lim`. Its contents are a sequence
   * the buffer replaces as a whole on each write.
   */
  class CharBuf {
    var data: seq<JChar>
    var pos: nat
    var lim: nat

    ghost predicate Valid()
      reads this
    {
      pos <= lim <= |data|
    }

    /** `CharBuffer.wrap(data)`. */
    constructor Wrap(data: seq<JChar>)
      ensures Valid() && this.data == data && pos == 0 && lim == |data|
    {
      this.data := data;
      pos := 0;
      lim := |data|;
    }

    /** `remaining()`. */
    function Remaining(): (n: nat)
      reads this
      requires Valid()
      ensures pos + n == lim
    {
      lim - pos
    }

    /** `append(csq)` for text that fits: the chars are written from the position on. */
    method Append(text: seq<JChar>)
      requires Valid() && |text| <= lim - pos
      modifies this
      ensures Valid() && lim == old(lim) && pos == old(pos) + |text|
      ensures data == Overwrite(old(data), old(pos), text)
    {
      data := Overwrite(data, pos, text);
      pos := pos + |text|;
    }
  }

  /** `d` with `t` written over it from index `p` on. */
  function Overwrite<T>(d: seq<T>, p: nat, t: seq<T>): (r: seq<T>)
    requires p + |t| <= |d|
    ensures |r| == |d|
  {
    d[..p] + t + d[p + |t|..]
  }

  /** A character buffer's contents and position, with the chars still pending after a flush. */
  datatype Flushed = Flushed(data: seq<JChar>, pos: nat, pending: seq<JChar>)

  /**
   * What `doFlush` makes of a buffer holding `data` with position `pos` and limit `lim`:
   * as many pending chars as there is room for are written from `pos` on.
   */
  function Flush(data: seq<JChar>, pos: nat, lim: nat, pending: seq<JChar>): (f: Flushed)
    requires pos <= lim <= |data|
    ensures pos <= f.pos <= lim && |f.data| == |data|
    ensures f.data[..pos] == data[..pos] && f.data[f.pos..] == data[f.pos..]
    ensures pending == f.data[pos..f.pos] + f.pending
    ensures f.pending == [] || f.pos == lim
  {
    var n := Min(lim - pos, |pending|);
    Seqs.SplitAppend(pending[..n], pending[n..], 0);
    Flushed(Overwrite(data, pos, pending[..n]), pos + n, pending[n..])
  }

  /** Flushing `t1` entirely and then `t2` is flushing `t1 + t2` at once. */
  lemma FlushTwice(data: seq<JChar>, pos: nat, lim: nat, t1: seq<JChar>, t2: seq<JChar>)
    requires pos <= lim <= |data|
    requires Flush(data, pos, lim, t1).pending == []
    ensures var f := Flush(data, pos, lim, t1);
      Flush(f.data, f.pos, lim, f.pending + t2) == Flush(data, pos, lim, t1 + t2)
  {
    var f := Flush(data, pos, lim, t1);
    var n := Min(lim - f.pos, |t2|);
    assert t1[..|t1|] == t1 && t1[|t1|..] == [] && f.pending + t2 == t2;
    Seqs.SplitAppend(t1, t2, n);
    OverwriteTwice(data, pos, t1, t2[..n]);
  }

  /** Writing `a` and then `b` right after it is writing `a + b`. */
  lemma OverwriteTwice<T>(d: seq<T>, p: nat, a: seq<T>, b: seq<T>)
    requires p + |a| + |b| <= |d|
    ensures Overwrite(Overwrite(d, p, a), p + |a|, b) == Overwrite(d, p, a + b)
  {
    var d1 := Overwrite(d, p, a);
    assert d1[..p + |a|] == d[..p] + a;
    assert d1[p + |a| + |b|..] == d[p + |a| + |b|..];
  }

  /** `Native2AsciiCharsetDecoder`. */
  class Decoder {
    /** `myOutBuffer`: decoded chars not yet copied out. */
    var pending: seq<JChar>
    /** `myBaseCharset.decode`, for runs of plain bytes. */
    const base: seq<JByte> -> seq<JChar>
    /** Every byte run handed to the base charset so far, in order. */
    ghost var baseInputs: seq<seq<JByte>>

    constructor (base: seq<JByte> -> seq<JChar>)
      ensures this.base == base && pending == [] && baseInputs == []
    {
      this.base := base;
      pending := [];
      baseInputs := [];
    }

    /** `implReset`: the pending buffer is replaced by an empty one. */
    method ImplReset()
      modifies this`pending
      ensures pending == [] && baseInputs == old(baseInputs)
    {
      pending := [];
    }

    /**
     * `doFlush`: copies as many pending chars as `out` has room for, from the front, and
     * reports OVERFLOW exactly when some are left.
     */
    method DoFlush(out: CharBuf) returns (r: CoderResult)
      requires out.Valid()
      modifies this`pending, out
      ensures out.Valid() && out.lim == old(out.lim)
      ensures Flushed(out.data, out.pos, pending) == Flush(old(out.data), old(out.pos), old(out.lim), old(pending))
      ensures r == Overflow <==> pending != []
    {
      if |pending| != 0 {
        var remaining := out.lim - out.pos;
        var outLen := Min(remaining, |pending|);
        out.Append(pending[..outLen]);
        pending := pending[outLen..];
        if |pending| != 0 {
          return Overflow;
        }
      }
      return Underflow;
    }

    /** `implFlush`. */
    method ImplFlush(out: CharBuf) returns (r: CoderResult)
      requires out.Valid()
      modifies this`pending, out
      ensures out.Valid() && out.lim == old(out.lim)
      ensures Flushed(out.data, out.pos, pending) == Flush(old(out.data), old(out.pos), old(out.lim), old(pending))
      ensures r == Overflow <==> pending != []
    {
      r := DoFlush(out);
    }

    /** `decodeArray`: hands `buf[start..end]` to the base charset unless it is empty. */
    method DecodeArray(buf: seq<JByte>, start: int, end: int)
      requires end <= start || 0 <= start <= end <= |buf|
      modifies this`pending, this`baseInputs
      ensures end <= start ==> pending == old(pending) && baseInputs == old(baseInputs)
      ensures start < end ==>
        pending == old(pending) + base(buf[start..end]) && baseInputs == old(baseInputs) + [buf[start..end]]
    {
      if end <= start {
        return;
      }
      pending := pending + base(buf[start..end]);
      baseInputs := baseInputs + [buf[start..end]];
    }

    /**
     * `decodeLoop`. When the pending chars do not fit in `out` it returns OVERFLOW and
     * reads nothing. Otherwise it decodes the input up to its limit, or up to the
     * backslash of an escape the limit cuts off, appends the result to the pending
     * chars, and copies as much as fits into `out`.
     */
    method DecodeLoop(inBuf: ByteBuf, out: CharBuf) returns (r: CoderResult, ghost decoded: seq<JChar>)
      requires inBuf.Valid() && out.Valid()
      modifies this`pending, this`baseInputs, inBuf, out
      ensures inBuf.Valid() && inBuf.lim == old(inBuf.lim)
      ensures out.Valid() && out.lim == old(out.lim)
      ensures var first := Flush(old(out.data), old(out.pos), old(out.lim), old(pending));
        first.pending != [] ==>
          && Flushed(out.data, out.pos, pending) == first
          && inBuf.pos == old(inBuf.pos) && baseInputs == old(baseInputs)
      ensures var first := Flush(old(out.data), old(out.pos), old(out.lim), old(pending));
        first.pending == [] ==>
          var sc := Scan(inBuf.data[..inBuf.lim], old(inBuf.pos), old(inBuf.pos));
          && decoded == Output(sc.segments, base)
          && inBuf.pos == sc.consumed
          && baseInputs == old(baseInputs) + PlainRuns(sc.segments)
          && Flushed(out.data, out.pos, pending) == Flush(old(out.data), old(out.pos), old(out.lim), old(pending) + decoded)
      ensures r == Overflow <==> pending != []
    {
      r := DoFlush(out);
      if r == Overflow {
        decoded := [];
        return;
      }
      DecodeInput(inBuf);
      decoded := Output(Scan(inBuf.data[..inBuf.lim], old(inBuf.pos), old(inBuf.pos)).segments, base);
      r := DoFlush(out);
      FlushTwice(old(out.data), old(out.pos), old(out.lim), old(pending), decoded);
    }

    /**
     * The `try` block of `decodeLoop` after the first flush: decodes the bytes from the
     * position up to the limit, or up to the backslash of an escape that the limit cuts
     * off, into the pending buffer.
     */
    method DecodeInput(inBuf: ByteBuf)
      requires inBuf.Valid()
      modifies this`pending, this`baseInputs, inBuf
      ensures inBuf.Valid() && inBuf.lim == old(inBuf.lim)
      ensures var sc := Scan(inBuf.data[..inBuf.lim], old(inBuf.pos), old(inBuf.pos));
        && inBuf.pos == sc.consumed
        && pending == old(pending) + Output(sc.segments, base)
        && baseInputs == old(baseInputs) + PlainRuns(sc.segments)
    {
      ghost var s := inBuf.data[..inBuf.lim];
      ghost var pos0 := inBuf.pos;
      ghost var pending0 := pending;
      ghost var runs0 := baseInputs;
      ghost var done: seq<Segment> := [];
      ghost var total := Scan(s, pos0, pos0);

      var start := inBuf.pos;
      var underflow := false;
      while inBuf.pos < inBuf.lim && !underflow
        invariant inBuf.Valid() && inBuf.lim == |s| && inBuf.data[..inBuf.lim] == s
        invariant pos0 <= start <= inBuf.pos
        invariant !underflow ==> Tracks(s, total, done, start, inBuf.pos)
        invariant underflow ==> total.segments == done && total.consumed == inBuf.pos
        invariant pending == pending0 + Output(done, base) && baseInputs == runs0 + PlainRuns(done)
        decreases inBuf.lim - inBuf.pos, if underflow then 0 else 1
      {
        var mark := inBuf.pos;
        var b := inBuf.Get();
        if b.value == Backslash {
          var complete, piece := DecodeBackslash(inBuf, start, s);
          if complete {
            TracksEscape(s, total, done, start, mark, inBuf.pos - mark);
            start := inBuf.pos;
          } else {
            TracksCut(s, total, done, start, mark);
            assert piece == Run(s, start, mark);
            underflow := true;
          }
          Extend(pending0, runs0, done, piece, base);
          done := done + piece;
        } else {
          TracksPlain(s, total, done, start, mark);
        }
      }
      if !underflow {
        TracksEnd(s, total, done, start);
        ghost var p0, r0 := pending, baseInputs;
        DecodeArray(inBuf.data, start, inBuf.pos);
        RunDecoded(inBuf.data, inBuf.lim, start, inBuf.pos, p0, r0, pending, baseInputs, base);
        Extend(pending0, runs0, done, Run(s, start, inBuf.pos), base);
        done := done + Run(s, start, inBuf.pos);
      }
    }

    /**
     * The loop body of `decodeLoop` once it has read a backslash at `inBuf.pos - 1`: the
     * plain run before the backslash goes to the base charset, then the escape is read
     * and its text appended. It reports whether the escape was complete; when the limit
     * cuts the escape off, the buffer is reset to the backslash, as the `catch` block does.
     */
    method DecodeBackslash(inBuf: ByteBuf, start: nat, ghost s: seq<JByte>) returns (complete: bool, ghost piece: seq<Segment>)
      requires inBuf.Valid() && inBuf.data[..inBuf.lim] == s
      requires start < inBuf.pos && s[inBuf.pos - 1] == Backslash
      modifies this`pending, this`baseInputs, inBuf
      ensures inBuf.Valid() && inBuf.lim == old(inBuf.lim)
      ensures complete <==> EscapeLength(s, old(inBuf.pos) - 1).Some?
      ensures !complete ==> inBuf.pos == old(inBuf.pos) - 1 && piece == Run(s, start, inBuf.pos)
      ensures complete ==> var mark := old(inBuf.pos) - 1;
        && inBuf.pos == mark + EscapeLength(s, mark).value
        && var raw := s[mark..inBuf.pos];
          piece == Run(s, start, mark) + [Escape(raw, EscapeText(raw))]
      ensures pending == old(pending) + Output(piece, base) && baseInputs == old(baseInputs) + PlainRuns(piece)
    {
      var mark := inBuf.pos - 1;
      ghost var p0, r0 := pending, baseInputs;
      DecodeArray(inBuf.data, start, mark);
      RunDecoded(inBuf.data, inBuf.lim, start, mark, p0, r0, pending, baseInputs, base);
      piece := Run(s, start, mark);
      var text := ReadEscape(inBuf, mark);
      if text.None? {
        inBuf.Reset(mark);
        complete := false;
      } else {
        Seqs.SliceOfPrefix(inBuf.data, inBuf.lim, mark, inBuf.pos);
        ghost var raw := s[mark..inBuf.pos];
        EscapeAppended(p0, r0, piece, raw, text.value, base);
        pending := pending + text.value;
        piece := piece + [Escape(raw, text.value)];
        complete := true;
      }
    }
  }

  /** What `decodeArray` adds for the bytes from `start` to `end` is the decoded plain run. */
  lemma RunDecoded(buf: seq<JByte>, lim: nat, start: nat, end: nat, p0: seq<JChar>, r0: seq<seq<JByte>>,
                   p1: seq<JChar>, r1: seq<seq<JByte>>, base: seq<JByte> -> seq<JChar>)
    requires start <= end <= lim <= |buf|
    requires end <= start ==> p1 == p0 && r1 == r0
    requires start < end ==> p1 == p0 + base(buf[start..end]) && r1 == r0 + [buf[start..end]]
    ensures p1 == p0 + Output(Run(buf[..lim], start, end), base)
    ensures r1 == r0 + PlainRuns(Run(buf[..lim], start, end))
  {
    Seqs.SliceOfPrefix(buf, lim, start, end);
    RunOutput(buf[..lim], start, end, base);
  }

  /** Appending an escape's text after a decoded run decodes the run and the escape. */
  lemma EscapeAppended(p0: seq<JChar>, r0: seq<seq<JByte>>, run: seq<Segment>, raw: seq<JByte>, text: seq<JChar>,
                       base: seq<JByte> -> seq<JChar>)
    ensures p0 + Output(run, base) + text == p0 + Output(run + [Escape(raw, text)], base)
    ensures r0 + PlainRuns(run) == r0 + PlainRuns(run + [Escape(raw, text)])
  {
    EscapeOutput(raw, text, base);
    OutputAppend(run, [Escape(raw, text)], base);
    Seqs.AppendAssoc(p0, Output(run, base), text);
  }

  /** Decoding a concatenation of segments decodes each part in turn. */
  lemma OutputAppend(a: seq<Segment>, b: seq<Segment>, base: seq<JByte> -> seq<JChar>)
    ensures Output(a + b, base) == Output(a, base) + Output(b, base)
    ensures PlainRuns(a + b) == PlainRuns(a) + PlainRuns(b)
  {
    OutputOfAppend(a, b, base);
    PlainRunsOfAppend(a, b);
  }

  lemma {:induction false} OutputOfAppend(a: seq<Segment>, b: seq<Segment>, base: seq<JByte> -> seq<JChar>)
    ensures Output(a + b, base) == Output(a, base) + Output(b, base)
    decreases |b|
  {
    if b == [] {
      assert a + b == a;
    } else {
      var init := b[..|b| - 1];
      Seqs.SplitAppend(a, b, |b| - 1);
      assert (a + b)[|a + b| - 1] == b[|b| - 1];
      OutputOfAppend(a, init, base);
      Seqs.AppendAssoc(Output(a, base), Output(init, base), SegmentText(b[|b| - 1], base));
    }
  }

  lemma {:induction false} PlainRunsOfAppend(a: seq<Segment>, b: seq<Segment>)
    ensures PlainRuns(a + b) == PlainRuns(a) + PlainRuns(b)
    decreases |b|
  {
    if b == [] {
      assert a + b == a;
    } else {
      var init := b[..|b| - 1];
      var g := b[|b| - 1];
      Seqs.SplitAppend(a, b, |b| - 1);
      assert (a + b)[|a + b| - 1] == g;
      PlainRunsOfAppend(a, init);
      Seqs.AppendAssoc(PlainRuns(a), PlainRuns(init), if g.Plain? then [g.run] else []);
    }
  }

  /** Appending `piece` to the closed segments appends its text and its plain runs. */
  lemma Extend(pending0: seq<JChar>, runs0: seq<seq<JByte>>, done: seq<Segment>, piece: seq<Segment>, base: seq<JByte> -> seq<JChar>)
    ensures pending0 + Output(done + piece, base) == pending0 + Output(done, base) + Output(piece, base)
    ensures runs0 + PlainRuns(done + piece) == runs0 + PlainRuns(done) + PlainRuns(piece)
  {
    OutputAppend(done, piece, base);
    Seqs.AppendAssoc(pending0, Output(done, base), Output(piece, base));
    Seqs.AppendAssoc(runs0, PlainRuns(done), PlainRuns(piece));
  }

  /** A plain run is decoded by the base charset, and only when it is not empty. */
  lemma RunOutput(s: seq<JByte>, start: nat, end: nat, base: seq<JByte> -> seq<JChar>)
    requires start <= end <= |s|
    ensures Output(Run(s, start, end), base) == (if start < end then base(s[start..end]) else [])
    ensures PlainRuns(Run(s, start, end)) == (if start < end then [s[start..end]] else [])
  {
    if start < end {
      assert Run(s, start, end)[..0] == [];
    }
  }

  /** An escape decodes to its text and hands nothing to the base charset. */
  lemma EscapeOutput(raw: seq<JByte>, text: seq<JChar>, base: seq<JByte> -> seq<JChar>)
    ensures Output([Escape(raw, text)], base) == text
    ensures PlainRuns([Escape(raw, text)]) == []
  {
    assert [Escape(raw, text)][..0] == [];
  }

  /** The text of a `\u` escape is what `unicode` makes of its four bytes, or the six bytes kept. */
  lemma UnicodeEscapeText(raw: seq<JByte>)
    requires |raw| == 6 && raw[0] == Backslash && raw[1] == LetterU
    ensures var c := Unicode(raw[2..]);
      EscapeText(raw) == if c == InvalidChar then [0x5C, 0x75, ByteChar(raw[2]), ByteChar(raw[3]), ByteChar(raw[4]), ByteChar(raw[5])] else [c]
  {
    if DecodedUnit(raw[2..]).None? {
      UndecodableKept(raw);
    }
  }

  /**
   * The part of `decodeLoop` after a backslash at `at` has been read: reads the escape
   * and gives its text, or None (a `BufferUnderflowException`) when the limit cuts it off.
   */
  method ReadEscape(inBuf: ByteBuf, ghost at: nat) returns (text: Option<seq<JChar>>)
    requires inBuf.Valid() && at < inBuf.lim && inBuf.pos == at + 1 && inBuf.data[at] == Backslash
    modifies inBuf
    ensures inBuf.Valid() && inBuf.lim == old(inBuf.lim)
    ensures text.None? <==> EscapeLength(inBuf.data[..inBuf.lim], at).None?
    ensures text.Some? ==> var len := EscapeLength(inBuf.data[..inBuf.lim], at).value;
      inBuf.pos == at + len && text.value == EscapeText(inBuf.data[at..at + len])
  {
    var next :- inBuf.Get();
    if next == LetterU {
      var ord :- inBuf.GetFour();
      var decoded := Unicode(ord);
      ghost var raw := inBuf.data[at..at + 6];
      assert raw[1] == LetterU && raw[2..] == ord;
      UnicodeEscapeText(raw);
      if decoded == InvalidChar {
        text := Some([0x5C, 0x75, ByteChar(ord[0]), ByteChar(ord[1]), ByteChar(ord[2]), ByteChar(ord[3])]);
      } else {
        text := Some([decoded]);
      }
    } else {
      assert EscapeLength(inBuf.data[..inBuf.lim], at) == Some(2);
      ghost var raw := inBuf.data[at..at + 2];
      assert raw[0] == Backslash && raw[1] == next;
      BackslashOtherKept(raw);
      text := Some([0x5C, ByteChar(next)]);
    }
  }
}
