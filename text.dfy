/** String operations of the JVM standard library that the modelled code relies on. */
module Text {

  /**
   * The UTF-16 code units the JVM stores for one character: the character itself below
   * 0x10000, otherwise its high and low surrogates.
   */
  function Utf16(c: char): (u: seq<int>)
    ensures |u| == (if c as int < 0x10000 then 1 else 2)
    ensures forall k :: 0 <= k < |u| ==> 0 <= u[k] < 0x10000
    ensures c as int < 0x10000 ==> u == [c as int]
  {
    if c as int < 0x10000 then [c as int]
    else [0xD800 + (c as int - 0x10000) / 0x400, 0xDC00 + (c as int - 0x10000) % 0x400]
  }

  /** A supplementary character becomes a high surrogate and a low surrogate that together give it back. */
  lemma Utf16Surrogates(c: char)
    requires c as int >= 0x10000
    ensures var u := Utf16(c);
      && 0xD800 <= u[0] < 0xDC00 <= u[1] < 0xE000
      && c as int == 0x10000 + (u[0] - 0xD800) * 0x400 + (u[1] - 0xDC00)
  {
  }

  /** A JVM string's code units: the UTF-16 encoding of each character, in order. */
  function Units(s: string): seq<int>
    decreases |s|
  {
    if s == [] then [] else Units(s[..|s| - 1]) + Utf16(s[|s| - 1])
  }

  /** `String.length`: the number of UTF-16 code units. */
  function Length(s: string): nat
  {
    |Units(s)|
  }

  /** The code units of a concatenation are those of its parts. */
  lemma {:induction false} UnitsAppend(a: string, b: string)
    ensures Units(a + b) == Units(a) + Units(b)
    decreases |b|
  {
    if b == [] {
      assert a + b == a;
    } else {
      var init := b[..|b| - 1];
      assert (a + b)[..|a + b| - 1] == a + init;
      UnitsAppend(a, init);
    }
  }

  /** Every character is in the Basic Multilingual Plane, one code unit each. */
  predicate Bmp(s: string)
  {
    forall k :: 0 <= k < |s| ==> s[k] as int < 0x10000
  }

  /** On text in the Basic Multilingual Plane, code units and characters coincide. */
  lemma {:induction false} BmpUnits(s: string)
    requires Bmp(s)
    ensures |Units(s)| == |s| && forall k :: 0 <= k < |s| ==> Units(s)[k] == s[k] as int
    decreases |s|
  {
    if s != [] {
      BmpUnits(s[..|s| - 1]);
    }
  }

  /** `pat` occurs in `s` starting at index `k`. */
  predicate OccursAt<T(==)>(s: seq<T>, pat: seq<T>, k: int)
  {
    0 <= k && k + |pat| <= |s| && s[k..k + |pat|] == pat
  }

  /** `String.indexOf(pat, from)`: the first occurrence of `pat` at or after `from`, or -1. */
  function IndexFrom<T(==)>(s: seq<T>, pat: seq<T>, from: nat): (r: int)
    requires from <= |s|
    ensures r == -1 || (from <= r && OccursAt(s, pat, r))
    ensures r == -1 ==> forall k :: from <= k <= |s| ==> !OccursAt(s, pat, k)
    ensures r != -1 ==> forall k :: from <= k < r ==> !OccursAt(s, pat, k)
    decreases |s| - from
  {
    if OccursAt(s, pat, from) then from
    else if from == |s| then -1
    else IndexFrom(s, pat, from + 1)
  }

  /** `String.indexOf(pat)`: the first occurrence of `pat` in `s`, or -1. */
  function IndexOf<T(==)>(s: seq<T>, pat: seq<T>): (r: int)
    ensures r == -1 <==> forall k :: 0 <= k <= |s| ==> !OccursAt(s, pat, k)
    ensures r != -1 ==> OccursAt(s, pat, r) && forall k :: 0 <= k < r ==> !OccursAt(s, pat, k)
  {
    IndexFrom(s, pat, 0)
  }

  /** `String.contains(pat)`. */
  predicate Contains<T(==)>(s: seq<T>, pat: seq<T>)
  {
    IndexOf(s, pat) != -1
  }

  /** `String.replace(old, new)`: every non-overlapping occurrence of `pat`, left to right, becomes `rep`. */
  function Replace<T(==)>(s: seq<T>, pat: seq<T>, rep: seq<T>): (r: seq<T>)
    requires |pat| > 0
    decreases |s|
  {
    if |s| < |pat| then s
    else if s[..|pat|] == pat then rep + Replace(s[|pat|..], pat, rep)
    else [s[0]] + Replace(s[1..], pat, rep)
  }

  /** `String.replace(c, d)` for single characters. */
  function ReplaceChar<T(==)>(s: seq<T>, c: T, d: T): (r: seq<T>)
    ensures |r| == |s|
    ensures forall k :: 0 <= k < |s| ==> r[k] == if s[k] == c then d else s[k]
  {
    seq(|s|, k requires 0 <= k < |s| => if s[k] == c then d else s[k])
  }

  /** The concatenation of `n` copies of `x`: `String.repeat(n)` for a non-negative count. */
  function Repeat<T>(x: T, n: nat): (r: seq<T>)
    ensures |r| == n && forall k :: 0 <= k < n ==> r[k] == x
  {
    seq(n, _ => x)
  }

  /** `joinToString(sep)` without prefix or postfix. */
  function Join<T>(parts: seq<seq<T>>, sep: seq<T>): seq<T>
    decreases |parts|
  {
    if parts == [] then []
    else if |parts| == 1 then parts[0]
    else Join(parts[..|parts| - 1], sep) + sep + parts[|parts| - 1]
  }

  /** The number of occurrences of `x` in `s`. */
  function Count<T(==)>(s: seq<T>, x: T): nat
    decreases |s|
  {
    if s == [] then 0 else Count(s[..|s| - 1], x) + (if s[|s| - 1] == x then 1 else 0)
  }

  lemma {:induction false} CountAppend<T>(a: seq<T>, b: seq<T>, x: T)
    ensures Count(a + b, x) == Count(a, x) + Count(b, x)
    decreases |b|
  {
    if b == [] {
      assert a + b == a;
    } else {
      assert (a + b)[..|a + b| - 1] == a + b[..|b| - 1];
      CountAppend(a, b[..|b| - 1], x);
    }
  }

  lemma {:induction false} CountAbsent<T>(s: seq<T>, x: T)
    requires forall k :: 0 <= k < |s| ==> s[k] != x
    ensures Count(s, x) == 0
    decreases |s|
  {
    if s != [] {
      CountAbsent(s[..|s| - 1], x);
    }
  }
}
