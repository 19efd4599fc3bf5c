/** The order on lines used throughout the polyphase sorter: Java's
    String.compareTo. A Java string is a sequence of UTF-16 code units, so a
    line (here a sequence of Unicode scalar values) is first encoded as UTF-16
    and the code units are compared lexicographically, a proper prefix ranking
    before the longer string. */
module Lexicographic {

  /** The first UTF-16 code unit of a character: itself in the Basic
      Multilingual Plane, a high surrogate above it. */
  function High(c: char): (u: int)
    ensures c as int < 0x1_0000 ==> u == c as int
    ensures c as int >= 0x1_0000 ==> 0xD800 <= u < 0xDC00
  {
    var v := c as int;
    if v < 0x1_0000 then v else 0xD800 + (v - 0x1_0000) / 0x400
  }

  /** The low surrogate of a character above the Basic Multilingual Plane. */
  function Low(c: char): int {
    0xDC00 + (c as int - 0x1_0000) % 0x400
  }

  /** The UTF-16 code units of one character. */
  function Units(c: char): (u: seq<int>)
    ensures 1 <= |u| <= 2 && u[0] == High(c)
    ensures |u| == 1 <==> c as int < 0x1_0000
  {
    if c as int < 0x1_0000 then [High(c)] else [High(c), Low(c)]
  }

  /** Distinct characters have distinct code units. */
  lemma UnitsInjective(c: char, d: char)
    requires Units(c) == Units(d)
    ensures c == d
  {
    var v, w := c as int, d as int;
    if v >= 0x1_0000 {
      assert (v - 0x1_0000) / 0x400 == (w - 0x1_0000) / 0x400;
      assert (v - 0x1_0000) % 0x400 == (w - 0x1_0000) % 0x400;
      assert v - 0x1_0000 == 0x400 * ((v - 0x1_0000) / 0x400) + (v - 0x1_0000) % 0x400;
      assert w - 0x1_0000 == 0x400 * ((w - 0x1_0000) / 0x400) + (w - 0x1_0000) % 0x400;
    }
  }

  /** The UTF-16 encoding of a line, the units Java's String holds. */
  function Utf16(s: string): (u: seq<int>)
    ensures |u| >= |s|
    ensures s == [] <==> u == []
  {
    if s == [] then [] else Units(s[0]) + Utf16(s[1..])
  }

  /** The loop of String.compareTo over code units: the difference of the
      first differing pair, or the difference of the lengths when one is a
      prefix of the other. */
  function CompareUnits(a: seq<int>, b: seq<int>): int {
    if a == [] || b == [] then |a| - |b|
    else if a[0] != b[0] then a[0] - b[0]
    else CompareUnits(a[1..], b[1..])
  }

  /** The number of UTF-16 code units of a line, String.length(). */
  function Width(s: string): (w: nat)
    ensures w >= |s|
  {
    if s == [] then 0 else (if s[0] as int < 0x1_0000 then 1 else 2) + Width(s[1..])
  }

  /** The difference of the first differing code units of two distinct
      characters. */
  function UnitDiff(c: char, d: char): (r: int)
    requires c != d
    ensures r != 0
  {
    if High(c) != High(d) then High(c) - High(d)
    else
      UnitsDifferLow(c, d);
      Low(c) - Low(d)
  }

  /** Characters with the same high unit and different low units: two
      distinct characters sharing their first unit lie above the Basic
      Multilingual Plane and differ in the second. */
  lemma UnitsDifferLow(c: char, d: char)
    requires c != d && High(c) == High(d)
    ensures c as int >= 0x1_0000 && d as int >= 0x1_0000 && Low(c) != Low(d)
  {
    if c as int >= 0x1_0000 && d as int >= 0x1_0000 && Low(c) == Low(d) {
      UnitsInjective(c, d);
    }
  }

  /** The value a.compareTo(b) returns, walking the lines one character at a
      time: equal leading characters are skipped, the first differing pair
      gives the difference of its first differing code units, and when one
      line is a prefix of the other the difference of the lengths in code
      units is returned. Zero exactly when the lines are equal. */
  function CompareTo(a: string, b: string): (r: int)
    ensures r == 0 <==> a == b
  {
    if a == [] || b == [] then Width(a) - Width(b)
    else if a[0] != b[0] then UnitDiff(a[0], b[0])
    else
      assert a == [a[0]] + a[1..] && b == [b[0]] + b[1..];
      CompareTo(a[1..], b[1..])
  }

  lemma {:induction false} WidthIsLength(s: string)
    ensures Width(s) == |Utf16(s)|
  {
    if s != [] {
      WidthIsLength(s[1..]);
    }
  }

  /** Skipping a common prefix of code units leaves the comparison as it is. */
  lemma {:induction false} CommonPrefix(p: seq<int>, x: seq<int>, y: seq<int>)
    ensures CompareUnits(p + x, p + y) == CompareUnits(x, y)
  {
    if p != [] {
      assert (p + x)[1..] == p[1..] + x && (p + y)[1..] == p[1..] + y;
      CommonPrefix(p[1..], x, y);
    } else {
      assert p + x == x && p + y == y;
    }
  }

  /** The first differing characters decide the comparison of the units. */
  lemma DifferingUnits(c: char, d: char, x: seq<int>, y: seq<int>)
    requires c != d
    ensures CompareUnits(Units(c) + x, Units(d) + y) == UnitDiff(c, d)
  {
    var u, w := Units(c) + x, Units(d) + y;
    if High(c) == High(d) {
      UnitsDifferLow(c, d);
      assert u[1..] == [Low(c)] + x && w[1..] == [Low(d)] + y;
    }
  }

  /** The character walk computes String.compareTo on the UTF-16 encodings. */
  lemma {:induction false} CompareToUnits(a: string, b: string)
    ensures CompareTo(a, b) == CompareUnits(Utf16(a), Utf16(b))
  {
    if a == [] || b == [] {
      WidthIsLength(a);
      WidthIsLength(b);
    } else if a[0] == b[0] {
      CompareToUnits(a[1..], b[1..]);
      CommonPrefix(Units(a[0]), Utf16(a[1..]), Utf16(b[1..]));
    } else {
      DifferingUnits(a[0], b[0], Utf16(a[1..]), Utf16(b[1..]));
    }
  }

  /** a.compareTo(b) < 0 */
  predicate Below(a: string, b: string) {
    CompareTo(a, b) < 0
  }

  /** a.compareTo(b) <= 0 */
  predicate AtMost(a: string, b: string) {
    CompareTo(a, b) <= 0
  }

  lemma {:induction false} UnitsAntisymmetric(a: seq<int>, b: seq<int>)
    ensures CompareUnits(b, a) == -CompareUnits(a, b)
  {
    if a != [] && b != [] && a[0] == b[0] {
      UnitsAntisymmetric(a[1..], b[1..]);
    }
  }

  lemma {:induction false} UnitsTransitive(a: seq<int>, b: seq<int>, c: seq<int>)
    requires CompareUnits(a, b) <= 0 && CompareUnits(b, c) <= 0
    ensures CompareUnits(a, c) <= 0
  {
    if a != [] && b != [] && c != [] && a[0] == b[0] && b[0] == c[0] {
      UnitsTransitive(a[1..], b[1..], c[1..]);
    }
  }

  /** Swapping the arguments negates the comparison, so the order is total:
      of two strings, one is at most the other. */
  lemma Antisymmetric(a: string, b: string)
    ensures CompareTo(b, a) == -CompareTo(a, b)
  {
    CompareToUnits(a, b);
    CompareToUnits(b, a);
    UnitsAntisymmetric(Utf16(a), Utf16(b));
  }

  lemma Transitive(a: string, b: string, c: string)
    requires AtMost(a, b) && AtMost(b, c)
    ensures AtMost(a, c)
  {
    CompareToUnits(a, b);
    CompareToUnits(b, c);
    CompareToUnits(a, c);
    UnitsTransitive(Utf16(a), Utf16(b), Utf16(c));
  }

  /** A string below another is not at or above it. */
  lemma BelowNotAtMost(a: string, b: string)
    ensures Below(a, b) <==> !AtMost(b, a)
  {
    Antisymmetric(a, b);
  }

  lemma BelowAtMost(a: string, b: string, c: string)
    requires Below(a, b) && AtMost(b, c)
    ensures Below(a, c)
  {
    Transitive(a, b, c);
    Antisymmetric(a, b);
  }

  /** The empty line is at most every line. */
  lemma EmptyAtMost(s: string)
    ensures AtMost("", s) && !Below(s, "")
  {
  }

  /** Adjacent pairs in order. */
  ghost predicate Ascending(s: seq<string>) {
    forall i :: 0 < i < |s| ==> AtMost(s[i - 1], s[i])
  }

  /** A line at or above the last one extends an ascending sequence. */
  lemma AscendingSnoc(s: seq<string>, x: string)
    requires Ascending(s)
    requires s != [] ==> AtMost(s[|s| - 1], x)
    ensures Ascending(s + [x])
  {
  }

  /** A line at or below the first one extends an ascending sequence. */
  lemma AscendingCons(x: string, s: seq<string>)
    requires Ascending(s)
    requires s != [] ==> AtMost(x, s[0])
    ensures Ascending([x] + s)
  {
  }
}
