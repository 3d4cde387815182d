/**
 * String operations the JavaScript code relies on, written out over `seq<char>`:
 * `split` on one character, `includes`, `trim`, ASCII lower-casing, the decimal
 * rendering of a page number, and the code-point order the store sorts titles by.
 */
module Text {

  /** `p` is a prefix of `s`. */
  predicate IsPrefix(p: string, s: string) {
    |p| <= |s| && s[..|p|] == p
  }

  /** `p` is a suffix of `s`. */
  predicate IsSuffix(p: string, s: string) {
    |p| <= |s| && s[|s| - |p|..] == p
  }

  /** `m` occurs in `s` starting at index `i`. */
  predicate OccursAt(s: string, m: string, i: int) {
    0 <= i <= |s| - |m| && s[i..i + |m|] == m
  }

  /** `s.includes(m)`: `m` occurs in `s` as a contiguous piece. */
  predicate Contains(s: string, m: string) {
    exists i | 0 <= i <= |s| - |m| :: OccursAt(s, m, i)
  }

  // ---------------------------------------------------------------------------
  // split(' ') and its inverse

  /** `s.split(sep)`: the pieces between consecutive separators, empty pieces included. */
  function Split(s: string, sep: char): (parts: seq<string>)
    ensures |parts| >= 1
    ensures forall i :: 0 <= i < |parts| ==> sep !in parts[i]
  {
    if s == [] then [""]
    else
      var rest := Split(s[1..], sep);
      if s[0] == sep then [""] + rest
      else [[s[0]] + rest[0]] + rest[1..]
  }

  /** `parts.join(sep)`. */
  function Join(parts: seq<string>, sep: char): string
    requires |parts| >= 1
  {
    if |parts| == 1 then parts[0] else parts[0] + [sep] + Join(parts[1..], sep)
  }

  lemma {:induction false} JoinSplit(s: string, sep: char)
    ensures Join(Split(s, sep), sep) == s
  {
    if s != [] {
      JoinSplit(s[1..], sep);
      var rest := Split(s[1..], sep);
      if s[0] != sep {
        var parts := Split(s, sep);
        assert parts[0] == [s[0]] + rest[0] && parts[1..] == rest[1..];
        if |rest| > 1 {
          assert rest == [rest[0]] + rest[1..];
          calc {
            Join(parts, sep);
            parts[0] + [sep] + Join(parts[1..], sep);
            [s[0]] + (rest[0] + [sep] + Join(rest[1..], sep));
            [s[0]] + Join(rest, sep);
          }
        }
        assert [s[0]] + s[1..] == s;
      } else {
        assert [sep] + s[1..] == s;
      }
    }
  }

  /** A piece without the separator splits to itself. */
  lemma {:induction false} SplitWithoutSeparator(w: string, sep: char)
    requires sep !in w
    ensures Split(w, sep) == [w]
  {
    if w != [] {
      SplitWithoutSeparator(w[1..], sep);
      assert [w[0]] + w[1..] == w;
    }
  }

  /** Splitting peels the first piece off at the first separator. */
  lemma {:induction false} SplitAfterPiece(w: string, sep: char, t: string)
    requires sep !in w
    ensures Split(w + [sep] + t, sep) == [w] + Split(t, sep)
  {
    if w == [] {
      assert ([] + [sep] + t)[1..] == t;
    } else {
      SplitAfterPiece(w[1..], sep, t);
      assert (w + [sep] + t)[1..] == w[1..] + [sep] + t;
      assert [w[0]] + w[1..] == w;
    }
  }

  lemma {:induction false} SplitJoin(parts: seq<string>, sep: char)
    requires |parts| >= 1
    requires forall i :: 0 <= i < |parts| ==> sep !in parts[i]
    ensures Split(Join(parts, sep), sep) == parts
  {
    if |parts| == 1 {
      SplitWithoutSeparator(parts[0], sep);
    } else {
      SplitJoin(parts[1..], sep);
      SplitAfterPiece(parts[0], sep, Join(parts[1..], sep));
      assert [parts[0]] + parts[1..] == parts;
    }
  }

  // ---------------------------------------------------------------------------
  // trim()

  /** The characters ECMAScript's `String.prototype.trim` removes (white space and line terminators). */
  predicate IsJsSpace(c: char) {
    || c == '\t' || c == '\n' || c == '\U{000B}' || c == '\U{000C}' || c == '\r' || c == ' '
    || c == '\U{00A0}' || c == '\U{1680}' || ('\U{2000}' <= c <= '\U{200A}')
    || c == '\U{2028}' || c == '\U{2029}' || c == '\U{202F}' || c == '\U{205F}'
    || c == '\U{3000}' || c == '\U{FEFF}'
  }

  /** How many white-space characters `s` starts with. */
  function LeadingSpaces(s: string): (k: nat)
    ensures k <= |s|
    ensures forall j :: 0 <= j < k ==> IsJsSpace(s[j])
    ensures k < |s| ==> !IsJsSpace(s[k])
  {
    if s == [] || !IsJsSpace(s[0]) then 0 else 1 + LeadingSpaces(s[1..])
  }

  /** How many white-space characters `s` ends with. */
  function TrailingSpaces(s: string): (k: nat)
    ensures k <= |s|
    ensures forall j :: |s| - k <= j < |s| ==> IsJsSpace(s[j])
    ensures k < |s| ==> !IsJsSpace(s[|s| - 1 - k])
  {
    if s == [] || !IsJsSpace(s[|s| - 1]) then 0 else 1 + TrailingSpaces(s[..|s| - 1])
  }

  /** `s.trim()`: no white space is left at either end, and text without any there is kept as it is. */
  function Trim(s: string): (t: string)
    ensures |t| <= |s|
    ensures t != [] ==> !IsJsSpace(t[0]) && !IsJsSpace(t[|t| - 1])
    ensures s != [] && !IsJsSpace(s[0]) && !IsJsSpace(s[|s| - 1]) ==> t == s
  {
    var rest := s[LeadingSpaces(s)..];
    rest[..|rest| - TrailingSpaces(rest)]
  }

  /** An occurrence inside a slice is an occurrence in the whole. */
  lemma OccursInSlice(s: string, m: string, a: nat, e: nat, i: int)
    requires a <= e <= |s| && OccursAt(s[a..e], m, i)
    ensures OccursAt(s, m, a + i)
  {
    var whole, part := s[a + i..a + i + |m|], s[a..e][i..i + |m|];
    assert forall k :: 0 <= k < |m| ==> whole[k] == part[k];
  }

  /** An occurrence whose first and last characters lie in `s[a..e]` is an occurrence there. */
  lemma OccursInsideSlice(s: string, m: string, a: nat, e: nat, i: int)
    requires a <= e <= |s| && OccursAt(s, m, i) && a <= i && i + |m| <= e
    ensures OccursAt(s[a..e], m, i - a)
  {
    var part, whole := s[a..e][i - a..i - a + |m|], s[i..i + |m|];
    assert forall k :: 0 <= k < |m| ==> part[k] == whole[k];
  }

  /**
   * Trimming never changes whether a marker that starts and ends with a visible
   * character occurs in the text.
   */
  lemma TrimKeepsMarker(s: string, m: string)
    requires m != [] && !IsJsSpace(m[0]) && !IsJsSpace(m[|m| - 1])
    ensures Contains(Trim(s), m) <==> Contains(s, m)
  {
    var a := LeadingSpaces(s);
    var e := |s| - TrailingSpaces(s[a..]);
    assert Trim(s) == s[a..e];
    if Contains(s[a..e], m) {
      var i :| 0 <= i <= e - a - |m| && OccursAt(s[a..e], m, i);
      OccursInSlice(s, m, a, e, i);
    }
    if Contains(s, m) {
      var i :| 0 <= i <= |s| - |m| && OccursAt(s, m, i);
      EndsOfOccurrence(s, m, i);
      VisibleInsideTrim(s, i, i + |m| - 1);
      OccursInsideSlice(s, m, a, e, i);
    }
  }

  lemma EndsOfOccurrence(s: string, m: string, i: int)
    requires m != [] && OccursAt(s, m, i)
    ensures s[i] == m[0] && s[i + |m| - 1] == m[|m| - 1]
  {
    assert s[i] == s[i..i + |m|][0];
    assert s[i + |m| - 1] == s[i..i + |m|][|m| - 1];
  }

  /** Visible characters at `i` and `j` lie between the leading and the trailing white space. */
  lemma VisibleInsideTrim(s: string, i: int, j: int)
    requires 0 <= i <= j < |s| && !IsJsSpace(s[i]) && !IsJsSpace(s[j])
    ensures LeadingSpaces(s) <= i
    ensures j < |s| - TrailingSpaces(s[LeadingSpaces(s)..])
  {
    var a := LeadingSpaces(s);
    VisibleNotLeading(s, i);
    IndexAfterDrop(s, a, j);
    VisibleNotTrailing(s[a..], j - a);
  }

  lemma IndexAfterDrop(s: string, a: nat, j: int)
    requires a <= j < |s|
    ensures s[a..][j - a] == s[j]
  {
  }

  lemma VisibleNotLeading(s: string, j: int)
    requires 0 <= j < |s| && !IsJsSpace(s[j])
    ensures LeadingSpaces(s) <= j
  {
  }

  lemma VisibleNotTrailing(s: string, j: int)
    requires 0 <= j < |s| && !IsJsSpace(s[j])
    ensures j < |s| - TrailingSpaces(s)
  {
  }

  // ---------------------------------------------------------------------------
  // case folding for the case-insensitive title match

  function LowerChar(c: char): char {
    if 'A' <= c <= 'Z' then (c as int + 32) as char else c
  }

  function Lower(s: string): (r: string)
    ensures |r| == |s|
  {
    seq(|s|, i requires 0 <= i < |s| => LowerChar(s[i]))
  }

  /** A case-insensitive occurrence of `m` in `s` (ASCII letters); an exact occurrence is one. */
  predicate ContainsIgnoringCase(s: string, m: string)
    ensures Contains(s, m) ==> ContainsIgnoringCase(s, m)
    ensures ContainsIgnoringCase(s, m) ==> |m| <= |s|
  {
    LowerKeepsOccurrence(s, m);
    Contains(Lower(s), Lower(m))
  }

  /** Lower-casing both sides keeps every occurrence. */
  lemma LowerKeepsOccurrence(s: string, m: string)
    ensures Contains(s, m) ==> Contains(Lower(s), Lower(m))
  {
    if Contains(s, m) {
      var i :| 0 <= i <= |s| - |m| && OccursAt(s, m, i);
      var piece := Lower(s)[i..i + |m|];
      assert forall k :: 0 <= k < |m| ==> piece[k] == Lower(m)[k];
      assert OccursAt(Lower(s), Lower(m), i);
    }
  }

  // ---------------------------------------------------------------------------
  // decimal numerals, as a template literal renders a page number

  predicate IsDigit(c: char) {
    '0' <= c <= '9'
  }

  predicate AllDigits(s: string) {
    forall i :: 0 <= i < |s| ==> IsDigit(s[i])
  }

  function DigitChar(d: nat): (c: char)
    requires d < 10
    ensures IsDigit(c)
  {
    ('0' as int + d) as char
  }

  /** The decimal numeral of `n`, without leading zeros. */
  function Decimal(n: nat): (s: string)
    ensures s != [] && AllDigits(s)
  {
    if n < 10 then [DigitChar(n)] else Decimal(n / 10) + [DigitChar(n % 10)]
  }

  /** The value of a numeral. */
  function ParseDecimal(s: string): nat
    requires AllDigits(s)
  {
    if s == [] then 0
    else 10 * ParseDecimal(s[..|s| - 1]) + (s[|s| - 1] as int - '0' as int)
  }

  lemma {:induction false} DecimalRoundTrip(n: nat)
    ensures ParseDecimal(Decimal(n)) == n
  {
    if n >= 10 {
      DecimalRoundTrip(n / 10);
      var s := Decimal(n);
      assert s[..|s| - 1] == Decimal(n / 10);
    }
  }

  // ---------------------------------------------------------------------------
  // the order titles are sorted by: code point by code point, a prefix first

  predicate StringLe(a: string, b: string) {
    a == [] || (b != [] && (a[0] < b[0] || (a[0] == b[0] && StringLe(a[1..], b[1..]))))
  }

  lemma {:induction false} StringLeTotal(a: string, b: string)
    ensures StringLe(a, b) || StringLe(b, a)
  {
    if a != [] && b != [] && a[0] == b[0] {
      StringLeTotal(a[1..], b[1..]);
    }
  }

  lemma {:induction false} StringLeTransitive(a: string, b: string, c: string)
    requires StringLe(a, b) && StringLe(b, c)
    ensures StringLe(a, c)
  {
    if a != [] && a[0] == b[0] && b[0] == c[0] {
      StringLeTransitive(a[1..], b[1..], c[1..]);
    }
  }

  lemma {:induction false} StringLeAntisymmetric(a: string, b: string)
    requires StringLe(a, b) && StringLe(b, a)
    ensures a == b
  {
    if a != [] {
      StringLeAntisymmetric(a[1..], b[1..]);
      assert a == [a[0]] + a[1..] && b == [b[0]] + b[1..];
    }
  }
}
