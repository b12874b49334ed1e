/**
 * The pieces of Rust's standard library that the fingerprint code leans on,
 * stated over `string` (= seq<char>): `str::split` on one character,
 * `join`, `str::parse::<u16>`, decimal and lower-case hex rendering, the
 * byte-wise order of `String` and the result of `sort_unstable` on strings.
 * All strings produced here are ASCII, so characters and UTF-8 bytes agree.
 */
module Text {
  import opened Wrappers
  import opened Ints

  // ---------------------------------------------------------------------
  // Splitting and joining on a one-character separator
  // ---------------------------------------------------------------------

  /** `s.split(sep)`: the pieces between separators, empty ones included. */
  function Split(s: string, sep: char): (r: seq<string>)
    ensures |r| >= 1
    ensures forall i :: 0 <= i < |r| ==> sep !in r[i]
    decreases |s|
  {
    if s == [] then [[]]
    else
      var rest := Split(s[1..], sep);
      if s[0] == sep then [[]] + rest
      else [[s[0]] + rest[0]] + rest[1..]
  }

  /** `parts.join(sep)`; the empty list joins to the empty string. */
  function Join(parts: seq<string>, sep: char): string
  {
    if |parts| == 0 then []
    else if |parts| == 1 then parts[0]
    else parts[0] + [sep] + Join(parts[1..], sep)
  }

  /** Joining the pieces of a split gives back the original string. */
  lemma {:induction false} JoinSplit(s: string, sep: char)
    ensures Join(Split(s, sep), sep) == s
    decreases |s|
  {
    if s != [] {
      var rest := Split(s[1..], sep);
      JoinSplit(s[1..], sep);
      if s[0] == sep {
        assert Split(s, sep) == [[]] + rest;
        assert ([[]] + rest)[1..] == rest;
      } else {
        var r := [[s[0]] + rest[0]] + rest[1..];
        assert Split(s, sep) == r;
        if |rest| == 1 {
          assert Join(r, sep) == [s[0]] + rest[0];
        } else {
          assert r[1..] == rest[1..];
          assert Join(r, sep) == [s[0]] + rest[0] + [sep] + Join(rest[1..], sep);
        }
      }
    }
  }

  /** A separator-free prefix glues onto the first piece of the rest. */
  lemma {:induction false} SplitPrefix(p: string, t: string, sep: char)
    requires sep !in p
    ensures Split(p + t, sep) == [p + Split(t, sep)[0]] + Split(t, sep)[1..]
    decreases |p|
  {
    if p != [] {
      var s, st := p + t, Split(t, sep);
      assert s[0] == p[0] && s[0] != sep;
      assert s[1..] == p[1..] + t;
      SplitPrefix(p[1..], t, sep);
      var rest := Split(s[1..], sep);
      assert rest == [p[1..] + st[0]] + st[1..];
      assert rest[0] == p[1..] + st[0] && rest[1..] == st[1..];
      assert Split(s, sep) == [[s[0]] + rest[0]] + rest[1..];
      assert [p[0]] + (p[1..] + st[0]) == p + st[0];
    } else {
      var st := Split(t, sep);
      assert p + t == t && p + st[0] == st[0];
      assert st == [st[0]] + st[1..];
    }
  }

  /** Splitting a join of separator-free pieces gives back the pieces. */
  lemma {:induction false} SplitJoin(parts: seq<string>, sep: char)
    requires |parts| >= 1
    requires forall i :: 0 <= i < |parts| ==> sep !in parts[i]
    ensures Split(Join(parts, sep), sep) == parts
    decreases |parts|
  {
    if |parts| == 1 {
      SplitPrefix(parts[0], [], sep);
      assert parts[0] + [] == parts[0];
    } else {
      var tail := Join(parts[1..], sep);
      SplitJoin(parts[1..], sep);
      var u := [sep] + tail;
      assert u[0] == sep && u[1..] == tail;
      assert Split(u, sep) == [[]] + parts[1..];
      SplitPrefix(parts[0], u, sep);
      assert Join(parts, sep) == parts[0] + u;
      assert ([[]] + parts[1..])[1..] == parts[1..];
      assert parts[0] + [] == parts[0];
      assert parts == [parts[0]] + parts[1..];
    }
  }

  /** A character found in no piece and distinct from the separator is not in the join. */
  lemma {:induction false} JoinAvoids(parts: seq<string>, sep: char, c: char)
    requires c != sep
    requires forall i :: 0 <= i < |parts| ==> c !in parts[i]
    ensures c !in Join(parts, sep)
    decreases |parts|
  {
    if |parts| > 1 {
      JoinAvoids(parts[1..], sep, c);
    }
  }

  // ---------------------------------------------------------------------
  // Decimal: `str::parse::<u16>` and `to_string`
  // ---------------------------------------------------------------------

  predicate IsDigit(c: char) { '0' <= c <= '9' }

  predicate AllDigits(s: string) { forall i :: 0 <= i < |s| ==> IsDigit(s[i]) }

  function DigitChar(d: nat): char
    requires d < 10
  {
    ('0' as int + d) as char
  }

  /** The value of a digit string read most significant digit first. */
  function DigitsValue(s: string): nat
    requires AllDigits(s)
  {
    if s == [] then 0
    else 10 * DigitsValue(s[..|s| - 1]) + (s[|s| - 1] as int - '0' as int)
  }

  /**
   * `tok.parse::<u16>()`: an optional leading '+', then at least one ASCII
   * digit, and a value that fits in 16 bits. Leading zeros are accepted.
   */
  function ParseU16(tok: string): Option<u16>
  {
    var digits := if |tok| > 0 && tok[0] == '+' then tok[1..] else tok;
    if |digits| == 0 || !AllDigits(digits) || DigitsValue(digits) > 0xFFFF then None
    else Some(DigitsValue(digits))
  }

  /** `n.to_string()`: shortest decimal rendering, no sign, no leading zero. */
  function Decimal(n: nat): (r: string)
    ensures |r| >= 1 && AllDigits(r)
  {
    if n < 10 then [DigitChar(n)] else Decimal(n / 10) + [DigitChar(n % 10)]
  }

  lemma {:induction false} DecimalValue(n: nat)
    ensures DigitsValue(Decimal(n)) == n
  {
    if n >= 10 {
      var d := Decimal(n);
      assert d[..|d| - 1] == Decimal(n / 10);
      DecimalValue(n / 10);
    }
  }

  /** Rendering a 16-bit value in decimal and parsing it back is the identity. */
  lemma ParseDecimal(n: u16)
    ensures ParseU16(Decimal(n)) == Some(n)
  {
    DecimalValue(n);
    assert IsDigit(Decimal(n)[0]);
  }

  /** A token that is exactly the decimal rendering of the value it parses to. */
  predicate IsCanonicalDecimal(tok: string)
  {
    ParseU16(tok).Some? && Decimal(ParseU16(tok).value) == tok
  }

  lemma CanonicalDecimal(n: u16)
    ensures IsCanonicalDecimal(Decimal(n))
  {
    ParseDecimal(n);
  }

  // ---------------------------------------------------------------------
  // Lower-case hexadecimal: `{:02x}` and `{:04x}`
  // ---------------------------------------------------------------------

  predicate IsLowerHexDigit(c: char) { '0' <= c <= '9' || 'a' <= c <= 'f' }

  predicate IsLowerHex(s: string) { forall i :: 0 <= i < |s| ==> IsLowerHexDigit(s[i]) }

  function HexDigit(d: nat): (c: char)
    requires d < 16
    ensures IsLowerHexDigit(c)
  {
    if d < 10 then ('0' as int + d) as char else ('a' as int + d - 10) as char
  }

  /** Larger digit values get larger characters: '9' < 'a'. */
  lemma HexDigitOrder(d: nat, e: nat)
    requires d < 16 && e < 16
    ensures HexDigit(d) <= HexDigit(e) <==> d <= e
  {
  }

  /** `format!("{:02x}", b)`. */
  function Hex2(b: u8): (r: string)
    ensures |r| == 2 && IsLowerHex(r)
  {
    [HexDigit(b / 16), HexDigit(b % 16)]
  }

  /** Concatenated `{:02x}` renderings of a byte string. */
  function LowerHex(bytes: seq<u8>): (r: string)
    ensures |r| == 2 * |bytes| && IsLowerHex(r)
  {
    if bytes == [] then [] else Hex2(bytes[0]) + LowerHex(bytes[1..])
  }

  /** The value of a lower-case hex digit. */
  function HexDigitValue(c: char): (d: nat)
    requires IsLowerHexDigit(c)
    ensures d < 16 && HexDigit(d) == c
  {
    if c <= '9' then c as int - '0' as int else c as int - 'a' as int + 10
  }

  /** Reads back a string of `{:02x}` renderings, two digits per byte. */
  function FromLowerHex(s: string): seq<u8>
    requires |s| % 2 == 0 && IsLowerHex(s)
    decreases |s|
  {
    if s == [] then [] else [16 * HexDigitValue(s[0]) + HexDigitValue(s[1])] + FromLowerHex(s[2..])
  }

  /** Hex rendering loses nothing: reading it back gives the bytes. */
  lemma {:induction false} FromLowerHexInverse(bytes: seq<u8>)
    ensures FromLowerHex(LowerHex(bytes)) == bytes
  {
    if bytes != [] {
      var s := LowerHex(bytes);
      assert s == Hex2(bytes[0]) + LowerHex(bytes[1..]);
      assert s[2..] == LowerHex(bytes[1..]);
      FromLowerHexInverse(bytes[1..]);
      var b := bytes[0];
      assert HexDigitValue(s[0]) == b / 16 && HexDigitValue(s[1]) == b % 16;
    }
  }

  /** `format!("{:04x}", v)`: four lower-case digits, zero padded. */
  function Hex4(v: u16): (r: string)
    ensures |r| == 4 && IsLowerHex(r)
  {
    [HexDigit(v / 16 / 16 / 16), HexDigit(v / 16 / 16 % 16), HexDigit(v / 16 % 16), HexDigit(v % 16)]
  }

  // ---------------------------------------------------------------------
  // The order of `String` and `sort_unstable`
  // ---------------------------------------------------------------------

  /** Lexicographic order, a proper prefix first (Rust's `Ord` on `String`). */
  predicate LexLe(a: string, b: string)
    decreases |a|
  {
    a == [] || (b != [] && (a[0] < b[0] || (a[0] == b[0] && LexLe(a[1..], b[1..]))))
  }

  lemma {:induction false} LexLeTotal(a: string, b: string)
    ensures LexLe(a, b) || LexLe(b, a)
    decreases |a|
  {
    if a != [] && b != [] && a[0] == b[0] {
      LexLeTotal(a[1..], b[1..]);
    }
  }

  lemma {:induction false} LexLeTransitive(a: string, b: string, c: string)
    requires LexLe(a, b) && LexLe(b, c)
    ensures LexLe(a, c)
    decreases |a|
  {
    if a != [] && a[0] == b[0] && b[0] == c[0] {
      LexLeTransitive(a[1..], b[1..], c[1..]);
    }
  }

  lemma {:induction false} LexLeAntisymmetric(a: string, b: string)
    requires LexLe(a, b) && LexLe(b, a)
    ensures a == b
    decreases |a|
  {
    if a != [] {
      LexLeAntisymmetric(a[1..], b[1..]);
      assert a == [a[0]] + a[1..] && b == [b[0]] + b[1..];
    }
  }

  /** Lexicographic order of two four-character strings, position by position. */
  lemma LexLeFour(x: string, y: string)
    requires |x| == 4 && |y| == 4
    ensures LexLe(x, y) <==>
      x[0] < y[0] || (x[0] == y[0] && (x[1] < y[1] || (x[1] == y[1] &&
        (x[2] < y[2] || (x[2] == y[2] && x[3] <= y[3])))))
  {
    var x1, y1 := x[1..], y[1..];
    var x2, y2 := x1[1..], y1[1..];
    var x3, y3 := x2[1..], y2[1..];
    assert x3[1..] == [] && y3[1..] == [];
    assert LexLe(x3, y3) <==> x[3] <= y[3];
    assert LexLe(x2, y2) <==> x[2] < y[2] || (x[2] == y[2] && LexLe(x3, y3));
    assert LexLe(x1, y1) <==> x[1] < y[1] || (x[1] == y[1] && LexLe(x2, y2));
  }

  /** A 16-bit value is compared digit by digit in base 16. */
  lemma BaseSixteenOrder(a3: nat, a2: nat, a1: nat, a0: nat, b3: nat, b2: nat, b1: nat, b0: nat)
    requires a3 < 16 && a2 < 16 && a1 < 16 && a0 < 16
    requires b3 < 16 && b2 < 16 && b1 < 16 && b0 < 16
    ensures 0x1000 * a3 + 0x100 * a2 + 16 * a1 + a0 <= 0x1000 * b3 + 0x100 * b2 + 16 * b1 + b0 <==>
      a3 < b3 || (a3 == b3 && (a2 < b2 || (a2 == b2 && (a1 < b1 || (a1 == b1 && a0 <= b0)))))
  {
  }

  /**
   * For four-digit hex renderings, string order is numeric order; so sorting
   * the rendered strings sorts the values.
   */
  lemma Hex4Order(a: u16, b: u16)
    ensures LexLe(Hex4(a), Hex4(b)) <==> a <= b
  {
    var a3, a2, a1, a0 := a / 16 / 16 / 16, a / 16 / 16 % 16, a / 16 % 16, a % 16;
    var b3, b2, b1, b0 := b / 16 / 16 / 16, b / 16 / 16 % 16, b / 16 % 16, b % 16;
    assert a == 16 * (16 * (16 * a3 + a2) + a1) + a0;
    assert b == 16 * (16 * (16 * b3 + b2) + b1) + b0;
    HexDigitOrder(a3, b3); HexDigitOrder(b3, a3);
    HexDigitOrder(a2, b2); HexDigitOrder(b2, a2);
    HexDigitOrder(a1, b1); HexDigitOrder(b1, a1);
    HexDigitOrder(a0, b0);
    LexLeFour(Hex4(a), Hex4(b));
    BaseSixteenOrder(a3, a2, a1, a0, b3, b2, b1, b0);
  }

  predicate SortedLex(s: seq<string>)
  {
    forall i, j :: 0 <= i < j < |s| ==> LexLe(s[i], s[j])
  }

  function InsertLex(x: string, s: seq<string>): seq<string>
  {
    if s == [] then [x]
    else if LexLe(x, s[0]) then [x] + s
    else [s[0]] + InsertLex(x, s[1..])
  }

  /**
   * `v.sort_unstable()` on strings. Equal strings are indistinguishable, so
   * every correct sort, stable or not, yields this same sequence.
   */
  function SortLex(s: seq<string>): seq<string>
  {
    if s == [] then [] else InsertLex(s[0], SortLex(s[1..]))
  }

  lemma {:induction false} InsertLexMultiset(x: string, s: seq<string>)
    ensures multiset(InsertLex(x, s)) == multiset(s) + multiset{x}
    decreases |s|
  {
    if s != [] && !LexLe(x, s[0]) {
      InsertLexMultiset(x, s[1..]);
      assert s == [s[0]] + s[1..];
    }
  }

  /** Every element of s[1..] is at least s[0] when s is sorted. */
  lemma SortedHead(s: seq<string>, y: string)
    requires SortedLex(s) && s != [] && y in multiset(s[1..])
    ensures LexLe(s[0], y)
  {
    var k :| 0 <= k < |s[1..]| && s[1..][k] == y;
    assert s[k + 1] == y;
  }

  lemma {:induction false} InsertLexSorted(x: string, s: seq<string>)
    requires SortedLex(s)
    ensures SortedLex(InsertLex(x, s))
    decreases |s|
  {
    if s != [] {
      if LexLe(x, s[0]) {
        InsertBeforeHead(x, s);
      } else {
        LexLeTotal(x, s[0]);
        InsertLexSorted(x, s[1..]);
        InsertLexMultiset(x, s[1..]);
        var t := InsertLex(x, s[1..]);
        forall y | y in multiset(t) ensures LexLe(s[0], y) {
          if y != x { SortedHead(s, y); }
        }
        ConsSorted(s[0], t);
      }
    }
  }

  lemma InsertBeforeHead(x: string, s: seq<string>)
    requires SortedLex(s) && s != [] && LexLe(x, s[0])
    ensures SortedLex([x] + s)
  {
    var r := [x] + s;
    forall i, j | 0 <= i < j < |r| ensures LexLe(r[i], r[j]) {
      if i == 0 {
        if j > 1 { LexLeTransitive(x, s[0], s[j - 1]); }
      } else {
        assert r[i] == s[i - 1] && r[j] == s[j - 1];
      }
    }
  }

  lemma ConsSorted(h: string, t: seq<string>)
    requires SortedLex(t)
    requires forall y :: y in multiset(t) ==> LexLe(h, y)
    ensures SortedLex([h] + t)
  {
    var r := [h] + t;
    forall i, j | 0 <= i < j < |r| ensures LexLe(r[i], r[j]) {
      if i == 0 {
        assert r[j] == t[j - 1] && t[j - 1] in multiset(t);
      } else {
        assert r[i] == t[i - 1] && r[j] == t[j - 1];
      }
    }
  }

  /** The sorted list is ordered and holds exactly the input's strings. */
  lemma {:induction false} SortLexSpec(s: seq<string>)
    ensures SortedLex(SortLex(s))
    ensures multiset(SortLex(s)) == multiset(s)
  {
    if s != [] {
      SortLexSpec(s[1..]);
      InsertLexSorted(s[0], SortLex(s[1..]));
      InsertLexMultiset(s[0], SortLex(s[1..]));
      assert s == [s[0]] + s[1..];
    }
  }

  // ---------------------------------------------------------------------
  // Sorting four-digit hex renderings
  // ---------------------------------------------------------------------

  /** `format!("{:04x}", ..)` over a list. */
  function HexList(vs: seq<u16>): (r: seq<string>)
    ensures |r| == |vs|
    ensures forall i :: 0 <= i < |vs| ==> r[i] == Hex4(vs[i])
  {
    if vs == [] then [] else [Hex4(vs[0])] + HexList(vs[1..])
  }

  predicate SortedNum(s: seq<u16>)
  {
    forall i, j :: 0 <= i < j < |s| ==> s[i] <= s[j]
  }

  /** Numeric insertion sort, the reference the hex sort is compared with. */
  function InsertNum(x: u16, s: seq<u16>): seq<u16>
  {
    if s == [] then [x]
    else if x <= s[0] then [x] + s
    else [s[0]] + InsertNum(x, s[1..])
  }

  function SortNum(s: seq<u16>): seq<u16>
  {
    if s == [] then [] else InsertNum(s[0], SortNum(s[1..]))
  }

  lemma {:induction false} InsertNumMultiset(x: u16, s: seq<u16>)
    ensures multiset(InsertNum(x, s)) == multiset(s) + multiset{x}
    decreases |s|
  {
    if s != [] && x > s[0] {
      InsertNumMultiset(x, s[1..]);
      assert s == [s[0]] + s[1..];
    }
  }

  lemma {:induction false} SortNumMultiset(s: seq<u16>)
    ensures multiset(SortNum(s)) == multiset(s)
  {
    if s != [] {
      SortNumMultiset(s[1..]);
      InsertNumMultiset(s[0], SortNum(s[1..]));
      assert s == [s[0]] + s[1..];
    }
  }

  /** Inserting a rendering into rendered values renders the numeric insertion. */
  lemma {:induction false} InsertCommutes(x: u16, s: seq<u16>)
    ensures InsertLex(Hex4(x), HexList(s)) == HexList(InsertNum(x, s))
    decreases |s|
  {
    if s != [] {
      Hex4Order(x, s[0]);
      assert HexList(s)[1..] == HexList(s[1..]);
      if x > s[0] {
        InsertCommutes(x, s[1..]);
      }
    }
  }

  /** Sorting the renderings as strings renders the numeric sort. */
  lemma {:induction false} SortCommutes(s: seq<u16>)
    ensures SortLex(HexList(s)) == HexList(SortNum(s))
  {
    if s != [] {
      assert HexList(s)[1..] == HexList(s[1..]);
      SortCommutes(s[1..]);
      InsertCommutes(s[0], SortNum(s[1..]));
    }
  }

  /** Rendered values in string order are in numeric order. */
  lemma SortedLexNum(s: seq<u16>)
    requires SortedLex(HexList(s))
    ensures SortedNum(s)
  {
    forall i, j | 0 <= i < j < |s| ensures s[i] <= s[j] {
      Hex4Order(s[i], s[j]);
    }
  }

  /**
   * `sort_unstable` on the `{:04x}` renderings of some values gives the
   * renderings of those same values in ascending numeric order.
   */
  lemma HexSortNumeric(vs: seq<u16>)
    ensures SortLex(HexList(vs)) == HexList(SortNum(vs))
    ensures SortedNum(SortNum(vs))
    ensures multiset(SortNum(vs)) == multiset(vs)
  {
    SortCommutes(vs);
    SortLexSpec(HexList(vs));
    SortedLexNum(SortNum(vs));
    SortNumMultiset(vs);
  }
}
