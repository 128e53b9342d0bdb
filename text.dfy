/** String operations of the Python runtime that the two tools rely on:
    `str.strip()`, `str.lower()`, `str.startswith`, code-point ordering of
    `str`, decimal formatting of `int`, right alignment (`:>16`) and the
    `repr` of a list of strings. */
module Text {

  /** Python's `str.isspace()`: the characters `str.strip()` removes. */
  predicate IsSpace(c: char) {
    var n := c as int;
    (9 <= n <= 13) || (28 <= n <= 32) || n == 0x85 || n == 0xA0 || n == 0x1680
    || (0x2000 <= n <= 0x200A) || n == 0x2028 || n == 0x2029 || n == 0x202F
    || n == 0x205F || n == 0x3000
  }

  /** Every character of `s` is whitespace (vacuously true of ""). */
  predicate AllSpace(s: string) {
    forall k :: 0 <= k < |s| ==> IsSpace(s[k])
  }

  /** `s.lstrip()`: whitespace removed from the front of `s`. */
  function TrimLeft(s: string): (r: string)
    ensures |r| <= |s|
  {
    if s != [] && IsSpace(s[0]) then TrimLeft(s[1..]) else s
  }

  /** `s.lstrip()` is the longest suffix of `s` that does not start with
      whitespace: what it removes is all whitespace. */
  lemma {:induction false} TrimLeftSpec(s: string)
    ensures TrimLeft(s) == s[|s| - |TrimLeft(s)|..]
    ensures TrimLeft(s) == [] || !IsSpace(TrimLeft(s)[0])
    ensures AllSpace(s[..|s| - |TrimLeft(s)|])
  {
    if s != [] && IsSpace(s[0]) {
      TrimLeftSpec(s[1..]);
      assert s[1..][..|s| - 1 - |TrimLeft(s)|] == s[1..|s| - |TrimLeft(s)|];
    }
  }

  /** `s.rstrip()`: whitespace removed from the back of `s`. */
  function TrimRight(s: string): (r: string)
    ensures |r| <= |s|
  {
    if s != [] && IsSpace(s[|s| - 1]) then TrimRight(s[..|s| - 1]) else s
  }

  /** `s.rstrip()` is the longest prefix of `s` that does not end with
      whitespace: what it removes is all whitespace. */
  lemma {:induction false} TrimRightSpec(s: string)
    ensures TrimRight(s) == s[..|TrimRight(s)|]
    ensures TrimRight(s) == [] || !IsSpace(TrimRight(s)[|TrimRight(s)| - 1])
    ensures AllSpace(s[|TrimRight(s)|..])
  {
    if s != [] && IsSpace(s[|s| - 1]) {
      TrimRightSpec(s[..|s| - 1]);
      assert s[..|s| - 1][|TrimRight(s)|..] == s[|TrimRight(s)|..|s| - 1];
    }
  }

  /** `s.strip()`: whitespace removed from both ends of `s`. */
  function Strip(s: string): (r: string)
    ensures |r| <= |s|
  {
    TrimRight(TrimLeft(s))
  }

  /** `s.strip()` is blank exactly when `s` is all whitespace, and never
      starts or ends with whitespace. */
  lemma StripSpec(s: string)
    ensures Strip(s) == [] <==> AllSpace(s)
    ensures Strip(s) == [] || (!IsSpace(Strip(s)[0]) && !IsSpace(Strip(s)[|Strip(s)| - 1]))
  {
    var l := TrimLeft(s);
    var r := TrimRight(l);
    TrimLeftSpec(s);
    TrimRightSpec(l);
    if r == [] {
      assert l == [];
      assert s[..|s|] == s;
    } else {
      assert r[0] == l[0];
    }
  }

  /** `s.startswith(p)`. */
  predicate StartsWith(s: string, p: string) {
    |p| <= |s| && s[..|p|] == p
  }

  /** `c.lower()` on the ASCII range. */
  function LowerChar(c: char): (d: char)
    ensures !('A' <= d <= 'Z')
    ensures c == d || ('A' <= c <= 'Z' && d as int == c as int + 32)
  {
    if 'A' <= c <= 'Z' then (c as int + 32) as char else c
  }

  /** `s.lower()` on the ASCII range. */
  function Lower(s: string): (r: string)
    ensures |r| == |s|
  {
    seq(|s|, k requires 0 <= k < |s| => LowerChar(s[k]))
  }

  /** `s.lower()` leaves no upper-case letter and changes nothing else, and
      applying it twice is the same as applying it once. */
  lemma LowerSpec(s: string)
    ensures forall k :: 0 <= k < |s| ==> !('A' <= Lower(s)[k] <= 'Z')
    ensures forall k :: 0 <= k < |s| && !('A' <= s[k] <= 'Z') ==> Lower(s)[k] == s[k]
    ensures Lower(Lower(s)) == Lower(s)
  {
  }

  lemma LowerConcat(a: string, b: string)
    ensures Lower(a + b) == Lower(a) + Lower(b)
  {
  }

  /** Python's `<=` on `str`: lexicographic by code point, a proper prefix first. */
  predicate StrLe(a: string, b: string)
    decreases |a|
  {
    a == [] || (b != [] && (a[0] < b[0] || (a[0] == b[0] && StrLe(a[1..], b[1..]))))
  }

  lemma {:induction false} StrLeRefl(a: string)
    ensures StrLe(a, a)
    decreases |a|
  {
    if a != [] { StrLeRefl(a[1..]); }
  }

  lemma {:induction false} StrLeTotal(a: string, b: string)
    ensures StrLe(a, b) || StrLe(b, a)
    decreases |a|
  {
    if a != [] && b != [] && a[0] == b[0] { StrLeTotal(a[1..], b[1..]); }
  }

  lemma {:induction false} StrLeAntisymmetric(a: string, b: string)
    requires StrLe(a, b) && StrLe(b, a)
    ensures a == b
    decreases |a|
  {
    if a != [] {
      StrLeAntisymmetric(a[1..], b[1..]);
      assert a == [a[0]] + a[1..] && b == [b[0]] + b[1..];
    }
  }

  lemma {:induction false} StrLeTransitive(a: string, b: string, c: string)
    requires StrLe(a, b) && StrLe(b, c)
    ensures StrLe(a, c)
    decreases |a|
  {
    if a != [] && a[0] == b[0] && b[0] == c[0] {
      StrLeTransitive(a[1..], b[1..], c[1..]);
    }
  }

  /** The decimal digit of `d`. */
  function Digit(d: nat): (c: char)
    requires d < 10
    ensures '0' <= c <= '9'
  {
    ('0' as int + d) as char
  }

  /** `str(n)` for a natural number. */
  function NatToString(n: nat): (s: string)
    ensures s != []
  {
    if n < 10 then [Digit(n)] else NatToString(n / 10) + [Digit(n % 10)]
  }

  /** `str(n)` is made of decimal digits only. */
  lemma {:induction false} NatToStringDigits(n: nat)
    ensures forall k :: 0 <= k < |NatToString(n)| ==> '0' <= NatToString(n)[k] <= '9'
  {
    if n >= 10 {
      NatToStringDigits(n / 10);
    }
  }

  /** The number a string of decimal digits spells, read left to right. */
  function DecimalValue(s: string): int {
    if s == [] then 0
    else DecimalValue(s[..|s| - 1]) * 10 + (s[|s| - 1] as int - '0' as int)
  }

  /** `str(n)` spells `n` in decimal, with a leading zero only for `n == 0`. */
  lemma {:induction false} NatToStringValue(n: nat)
    ensures DecimalValue(NatToString(n)) == n
    ensures NatToString(n)[0] == '0' <==> n == 0
  {
    if n >= 10 {
      var p := NatToString(n / 10);
      NatToStringValue(n / 10);
      assert (p + [Digit(n % 10)])[..|p|] == p;
    }
  }

  /** `n` spaces. */
  function Spaces(n: nat): (s: string)
    ensures |s| == n
  {
    seq(n, k => ' ')
  }

  /** `f"{s:>w}"`: `s` right-aligned in a field of width `w`. */
  function PadLeft(s: string, w: nat): string {
    if |s| < w then Spaces(w - |s|) + s else s
  }

  /** Right alignment fills the field with spaces in front of `s` and never
      truncates a value wider than the field. */
  lemma PadLeftSpec(s: string, w: nat)
    ensures |PadLeft(s, w)| == if |s| < w then w else |s|
    ensures PadLeft(s, w)[|PadLeft(s, w)| - |s|..] == s
    ensures AllSpaceChars(PadLeft(s, w)[..|PadLeft(s, w)| - |s|])
  {
    if |s| < w {
      assert PadLeft(s, w)[..w - |s|] == Spaces(w - |s|);
    }
  }

  /** Every character of `s` is the space character. */
  predicate AllSpaceChars(s: string) {
    forall k :: 0 <= k < |s| ==> s[k] == ' '
  }

  /** The elements of a Python list of `str` as `repr` lists them, without the brackets. */
  function QuotedItems(xs: seq<string>): string
  {
    if xs == [] then ""
    else if |xs| == 1 then "'" + xs[0] + "'"
    else "'" + xs[0] + "', " + QuotedItems(xs[1..])
  }

  /** `str(xs)` for a Python list of `str`, e.g. `['a', 'b']`. */
  function ListRepr(xs: seq<string>): string {
    "[" + QuotedItems(xs) + "]"
  }

  /** The `repr` of a list is bracketed, and the empty list is `[]`. */
  lemma ListReprShape(xs: seq<string>)
    ensures |ListRepr(xs)| >= 2 && ListRepr(xs)[0] == '[' && ListRepr(xs)[|ListRepr(xs)| - 1] == ']'
    ensures ListRepr(xs) == "[]" <==> xs == []
  {
    if xs != [] {
      assert |QuotedItems(xs)| >= 2;
      assert |ListRepr(xs)| > 2;
    }
  }

  /** The string has no single quote, so `repr` prints it as it is between quotes. */
  predicate NoQuote(s: string) {
    forall k :: 0 <= k < |s| ==> s[k] != '\''
  }

  /** The first item of a non-empty list, between quotes, opens its `repr`;
      a comma follows exactly when more items follow. */
  lemma QuotedHead(xs: seq<string>)
    requires xs != []
    ensures var q, x := QuotedItems(xs), xs[0];
      && |q| >= |x| + 2 && q[0] == '\'' && q[1..|x| + 1] == x && q[|x| + 1] == '\''
      && (|xs| == 1 <==> |q| == |x| + 2)
      && (|xs| > 1 ==> q[|x| + 2..] == ", " + QuotedItems(xs[1..]))
  {
    var q, x := QuotedItems(xs), xs[0];
    if |xs| > 1 {
      assert q == "'" + x + "'" + (", " + QuotedItems(xs[1..]));
    }
  }

  /** Lists whose items contain no single quote print the same only when
      they are the same list. */
  lemma {:induction false} QuotedItemsInjective(xs: seq<string>, ys: seq<string>)
    requires forall i :: 0 <= i < |xs| ==> NoQuote(xs[i])
    requires forall i :: 0 <= i < |ys| ==> NoQuote(ys[i])
    requires QuotedItems(xs) == QuotedItems(ys)
    ensures xs == ys
    decreases |xs|
  {
    if xs == [] || ys == [] {
      if xs != [] { QuotedHead(xs); }
      if ys != [] { QuotedHead(ys); }
    } else {
      var q, x, y := QuotedItems(xs), xs[0], ys[0];
      QuotedHead(xs);
      QuotedHead(ys);
      assert NoQuote(x) && NoQuote(y);
      if |x| != |y| {
        assert false;
      }
      assert x == y;
      if |xs| > 1 && |ys| > 1 {
        assert (", " + QuotedItems(xs[1..]))[2..] == QuotedItems(xs[1..]);
        assert (", " + QuotedItems(ys[1..]))[2..] == QuotedItems(ys[1..]);
        QuotedItemsInjective(xs[1..], ys[1..]);
        assert xs == [x] + xs[1..] && ys == [y] + ys[1..];
      } else {
        assert |xs| == 1 && |ys| == 1;
      }
    }
  }

  /** `str(xs)` determines `xs` when no item contains a single quote, so a
      log line names exactly the answers that were compared. */
  lemma ListReprInjective(xs: seq<string>, ys: seq<string>)
    requires forall i :: 0 <= i < |xs| ==> NoQuote(xs[i])
    requires forall i :: 0 <= i < |ys| ==> NoQuote(ys[i])
    ensures ListRepr(xs) == ListRepr(ys) <==> xs == ys
  {
    if ListRepr(xs) == ListRepr(ys) {
      var r := ListRepr(xs);
      assert r[1..|r| - 1] == QuotedItems(xs);
      assert ListRepr(ys)[1..|r| - 1] == QuotedItems(ys);
      QuotedItemsInjective(xs, ys);
    }
  }

  /** `str(["a", "b"])` is `['a', 'b']`. */
  lemma ListReprExample()
    ensures ListRepr(["a", "b"]) == "['a', 'b']"
  {
    assert ["a", "b"][1..] == ["b"];
  }
}
