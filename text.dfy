/**
 * The Kotlin string primitives the widget serialiser and the date helpers
 * rely on: decimal text of numbers and its parsers (`toString`,
 * `toLongOrNull`, `toFloatOrNull`, `toBooleanStrictOrNull`), `split`,
 * `lines`, `joinToString`, `isBlank`, and `String.compareTo`.
 */
module Text {
  import opened Wrappers

  predicate IsDigit(c: char) {
    '0' <= c <= '9'
  }

  predicate AllDigits(s: string) {
    forall i :: 0 <= i < |s| ==> IsDigit(s[i])
  }

  function DigitValue(c: char): (d: int)
    requires IsDigit(c)
    ensures 0 <= d <= 9
  {
    c as int - '0' as int
  }

  function DigitChar(d: int): (c: char)
    requires 0 <= d <= 9
    ensures IsDigit(c) && DigitValue(c) == d
  {
    (d + '0' as int) as char
  }

  function Pow10(w: nat): (p: nat)
    ensures p >= 1
  {
    if w == 0 then 1 else 10 * Pow10(w - 1)
  }

  /** The `width` lowest decimal digits of n, zero-padded on the left. */
  function PadDigits(n: nat, width: nat): (s: string)
    ensures |s| == width && AllDigits(s)
  {
    if width == 0 then "" else PadDigits(n / 10, width - 1) + [DigitChar(n % 10)]
  }

  /** The number a string of decimal digits denotes (leading zeros allowed). */
  function DigitsValue(s: string): (n: nat)
    requires AllDigits(s)
    ensures n < Pow10(|s|)
  {
    if s == [] then 0
    else
      var v := DigitsValue(s[..|s| - 1]);
      assert v + 1 <= Pow10(|s| - 1);
      10 * v + DigitValue(s[|s| - 1])
  }

  lemma {:induction false} DigitsValueSnoc(s: string, c: char)
    requires AllDigits(s) && IsDigit(c)
    ensures AllDigits(s + [c]) && DigitsValue(s + [c]) == 10 * DigitsValue(s) + DigitValue(c)
  {
    assert (s + [c])[..|s|] == s;
  }

  /** Padding then reading back gives the number, when it fits in the width. */
  lemma {:induction false} PadDigitsValue(n: nat, width: nat)
    requires n < Pow10(width)
    ensures DigitsValue(PadDigits(n, width)) == n
  {
    if width > 0 {
      PadDigitsValue(n / 10, width - 1);
      DigitsValueSnoc(PadDigits(n / 10, width - 1), DigitChar(n % 10));
    }
  }

  /** Splitting off the last decimal digit. */
  lemma DivMod10(w: int, d: int)
    requires 0 <= d <= 9
    ensures (10 * w + d) / 10 == w && (10 * w + d) % 10 == d
  {
  }

  /** Reading then padding to the same width gives the digit string back. */
  lemma {:induction false} DigitsValuePad(s: string)
    requires AllDigits(s)
    ensures PadDigits(DigitsValue(s), |s|) == s
  {
    if s != [] {
      var init, c := s[..|s| - 1], s[|s| - 1];
      DigitsValuePad(init);
      var w, d := DigitsValue(init), DigitValue(c);
      assert DigitsValue(s) == 10 * w + d;
      DivMod10(w, d);
      assert PadDigits(DigitsValue(s), |s|) == PadDigits(w, |init|) + [DigitChar(d)];
      assert DigitChar(d) == c;
      assert s == init + [c];
    }
  }

  /** Shortest decimal text of a natural number: `toString()`. */
  function NatText(n: nat): (s: string)
    ensures |s| >= 1 && AllDigits(s) && DigitsValue(s) == n
  {
    if n < 10 then [DigitChar(n)]
    else
      var init := NatText(n / 10);
      DigitsValueSnoc(init, DigitChar(n % 10));
      init + [DigitChar(n % 10)]
  }

  /** `Long.toString()`. */
  function LongText(n: int): (s: string)
    ensures |s| >= 1 && (s[0] == '-' || IsDigit(s[0]))
    ensures forall i :: 0 <= i < |s| ==> s[i] == '-' || IsDigit(s[i])
    ensures n >= 0 ==> AllDigits(s) && DigitsValue(s) == n
    ensures n < 0 ==> |s| >= 2 && s[0] == '-' && AllDigits(s[1..]) && DigitsValue(s[1..]) == -n
  {
    if n < 0 then "-" + NatText(-n) else NatText(n)
  }

  const MinLong: int := -0x8000_0000_0000_0000
  const MaxLong: int := 0x7FFF_FFFF_FFFF_FFFF

  /** n fits a Kotlin `Long`. */
  predicate IsLong(n: int) {
    MinLong <= n <= MaxLong
  }

  /** An optional `+` or `-` followed by one or more decimal digits. */
  function ParseSignedDigits(s: string): (r: Option<int>)
    ensures r.Some? ==> |s| >= 1
    ensures |s| >= 1 && AllDigits(s) ==> r == Some(DigitsValue(s))
    ensures |s| >= 2 && s[0] == '+' && AllDigits(s[1..]) ==> r == Some(DigitsValue(s[1..]))
    ensures |s| >= 2 && s[0] == '-' && AllDigits(s[1..]) ==> r == Some(-(DigitsValue(s[1..]) as int))
    ensures r.Some? ==> (AllDigits(s) || (|s| >= 2 && (s[0] == '+' || s[0] == '-') && AllDigits(s[1..])))
  {
    if |s| == 0 then None
    else
      var body := if s[0] == '-' || s[0] == '+' then s[1..] else s;
      if |body| == 0 || !AllDigits(body) then None
      else
        var v: int := DigitsValue(body);
        Some(if s[0] == '-' then -v else v)
  }

  /** `String.toLongOrNull()`: null (None) unless the text is a signed decimal within Long range. */
  function ParseLong(s: string): (r: Option<int>)
    ensures r.Some? ==> IsLong(r.value)
    ensures s == [] ==> r == None
    ensures r.Some? <==> ParseSignedDigits(s).Some? && IsLong(ParseSignedDigits(s).value)
    ensures r.Some? ==> r == ParseSignedDigits(s)
  {
    var v := ParseSignedDigits(s);
    if v.Some? && IsLong(v.value) then v else None
  }

  /** Every Long survives `toString()` followed by `toLongOrNull()`. */
  lemma LongRoundTrip(n: int)
    requires IsLong(n)
    ensures ParseLong(LongText(n)) == Some(n)
  {
    if n < 0 {
      assert ("-" + NatText(-n))[1..] == NatText(-n);
    }
  }

  /** Position of the first c in s, or |s| when there is none. */
  function IndexOf(s: string, c: char): (i: nat)
    ensures i <= |s|
    ensures i < |s| ==> s[i] == c
    ensures forall j :: 0 <= j < i ==> s[j] != c
  {
    if s == [] then 0
    else if s[0] == c then 0
    else 1 + IndexOf(s[1..], c)
  }

  /** `Float.toString()` of a whole number: its decimal digits and ".0". */
  function NumberText(n: int): (s: string)
    ensures |s| >= 3 && s[|s| - 2..] == ".0"
    ensures IndexOf(s, '.') == |s| - 2 && s[..|s| - 2] == LongText(n)
  {
    var t := LongText(n);
    var s := t + ".0";
    assert forall j :: 0 <= j < |t| ==> s[j] == t[j] && s[j] != '.';
    assert s[|t|] == '.';
    assert s[..|t|] == t;
    s
  }

  predicate AllZeros(s: string) {
    forall i :: 0 <= i < |s| ==> s[i] == '0'
  }

  /**
   * `String.toFloatOrNull()` on the texts of whole numbers: an optional
   * sign, one or more digits, and optionally a point followed only by zeros.
   */
  function ParseNumber(s: string): (r: Option<int>)
    ensures r.Some? ==> |s| >= 1
    ensures '.' !in s ==> r == ParseSignedDigits(s)
    ensures '.' in s ==> var d := IndexOf(s, '.');
      && (r.Some? <==> ParseSignedDigits(s[..d]).Some? && AllZeros(s[d + 1..]))
      && (r.Some? ==> r == ParseSignedDigits(s[..d]))
  {
    var d := IndexOf(s, '.');
    assert d == |s| ==> s[..d] == s;
    if d < |s| && !AllZeros(s[d + 1..]) then None
    else ParseSignedDigits(s[..d])
  }

  lemma NumberRoundTrip(n: int)
    ensures ParseNumber(NumberText(n)) == Some(n)
  {
    var s := NumberText(n);
    var t := LongText(n);
    assert s == t + ".0";
    assert IndexOf(s, '.') == |t| by {
      assert forall j :: 0 <= j < |t| ==> s[j] == t[j];
      assert s[|t|] == '.';
    }
    assert s[..|t|] == t;
    if n < 0 {
      assert ("-" + NatText(-n))[1..] == NatText(-n);
    }
  }

  /** `Boolean.toString()`. */
  function BoolText(b: bool): (s: string)
    ensures s == "true" || s == "false"
    ensures s == "true" <==> b
  {
    if b then "true" else "false"
  }

  /** `String.toBooleanStrictOrNull()`: exactly "true" or "false". */
  function ParseBool(s: string): (r: Option<bool>)
    ensures r.Some? <==> s == "true" || s == "false"
    ensures r.Some? ==> (r.value <==> s == "true")
  {
    if s == "true" then Some(true) else if s == "false" then Some(false) else None
  }

  lemma BoolRoundTrip(b: bool)
    ensures ParseBool(BoolText(b)) == Some(b)
  {
  }

  /** `s.split(sep)` for a one-character delimiter; always at least one part. */
  function Split(s: string, sep: char): (r: seq<string>)
    ensures |r| >= 1
    ensures forall i :: 0 <= i < |r| ==> sep !in r[i]
  {
    if s == [] then [""]
    else
      var rest := Split(s[1..], sep);
      if s[0] == sep then [""] + rest
      else
        var r := [[s[0]] + rest[0]] + rest[1..];
        assert forall i :: 1 <= i < |r| ==> r[i] == rest[i];
        r
  }

  /** Joining the parts of a split at the same delimiter gives the text back. */
  lemma {:induction false} JoinSplit(s: string, sep: char)
    ensures Join(Split(s, sep), sep) == s
  {
    if s != [] {
      var rest := Split(s[1..], sep);
      JoinSplit(s[1..], sep);
      assert s == [s[0]] + s[1..];
      if s[0] == sep {
        JoinCons("", rest, sep);
      } else {
        JoinConsHead(s[0], rest, sep);
      }
    }
  }

  lemma JoinCons(a: string, parts: seq<string>, sep: char)
    requires |parts| >= 1
    ensures Join([a] + parts, sep) == a + [sep] + Join(parts, sep)
  {
    assert ([a] + parts)[1..] == parts;
  }

  lemma JoinConsHead(c: char, parts: seq<string>, sep: char)
    requires |parts| >= 1
    ensures Join([[c] + parts[0]] + parts[1..], sep) == [c] + Join(parts, sep)
  {
    if |parts| > 1 {
      JoinCons([c] + parts[0], parts[1..], sep);
    }
  }

  /** `parts.joinToString(sep)`. */
  function Join(parts: seq<string>, sep: char): (s: string)
    ensures parts == [] ==> s == ""
    ensures (forall i :: 0 <= i < |parts| ==> sep !in parts[i]) && |parts| >= 1 ==>
      multiset(s)[sep] == |parts| - 1
  {
    if |parts| == 0 then ""
    else if |parts| == 1 then parts[0]
    else
      var tail := Join(parts[1..], sep);
      assert forall i :: 1 <= i < |parts| ==> parts[1..][i - 1] == parts[i];
      assert multiset(parts[0] + [sep] + tail) == multiset(parts[0]) + multiset{sep} + multiset(tail);
      parts[0] + [sep] + tail
  }

  /** Splitting at a delimiter splits the two sides independently. */
  lemma {:induction false} SplitConcat(a: string, b: string, sep: char)
    ensures Split(a + [sep] + b, sep) == Split(a, sep) + Split(b, sep)
  {
    if a == [] {
      assert a + [sep] + b == [sep] + b;
      assert ([sep] + b)[1..] == b;
    } else {
      assert (a + [sep] + b)[1..] == a[1..] + [sep] + b;
      SplitConcat(a[1..], b, sep);
    }
  }

  lemma {:induction false} SplitNoSep(a: string, sep: char)
    requires sep !in a
    ensures Split(a, sep) == [a]
  {
    if a != [] {
      SplitNoSep(a[1..], sep);
      assert a == [a[0]] + a[1..];
    }
  }

  /** Parts free of the delimiter come back from `split` unchanged. */
  lemma {:induction false} SplitJoin(parts: seq<string>, sep: char)
    requires |parts| >= 1
    requires forall i :: 0 <= i < |parts| ==> sep !in parts[i]
    ensures Split(Join(parts, sep), sep) == parts
  {
    SplitNoSep(parts[0], sep);
    if |parts| > 1 {
      SplitJoin(parts[1..], sep);
      SplitConcat(parts[0], Join(parts[1..], sep), sep);
      assert parts == [parts[0]] + parts[1..];
    }
  }

  predicate IsLineBreak(c: char) {
    c == '\n' || c == '\r'
  }

  predicate NoLineBreak(s: string) {
    forall i :: 0 <= i < |s| ==> !IsLineBreak(s[i])
  }

  /** `s.lines()`: split at "\r\n", "\n" and "\r"; always at least one line. */
  function Lines(s: string): (r: seq<string>)
    ensures |r| >= 1
    ensures forall i :: 0 <= i < |r| ==> NoLineBreak(r[i])
    decreases |s|
  {
    if s == [] then [""]
    else if s[0] == '\n' then [""] + Lines(s[1..])
    else if s[0] == '\r' then [""] + Lines(if |s| >= 2 && s[1] == '\n' then s[2..] else s[1..])
    else
      var rest := Lines(s[1..]);
      var r := [[s[0]] + rest[0]] + rest[1..];
      assert forall i :: 1 <= i < |r| ==> r[i] == rest[i];
      r
  }

  lemma {:induction false} LinesConcat(a: string, b: string)
    requires NoLineBreak(a)
    ensures Lines(a + "\n" + b) == [a] + Lines(b)
  {
    if a == [] {
      assert a + "\n" + b == "\n" + b;
      assert ("\n" + b)[1..] == b;
    } else {
      var s := a + "\n" + b;
      assert s[0] == a[0] && !IsLineBreak(a[0]);
      assert s[1..] == a[1..] + "\n" + b;
      LinesConcat(a[1..], b);
      assert Lines(s) == [[a[0]] + a[1..]] + Lines(b);
      assert a == [a[0]] + a[1..];
    }
  }

  lemma {:induction false} LinesNoBreak(a: string)
    requires NoLineBreak(a)
    ensures Lines(a) == [a]
  {
    if a != [] {
      LinesNoBreak(a[1..]);
      assert a == [a[0]] + a[1..];
    }
  }

  /** Lines free of line breaks come back from `lines()` unchanged. */
  lemma {:induction false} LinesJoin(ls: seq<string>)
    requires |ls| >= 1
    requires forall i :: 0 <= i < |ls| ==> NoLineBreak(ls[i])
    ensures Lines(Join(ls, '\n')) == ls
  {
    LinesNoBreak(ls[0]);
    if |ls| > 1 {
      LinesJoin(ls[1..]);
      LinesConcat(ls[0], Join(ls[1..], '\n'));
      assert ls == [ls[0]] + ls[1..];
    }
  }

  /** `Char.isWhitespace()`: Java whitespace or a Unicode space separator. */
  predicate IsWhitespace(c: char)
    ensures IsDigit(c) || c == '-' || c == '|' || c == '.' ==> !IsWhitespace(c)
  {
    || c == ' ' || c == '\t' || c == '\n' || c == '\U{000B}' || c == '\U{000C}' || c == '\r'
    || ('\U{001C}' <= c <= '\U{001F}')
    || c == '\U{00A0}' || c == '\U{1680}' || ('\U{2000}' <= c <= '\U{200A}')
    || c == '\U{2028}' || c == '\U{2029}' || c == '\U{202F}' || c == '\U{205F}' || c == '\U{3000}'
  }

  /** `s.isBlank()`: empty or whitespace only. */
  predicate IsBlank(s: string)
    ensures s == [] ==> IsBlank(s)
    ensures |s| >= 1 && (IsDigit(s[0]) || s[0] == '-') ==> !IsBlank(s)
  {
    forall i :: 0 <= i < |s| ==> IsWhitespace(s[i])
  }

  /** `a.compareTo(b) <= 0`: lexicographic order by character code. */
  predicate LexLe(a: string, b: string) {
    |a| == 0 || (|b| > 0 && (a[0] < b[0] || (a[0] == b[0] && LexLe(a[1..], b[1..]))))
  }

  lemma {:induction false} LexLeTotal(a: string, b: string)
    ensures LexLe(a, b) || LexLe(b, a)
  {
    if |a| > 0 && |b| > 0 && a[0] == b[0] {
      LexLeTotal(a[1..], b[1..]);
    }
  }

  lemma {:induction false} LexLeTransitive(a: string, b: string, c: string)
    requires LexLe(a, b) && LexLe(b, c)
    ensures LexLe(a, c)
  {
    if |a| > 0 && a[0] == b[0] && b[0] == c[0] {
      LexLeTransitive(a[1..], b[1..], c[1..]);
    }
  }

  lemma {:induction false} LexLeAntisymmetric(a: string, b: string)
    requires LexLe(a, b) && LexLe(b, a)
    ensures a == b
  {
    if |a| > 0 {
      LexLeAntisymmetric(a[1..], b[1..]);
      assert a == [a[0]] + a[1..] && b == [b[0]] + b[1..];
    }
  }

  /** Comparing equal-length prefixes first decides the order of concatenations. */
  lemma {:induction false} LexLeConcat(a: string, b: string, c: string, d: string)
    requires |a| == |b|
    ensures LexLe(a + c, b + d) <==> (a != b && LexLe(a, b)) || (a == b && LexLe(c, d))
  {
    if |a| == 0 {
      assert a + c == c && b + d == d;
    } else {
      assert (a + c)[1..] == a[1..] + c && (b + d)[1..] == b[1..] + d;
      LexLeConcat(a[1..], b[1..], c, d);
      assert a == [a[0]] + a[1..] && b == [b[0]] + b[1..];
    }
  }

  /** Numbers compare as their leading digits, then their last digits. */
  lemma DecimalOrder(x: nat, y: nat)
    ensures x <= y <==> x / 10 < y / 10 || (x / 10 == y / 10 && x % 10 <= y % 10)
  {
    assert x == 10 * (x / 10) + x % 10 && y == 10 * (y / 10) + y % 10;
  }

  lemma DropDigitBound(x: nat, w: nat)
    requires w > 0 && x < Pow10(w)
    ensures x / 10 < Pow10(w - 1)
  {
    assert Pow10(w) == 10 * Pow10(w - 1);
  }

  /** Zero-padded decimals of one width compare as the numbers do. */
  lemma {:induction false} PadDigitsOrder(x: nat, y: nat, w: nat)
    requires x < Pow10(w) && y < Pow10(w)
    ensures LexLe(PadDigits(x, w), PadDigits(y, w)) <==> x <= y
  {
    if w > 0 {
      var a, b := PadDigits(x / 10, w - 1), PadDigits(y / 10, w - 1);
      var cx, cy := DigitChar(x % 10), DigitChar(y % 10);
      DropDigitBound(x, w);
      DropDigitBound(y, w);
      PadDigitsOrder(x / 10, y / 10, w - 1);
      LexLeConcat(a, b, [cx], [cy]);
      PadDigitsValue(x / 10, w - 1);
      PadDigitsValue(y / 10, w - 1);
      assert a == b <==> x / 10 == y / 10;
      assert LexLe([cx], [cy]) <==> x % 10 <= y % 10 by {
        assert [cx][1..] == [] && [cy][1..] == [];
      }
      assert PadDigits(x, w) == a + [cx] && PadDigits(y, w) == b + [cy];
      DecimalOrder(x, y);
    }
  }
}
