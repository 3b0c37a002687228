/**
 * The Python 2 string built-ins the trace decoder relies on: `str.split`
 * with a separator, `str.strip`, `str.find`, slicing off the last
 * character, and the `int(s)` / `int(s, 16)` conversions.
 */
module Strings {
  import opened Common

  /** Whitespace as Python 2 `str.isspace` and the regex class `\s` define it. */
  predicate IsSpace(c: char) {
    c == ' ' || c == '\t' || c == '\n' || c == '\r' || c == '\U{000B}' || c == '\U{000C}'
  }

  predicate IsDigit(c: char) { '0' <= c <= '9' }

  predicate IsHexDigit(c: char) { IsDigit(c) || 'a' <= c <= 'f' || 'A' <= c <= 'F' }

  predicate AllDigits(s: string) { forall i :: 0 <= i < |s| ==> IsDigit(s[i]) }

  predicate AllHexDigits(s: string) { forall i :: 0 <= i < |s| ==> IsHexDigit(s[i]) }

  function DigitValue(c: char): (v: nat)
    requires IsHexDigit(c)
    ensures v < 16
    ensures IsDigit(c) ==> v < 10
  {
    if IsDigit(c) then c as int - '0' as int
    else if 'a' <= c <= 'f' then c as int - 'a' as int + 10
    else c as int - 'A' as int + 10
  }

  /** The value of a string of decimal digits, most significant first. */
  function DecimalValue(s: string): nat
    requires AllDigits(s)
  {
    if s == [] then 0 else 10 * DecimalValue(s[..|s| - 1]) + DigitValue(s[|s| - 1])
  }

  /** The value of a string of hexadecimal digits, most significant first. */
  function HexValue(s: string): nat
    requires AllHexDigits(s)
  {
    if s == [] then 0 else 16 * HexValue(s[..|s| - 1]) + DigitValue(s[|s| - 1])
  }

  // ---------------------------------------------------------------------
  // str.split(sep)

  /** `s.split(sep)`: cut at every occurrence of `sep`, scanning left to right. */
  function Split(s: string, sep: string): (r: seq<string>)
    requires sep != []
    ensures |r| >= 1
    decreases |s|
  {
    if |s| < |sep| then [s]
    else if s[..|sep|] == sep then [[]] + Split(s[|sep|..], sep)
    else
      var t := Split(s[1..], sep);
      [[s[0]] + t[0]] + t[1..]
  }

  /** `sep.join(pieces)`. */
  function Join(pieces: seq<string>, sep: string): string
    requires |pieces| >= 1
  {
    if |pieces| == 1 then pieces[0] else pieces[0] + sep + Join(pieces[1..], sep)
  }

  /** `s` occurs in `t` at position `p`. */
  predicate OccursAt(t: string, s: string, p: int) {
    0 <= p && p + |s| <= |t| && t[p..p + |s|] == s
  }

  /** Splitting loses nothing: joining the pieces back gives the line. */
  lemma {:induction false} JoinSplit(s: string, sep: string)
    requires sep != []
    ensures Join(Split(s, sep), sep) == s
    decreases |s|
  {
    if |s| < |sep| {
    } else if s[..|sep|] == sep {
      JoinSplit(s[|sep|..], sep);
      assert Split(s, sep) == [[]] + Split(s[|sep|..], sep);
      assert s == sep + s[|sep|..];
    } else {
      var t := Split(s[1..], sep);
      JoinSplit(s[1..], sep);
      var r := [[s[0]] + t[0]] + t[1..];
      assert Split(s, sep) == r;
      if |t| == 1 {
        assert Join(r, sep) == [s[0]] + t[0];
      } else {
        assert r[1..] == t[1..];
        assert Join(r, sep) == [s[0]] + t[0] + sep + Join(t[1..], sep);
        assert Join(t, sep) == t[0] + sep + Join(t[1..], sep);
      }
      assert s == [s[0]] + s[1..];
    }
  }

  /** No piece of a split contains the separator: every cut is at the leftmost occurrence. */
  lemma {:induction false} SplitPiecesFree(s: string, sep: string, i: nat, p: int)
    requires sep != []
    requires i < |Split(s, sep)|
    ensures !OccursAt(Split(s, sep)[i], sep, p)
    decreases |s|
  {
    if |s| < |sep| {
    } else if s[..|sep|] == sep {
      if i > 0 {
        SplitPiecesFree(s[|sep|..], sep, i - 1, p);
      }
    } else {
      if i > 0 {
        SplitPiecesFree(s[1..], sep, i, p);
      } else {
        var t := Split(s[1..], sep);
        SplitFirstPrefix(s[1..], sep);
        if p > 0 {
          SplitPiecesFree(s[1..], sep, 0, p - 1);
        }
      }
    }
  }

  /** The first piece of a split is a prefix of the split string. */
  lemma {:induction false} SplitFirstPrefix(s: string, sep: string)
    requires sep != []
    ensures Split(s, sep)[0] <= s
    decreases |s|
  {
    if |s| >= |sep| && s[..|sep|] != sep {
      var t := Split(s[1..], sep);
      SplitFirstPrefix(s[1..], sep);
      assert Split(s, sep)[0] == [s[0]] + t[0];
      assert s[..|t[0]| + 1] == [s[0]] + s[1..][..|t[0]|];
    }
  }

  /** No occurrence of `sep` starts before position `n` of `s`. */
  predicate NoneBefore(s: string, sep: string, n: int) {
    forall i :: 0 <= i < n ==> !OccursAt(s, sep, i)
  }

  /** Occurrences in `s[1..]` are the occurrences in `s`, one place to the left. */
  lemma OccursShift(s: string, sep: string, i: int)
    requires |s| > 0 && i >= 1
    ensures OccursAt(s[1..], sep, i - 1) <==> OccursAt(s, sep, i)
  {
    if 0 <= i - 1 && i - 1 + |sep| <= |s[1..]| {
      assert s[1..][i - 1..i - 1 + |sep|] == s[i..i + |sep|];
    }
  }

  /** A split cuts at the leftmost occurrence of the separator. */
  lemma {:induction false} SplitAt(s: string, sep: string, n: nat)
    requires sep != []
    requires OccursAt(s, sep, n) && NoneBefore(s, sep, n)
    ensures Split(s, sep) == [s[..n]] + Split(s[n + |sep|..], sep)
    decreases n
  {
    if n > 0 {
      assert !OccursAt(s, sep, 0);
      forall i | 0 <= i < n - 1
        ensures !OccursAt(s[1..], sep, i)
      {
        OccursShift(s, sep, i + 1);
      }
      OccursShift(s, sep, n);
      SplitAt(s[1..], sep, n - 1);
      var t := Split(s[1..], sep);
      assert Split(s, sep) == [[s[0]] + t[0]] + t[1..];
      assert s[1..][n - 1 + |sep|..] == s[n + |sep|..];
      assert [s[0]] + s[1..][..n - 1] == s[..n];
    }
  }

  /** A string without the separator splits into itself alone. */
  lemma {:induction false} SplitNone(s: string, sep: string)
    requires sep != []
    requires NoneBefore(s, sep, |s|)
    ensures Split(s, sep) == [s]
    decreases |s|
  {
    if |s| >= |sep| {
      assert !OccursAt(s, sep, 0);
      forall i | 0 <= i < |s| - 1
        ensures !OccursAt(s[1..], sep, i)
      {
        OccursShift(s, sep, i + 1);
      }
      SplitNone(s[1..], sep);
      assert [s[0]] + s[1..] == s;
    }
  }

  // ---------------------------------------------------------------------
  // str.strip(), str.find(c), s[:-1]

  /** The number of whitespace characters at the start of `s`. */
  function LeadingSpaces(s: string): (n: nat)
    ensures n <= |s|
    ensures forall k :: 0 <= k < n ==> IsSpace(s[k])
    ensures n < |s| ==> !IsSpace(s[n])
  {
    if s != [] && IsSpace(s[0]) then 1 + LeadingSpaces(s[1..]) else 0
  }

  /** The number of whitespace characters at the end of `s`. */
  function TrailingSpaces(s: string): (n: nat)
    ensures n <= |s|
    ensures forall k :: |s| - n <= k < |s| ==> IsSpace(s[k])
    ensures n < |s| ==> !IsSpace(s[|s| - n - 1])
  {
    if s != [] && IsSpace(s[|s| - 1]) then 1 + TrailingSpaces(s[..|s| - 1]) else 0
  }

  /** `s.strip()`: the line without leading and trailing whitespace. */
  function Strip(s: string): (r: string)
    ensures r == [] || (!IsSpace(r[0]) && !IsSpace(r[|r| - 1]))
    ensures var i := LeadingSpaces(s); i + |r| <= |s| && r == s[i..i + |r|]
    ensures forall k :: 0 <= k < LeadingSpaces(s) ==> IsSpace(s[k])
    ensures forall k :: LeadingSpaces(s) + |r| <= k < |s| ==> IsSpace(s[k])
  {
    var i := LeadingSpaces(s);
    var t := s[i..];
    t[..|t| - TrailingSpaces(t)]
  }

  /** `s.find(c)`: the index of the first `c`, or -1. */
  function Find(s: string, c: char): (i: int)
    ensures -1 <= i < |s|
    ensures i == -1 <==> c !in s
    ensures i >= 0 ==> s[i] == c && c !in s[..i]
  {
    if s == [] then -1
    else if s[0] == c then 0
    else
      var j := Find(s[1..], c);
      assert s[1..] == s[1..][..|s| - 1];
      if j == -1 then -1
      else
        assert s[..j + 1] == [s[0]] + s[1..][..j];
        j + 1
  }

  /** `s[:-1]`: everything but the last character (empty stays empty). */
  function DropLast(s: string): (r: string)
    ensures |s| > 0 ==> r + [s[|s| - 1]] == s
    ensures |s| == 0 ==> r == []
  {
    if |s| == 0 then s else s[..|s| - 1]
  }

  // ---------------------------------------------------------------------
  // int(s) and int(s, 16)

  /** What follows a sign: the C conversion skips whitespace between the sign and the digits. */
  function AfterSign(t: string): (u: string)
    requires |t| > 0
    ensures u == [] || !IsSpace(u[0])
    ensures |u| < |t|
  {
    t[1 + LeadingSpaces(t[1..])..]
  }

  /**
   * `int(s)`: optional surrounding whitespace, an optional sign, optional
   * whitespace after the sign, decimal digits.
   */
  function ParseInt(s: string): Option<int> {
    var t := Strip(s);
    if |t| > 0 && (t[0] == '+' || t[0] == '-') then
      var u := AfterSign(t);
      if |u| > 0 && AllDigits(u) then
        var v: int := DecimalValue(u);
        Some(if t[0] == '-' then -v else v)
      else None
    else if |t| > 0 && AllDigits(t) then Some(DecimalValue(t))
    else None
  }

  /** The digits after an optional `0x` or `0X` prefix, as `int(_, 16)` accepts them. */
  function HexBody(t: string): Option<nat> {
    var d := if |t| >= 2 && t[0] == '0' && (t[1] == 'x' || t[1] == 'X') then t[2..] else t;
    if |d| > 0 && AllHexDigits(d) then Some(HexValue(d)) else None
  }

  /**
   * `int(s, 16)`: optional surrounding whitespace, an optional sign,
   * optional whitespace after the sign, an optional `0x`, hex digits.
   */
  function ParseHex(s: string): Option<int> {
    var t := Strip(s);
    if |t| > 0 && (t[0] == '+' || t[0] == '-') then Signed(t[0] == '-', HexBody(AfterSign(t)))
    else Signed(false, HexBody(t))
  }

  /** A parsed magnitude with its sign. */
  function Signed(negative: bool, v: Option<nat>): Option<int> {
    match v
    case None => None
    case Some(n) => var m: int := n; Some(if negative then -m else m)
  }

  // ---------------------------------------------------------------------
  // str(n) and the hexadecimal rendering used in symbol expressions

  function DigitChar(d: nat): (c: char)
    requires d < 16
    ensures IsHexDigit(c) && DigitValue(c) == d
    ensures d < 10 ==> IsDigit(c)
  {
    if d < 10 then ('0' as int + d) as char else ('a' as int + d - 10) as char
  }

  /** The decimal digits of `n`, as `str(n)` writes them. */
  function NatToDecimal(n: nat): (s: string)
    ensures |s| > 0 && AllDigits(s)
  {
    if n < 10 then [DigitChar(n)] else NatToDecimal(n / 10) + [DigitChar(n % 10)]
  }

  /** The lower-case hexadecimal digits of `n`. */
  function NatToHex(n: nat): (s: string)
    ensures |s| > 0 && AllHexDigits(s)
  {
    if n < 16 then [DigitChar(n)] else NatToHex(n / 16) + [DigitChar(n % 16)]
  }

  /** `str(n)` for an integer. */
  function IntToString(n: int): string {
    if n < 0 then "-" + NatToDecimal(-n) else NatToDecimal(n)
  }

  lemma {:induction false} DecimalRoundTrip(n: nat)
    ensures DecimalValue(NatToDecimal(n)) == n
  {
    var s := NatToDecimal(n);
    if n >= 10 {
      DecimalRoundTrip(n / 10);
      assert s[..|s| - 1] == NatToDecimal(n / 10);
    }
  }

  lemma {:induction false} HexRoundTrip(n: nat)
    ensures HexValue(NatToHex(n)) == n
  {
    var s := NatToHex(n);
    if n >= 16 {
      HexRoundTrip(n / 16);
      assert s[..|s| - 1] == NatToHex(n / 16);
    }
  }

  /** A string without whitespace at either end is its own strip. */
  lemma StripNoSpace(s: string)
    requires s != [] ==> !IsSpace(s[0]) && !IsSpace(s[|s| - 1])
    ensures Strip(s) == s
  {
    if s != [] {
      assert LeadingSpaces(s) == 0;
      assert TrailingSpaces(s) == 0;
    }
  }

  /** `int(str(n)) == n`. */
  lemma ParseIntRoundTrip(n: int)
    ensures ParseInt(IntToString(n)) == Some(n)
  {
    var m: nat := if n < 0 then -n else n;
    DecimalRoundTrip(m);
    if n < 0 {
      ParseNegative(NatToDecimal(m));
    } else {
      ParseDigits(NatToDecimal(m));
    }
  }

  /** A non-empty run of digits parses to its decimal value. */
  lemma ParseDigits(d: string)
    requires |d| > 0 && AllDigits(d)
    ensures ParseInt(d) == Some(DecimalValue(d))
  {
    assert !IsSpace(d[0]) && !IsSpace(d[|d| - 1]);
    StripNoSpace(d);
  }

  /** A minus sign and a non-empty run of digits parse to the negated value. */
  lemma ParseNegative(d: string)
    requires |d| > 0 && AllDigits(d)
    ensures ParseInt("-" + d) == Some(-(DecimalValue(d) as int))
  {
    assert "-" + d == ['-'] + [] + d;
    SignedSpaced('-', [], d);
    SignedValue(['-'] + [] + d, d);
  }

  /** A sign followed by whitespace and then digits still parses, as `int('- 5') == -5`. */
  lemma ParseSpacedSign(w: string, d: string)
    requires forall k :: 0 <= k < |w| ==> IsSpace(w[k])
    requires |d| > 0 && AllDigits(d)
    ensures ParseInt("-" + w + d) == Some(-(DecimalValue(d) as int))
    ensures ParseInt("+" + w + d) == Some(DecimalValue(d) as int)
  {
    SignedSpaced('-', w, d);
    SignedValue(['-'] + w + d, d);
    SignedSpaced('+', w, d);
    SignedValue(['+'] + w + d, d);
  }

  /** The same for `int(s, 16)`, as `int('-\t0x10', 16) == -16`. */
  lemma ParseHexSpacedSign(w: string, h: string)
    requires forall k :: 0 <= k < |w| ==> IsSpace(w[k])
    requires |h| > 0 && AllHexDigits(h)
    ensures ParseHex("-" + w + ("0x" + h)) == Some(-(HexValue(h) as int))
  {
    var x := "0x" + h;
    HexPrefixBody(h);
    assert !IsSpace(x[0]);
    SignedSpaced('-', w, x);
    HexSignedValue(['-'] + w + x);
    assert Signed(true, Some(HexValue(h))) == Some(-(HexValue(h) as int));
  }

  /** Hex digits, with or without the `0x` prefix, are a hex body of their value. */
  lemma HexPrefixBody(h: string)
    requires |h| > 0 && AllHexDigits(h)
    ensures HexBody("0x" + h) == Some(HexValue(h))
    ensures !IsSpace(("0x" + h)[|"0x" + h| - 1])
  {
    var x := "0x" + h;
    assert x[0] == '0' && x[1] == 'x' && x[2..] == h;
    assert x[|x| - 1] == h[|h| - 1];
  }

  /** `int(_, 16)` of a stripped negative text reads the hex body after the sign. */
  lemma HexSignedValue(t: string)
    requires |t| > 0 && t[0] == '-' && Strip(t) == t
    ensures ParseHex(t) == Signed(true, HexBody(AfterSign(t)))
  {
  }

  /** The value `int()` gives a stripped signed text whose sign is followed by digits. */
  lemma SignedValue(t: string, d: string)
    requires |t| > 0 && (t[0] == '-' || t[0] == '+') && Strip(t) == t && AfterSign(t) == d
    requires |d| > 0 && AllDigits(d)
    ensures ParseInt(t) == Some(if t[0] == '-' then -(DecimalValue(d) as int) else DecimalValue(d))
  {
  }

  /** A sign, whitespace and a non-blank run: the text is already stripped and the sign is followed by the run. */
  lemma SignedSpaced(c: char, w: string, d: string)
    requires c == '-' || c == '+'
    requires forall k :: 0 <= k < |w| ==> IsSpace(w[k])
    requires |d| > 0 && !IsSpace(d[0]) && !IsSpace(d[|d| - 1])
    ensures Strip([c] + w + d) == [c] + w + d
    ensures AfterSign([c] + w + d) == d
  {
    var s := [c] + w + d;
    assert !IsSpace(s[0]) && s[|s| - 1] == d[|d| - 1] && !IsSpace(s[|s| - 1]);
    StripNoSpace(s);
    assert s[1..] == w + d;
    SpacesThen(w, d);
    assert s[1 + |w|..] == d;
  }

  /** Whitespace followed by a string that starts with something else: the leading run is the whitespace. */
  lemma {:induction false} SpacesThen(w: string, d: string)
    requires forall k :: 0 <= k < |w| ==> IsSpace(w[k])
    requires |d| > 0 && !IsSpace(d[0])
    ensures LeadingSpaces(w + d) == |w|
    decreases |w|
  {
    if w != [] {
      assert (w + d)[1..] == w[1..] + d;
      SpacesThen(w[1..], d);
    }
  }
}
