/**
 * The symbol expression of a trace line (its third `": "`-separated field):
 * `@name`, optionally `+offset`, or `0xHEX`, either optionally followed by
 * a micro-op index `.N`. The decoder matches it with the regular expression
 *
 *     (@([^\+\.\s]+)(\+(\d+))?|(0x[0-9A-Fa-f]+))(\.(\d+))?
 *
 * anchored at the start of the field only. Every quantifier is greedy and
 * every later part is optional, so the first match the regex engine finds
 * takes each group as long as it can; `Match` computes exactly that.
 */
module SymbolExpressions {
  import opened Common
  import opened Strings

  /** A character of the name group `[^\+\.\s]`. */
  predicate IsNameChar(c: char) { c != '+' && c != '.' && !IsSpace(c) }

  /** The three character classes the regex repeats: `[^\+\.\s]`, `\d` and `[0-9A-Fa-f]`. */
  datatype CharClass = NameChars | Digits | HexDigits

  predicate InClass(c: char, p: CharClass) {
    match p
    case NameChars => IsNameChar(c)
    case Digits => IsDigit(c)
    case HexDigits => IsHexDigit(c)
  }

  /** The length of the longest prefix of `s` whose characters all belong to class `p`. */
  function Span(s: string, p: CharClass): (n: nat)
    ensures n <= |s|
  {
    if s != [] && InClass(s[0], p) then 1 + Span(s[1..], p) else 0
  }

  /** The span is maximal: every character in it belongs to the class, the next one does not. */
  lemma {:induction false} SpanMaximal(s: string, p: CharClass)
    ensures forall k :: 0 <= k < Span(s, p) ==> InClass(s[k], p)
    ensures Span(s, p) < |s| ==> !InClass(s[Span(s, p)], p)
  {
    if s != [] && InClass(s[0], p) {
      SpanMaximal(s[1..], p);
    }
  }

  /** The span of `x + y` is all of `x` when `x` qualifies and `y` does not continue it. */
  lemma {:induction false} SpanOfConcat(x: string, y: string, p: CharClass)
    requires forall k :: 0 <= k < |x| ==> InClass(x[k], p)
    requires y == [] || !InClass(y[0], p)
    ensures Span(x + y, p) == |x|
  {
    if x != [] {
      assert (x + y)[1..] == x[1..] + y;
      SpanOfConcat(x[1..], y, p);
    }
  }

  /** Match groups 2, 4, 5 and 7 of the regex: name, offset, address, index. */
  datatype SymbolMatch = SymbolMatch(
    name: Option<string>,
    offset: Option<string>,
    address: Option<string>,
    index: Option<string>)

  /** `g` is absent or a non-empty run of decimal digits. */
  predicate NonEmptyDigits(g: Option<string>) {
    g.Some? ==> |g.value| > 0 && AllDigits(g.value)
  }

  /** A `+offset` or `.index` suffix as it appears in the text, or nothing. */
  function Suffix(mark: char, g: Option<string>): string {
    if g.Some? then [mark] + g.value else ""
  }

  /**
   * The optional group `(\+(\d+))?` or `(\.(\d+))?` at position `p` of `s`,
   * with `mark` the `+` or the `.`: the digits, or None when the group is absent.
   */
  function DigitGroup(s: string, p: nat, mark: char): (g: Option<string>)
    requires p <= |s|
    ensures p + |Suffix(mark, g)| <= |s|
  {
    if p < |s| && s[p] == mark && Span(s[p + 1..], Digits) > 0
    then Some(s[p + 1..p + 1 + Span(s[p + 1..], Digits)])
    else None
  }

  /** A digit group holds digits only, and with its mark it is the text at `p`. */
  lemma DigitGroupSound(s: string, p: nat, mark: char)
    requires p <= |s|
    ensures NonEmptyDigits(DigitGroup(s, p, mark))
    ensures var g := DigitGroup(s, p, mark); s[p..p + |Suffix(mark, g)|] == Suffix(mark, g)
  {
    var g := DigitGroup(s, p, mark);
    if g.Some? {
      var t := s[p + 1..];
      var d := Span(t, Digits);
      assert g.value == t[..d];
      SpanRun(t, Digits);
      assert Suffix(mark, g) == [mark] + t[..d];
      assert s[p..p + 1 + d] == [s[p]] + t[..d];
    }
  }

  /** The first alternative `@name` can start here. */
  predicate NameStart(s: string) {
    |s| > 0 && s[0] == '@' && Span(s[1..], NameChars) > 0
  }

  /** The second alternative `0xHEX` can start here. */
  predicate AddressStart(s: string) {
    |s| > 2 && s[0] == '0' && s[1] == 'x' && Span(s[2..], HexDigits) > 0
  }

  predicate IsName(s: string) {
    |s| > 0 && forall k :: 0 <= k < |s| ==> IsNameChar(s[k])
  }

  predicate IsHexLiteral(s: string) {
    |s| > 2 && s[..2] == "0x" && AllHexDigits(s[2..])
  }

  /** A span, cut out of the string, is a run of characters of its class. */
  lemma SpanRun(s: string, p: CharClass)
    ensures forall k :: 0 <= k < Span(s, p) ==> InClass(s[..Span(s, p)][k], p)
  {
    SpanMaximal(s, p);
  }

  /** Where the name group ends. */
  function NameEnd(s: string): (n: nat)
    requires NameStart(s)
    ensures 1 < n <= |s|
  {
    1 + Span(s[1..], NameChars)
  }

  /** The name group is a name, and with its `@` it is the start of the field. */
  lemma NameGroupSound(s: string)
    requires NameStart(s)
    ensures IsName(s[1..NameEnd(s)]) && s[..NameEnd(s)] == "@" + s[1..NameEnd(s)]
  {
    var n := NameEnd(s);
    SpanRun(s[1..], NameChars);
    assert s[1..n] == s[1..][..n - 1];
  }

  /** Where the hex digits of an address end. */
  function AddressEnd(s: string): (e: nat)
    requires AddressStart(s)
    ensures 2 < e <= |s|
  {
    2 + Span(s[2..], HexDigits)
  }

  /** The address group is a hex literal. */
  lemma AddressGroupSound(s: string)
    requires AddressStart(s)
    ensures IsHexLiteral(s[..AddressEnd(s)])
  {
    var e := AddressEnd(s);
    SpanRun(s[2..], HexDigits);
    assert s[..e][..2] == "0x";
    assert s[..e][2..] == s[2..][..e - 2];
  }

  /** The groups of the first alternative, `@name(\+(\d+))?`, then `(\.(\d+))?`. */
  function MatchName(s: string): SymbolMatch
    requires NameStart(s)
  {
    var n := NameEnd(s);
    var off := DigitGroup(s, n, '+');
    SymbolMatch(Some(s[1..n]), off, None, DigitGroup(s, n + |Suffix('+', off)|, '.'))
  }

  /** The groups of the second alternative, `0x[0-9A-Fa-f]+`, then `(\.(\d+))?`. */
  function MatchAddress(s: string): SymbolMatch
    requires AddressStart(s)
  {
    var e := AddressEnd(s);
    SymbolMatch(None, None, Some(s[..e]), DigitGroup(s, e, '.'))
  }

  /** `re.match` of the symbol regex against `s`: None when it does not match. */
  function Match(s: string): Option<SymbolMatch> {
    if NameStart(s) then Some(MatchName(s))
    else if AddressStart(s) then Some(MatchAddress(s))
    else None
  }

  /** The groups a match can produce: exactly one of name and address, each group non-empty. */
  predicate WellFormed(m: SymbolMatch) {
    && (m.name.Some? <==> m.address.None?)
    && (m.name.Some? ==> IsName(m.name.value))
    && (m.offset.Some? ==> m.name.Some?)
    && NonEmptyDigits(m.offset)
    && (m.address.Some? ==> IsHexLiteral(m.address.value))
    && NonEmptyDigits(m.index)
  }

  /** The text the regex consumed to produce the groups of `m`. */
  function Render(m: SymbolMatch): string {
    var head :=
      if m.name.Some? then "@" + m.name.value + Suffix('+', m.offset)
      else if m.address.Some? then m.address.value
      else "";
    head + Suffix('.', m.index)
  }

  lemma Associate(a: string, b: string, c: string)
    ensures a + b + c == a + (b + c)
  {
  }

  /** The text of a name match, group by group. */
  lemma RenderByName(m: SymbolMatch)
    requires m.name.Some?
    ensures Render(m) == "@" + m.name.value + Suffix('+', m.offset) + Suffix('.', m.index)
  {
  }

  /** Three strings that are adjacent slices of `s` from its start make up a prefix of `s`. */
  lemma ConcatPrefix(s: string, a: string, b: string, c: string, n: nat, e: nat, f: nat)
    requires n <= e <= f <= |s|
    requires a == s[..n] && b == s[n..e] && c == s[e..f]
    ensures a + b + c <= s
  {
    assert a + b + c == s[..f];
  }

  /** The groups of a name match, spelled out. */
  lemma MatchNameGroups(s: string)
    requires NameStart(s)
    ensures var n := NameEnd(s); var off := DigitGroup(s, n, '+');
      MatchName(s) == SymbolMatch(Some(s[1..n]), off, None, DigitGroup(s, n + |Suffix('+', off)|, '.'))
  {
  }

  lemma MatchNameWellFormed(s: string)
    requires NameStart(s)
    ensures WellFormed(MatchName(s))
  {
    var n := NameEnd(s);
    var off := DigitGroup(s, n, '+');
    MatchNameGroups(s);
    NameGroupSound(s);
    DigitGroupSound(s, n, '+');
    DigitGroupSound(s, n + |Suffix('+', off)|, '.');
  }

  /** The `@name` part of a name match is the start of the field. */
  lemma NameMatchHead(s: string)
    requires NameStart(s)
    ensures MatchName(s).name.Some?
    ensures "@" + MatchName(s).name.value == s[..NameEnd(s)]
  {
    MatchNameGroups(s);
    NameGroupSound(s);
  }

  /** The `+offset` part of a name match is the text after the name. */
  lemma NameMatchOffset(s: string)
    requires NameStart(s)
    ensures NameEnd(s) + |Suffix('+', MatchName(s).offset)| <= |s|
    ensures Suffix('+', MatchName(s).offset) == s[NameEnd(s)..NameEnd(s) + |Suffix('+', MatchName(s).offset)|]
  {
    MatchNameGroups(s);
    DigitGroupSound(s, NameEnd(s), '+');
  }

  /** The `.index` part of a name match is the text after the offset. */
  lemma NameMatchIndex(s: string)
    requires NameStart(s)
    ensures var e := NameEnd(s) + |Suffix('+', MatchName(s).offset)|;
      e + |Suffix('.', MatchName(s).index)| <= |s| &&
      Suffix('.', MatchName(s).index) == s[e..e + |Suffix('.', MatchName(s).index)|]
  {
    var n := NameEnd(s);
    MatchNameGroups(s);
    DigitGroupSound(s, n + |Suffix('+', DigitGroup(s, n, '+'))|, '.');
  }

  lemma MatchNamePrefix(s: string)
    requires NameStart(s)
    ensures Render(MatchName(s)) <= s
  {
    var m := MatchName(s);
    var n := NameEnd(s);
    var e := n + |Suffix('+', m.offset)|;
    var f := e + |Suffix('.', m.index)|;
    NameMatchHead(s);
    NameMatchOffset(s);
    NameMatchIndex(s);
    RenderByName(m);
    ConcatPrefix(s, "@" + m.name.value, Suffix('+', m.offset), Suffix('.', m.index), n, e, f);
  }

  lemma MatchNameSound(s: string)
    requires NameStart(s)
    ensures WellFormed(MatchName(s))
    ensures Render(MatchName(s)) <= s
  {
    MatchNameWellFormed(s);
    MatchNamePrefix(s);
  }

  lemma MatchAddressSound(s: string)
    requires AddressStart(s)
    ensures WellFormed(MatchAddress(s))
    ensures Render(MatchAddress(s)) <= s
  {
    var e := AddressEnd(s);
    var g := DigitGroup(s, e, '.');
    var f := e + |Suffix('.', g)|;
    AddressGroupSound(s);
    DigitGroupSound(s, e, '.');
    RenderAddress(s[..e], g);
    ConcatPrefix(s, s[..e], Suffix('.', g), [], e, f, f);
  }

  /** The text of an address match: the literal, then the index suffix. */
  lemma RenderAddress(a: string, g: Option<string>)
    ensures Render(SymbolMatch(None, None, Some(a), g)) == a + Suffix('.', g)
  {
  }

  /**
   * Every match is well formed, so exactly one of name and address is
   * present, and the regex consumed a prefix of the field: the match is
   * anchored at the start only.
   */
  lemma MatchSound(s: string)
    requires Match(s).Some?
    ensures WellFormed(Match(s).value)
    ensures Render(Match(s).value) <= s
  {
    if NameStart(s) { MatchNameSound(s); } else { MatchAddressSound(s); }
  }

  /** A blank or the end of the field: what may follow a rendered expression. */
  predicate Delimits(t: string) { t == [] || IsSpace(t[0]) }

  /** A digit group followed by neither a digit nor its mark is read back whole. */
  lemma DigitGroupRender(x: string, mark: char, g: Option<string>, t: string)
    requires NonEmptyDigits(g)
    requires t == [] || (!IsDigit(t[0]) && t[0] != mark)
    ensures DigitGroup(x + Suffix(mark, g) + t, |x|, mark) == g
  {
    var s := x + Suffix(mark, g) + t;
    if g.Some? {
      assert s[|x|] == mark;
      assert s[|x| + 1..] == g.value + t;
      SpanOfConcat(g.value, t, Digits);
      assert s[|x| + 1..|x| + 1 + |g.value|] == g.value;
    } else {
      assert s[|x|..] == t;
    }
  }

  /** A name followed by a character outside the name class ends the name group there. */
  lemma NameGroupRender(name: string, rest: string)
    requires IsName(name)
    requires rest == [] || !IsNameChar(rest[0])
    ensures NameStart("@" + name + rest)
    ensures NameEnd("@" + name + rest) == 1 + |name|
  {
    var s := "@" + name + rest;
    assert s[1..] == name + rest;
    SpanOfConcat(name, rest, NameChars);
  }

  /** `MatchName` reads back groups that the field is known to hold. */
  lemma MatchNameFromGroups(s: string, m: SymbolMatch)
    requires NameStart(s) && m.address.None?
    requires m.name == Some(s[1..NameEnd(s)])
    requires DigitGroup(s, NameEnd(s), '+') == m.offset
    requires NameEnd(s) + |Suffix('+', m.offset)| <= |s|
    requires DigitGroup(s, NameEnd(s) + |Suffix('+', m.offset)|, '.') == m.index
    ensures MatchName(s) == m
  {
    MatchNameGroups(s);
  }

  /** In the text of a name match, the name group ends right after the name. */
  lemma NameRenderLayout(m: SymbolMatch, t: string)
    requires WellFormed(m) && m.name.Some?
    requires Delimits(t)
    ensures NameStart(Render(m) + t)
    ensures NameEnd(Render(m) + t) == 1 + |m.name.value|
    ensures (Render(m) + t)[1..1 + |m.name.value|] == m.name.value
  {
    var s := Render(m) + t;
    var name := m.name.value;
    var rest := Suffix('+', m.offset) + Suffix('.', m.index) + t;
    RenderByName(m);
    Associate("@" + name, Suffix('+', m.offset), Suffix('.', m.index));
    Associate("@" + name, Suffix('+', m.offset) + Suffix('.', m.index), t);
    NameGroupRender(name, rest);
    assert s[1..1 + |name|] == name;
  }

  /** In the text of a name match, the `+offset` group reads back. */
  lemma OffsetRenderLayout(m: SymbolMatch, t: string)
    requires WellFormed(m) && m.name.Some?
    requires Delimits(t)
    ensures DigitGroup(Render(m) + t, 1 + |m.name.value|, '+') == m.offset
  {
    var head := "@" + m.name.value;
    RenderByName(m);
    Associate(head + Suffix('+', m.offset), Suffix('.', m.index), t);
    Associate(head, Suffix('+', m.offset), Suffix('.', m.index) + t);
    DigitGroupRender(head, '+', m.offset, Suffix('.', m.index) + t);
  }

  /** In the text of a name match, the `.index` group reads back. */
  lemma IndexRenderLayout(m: SymbolMatch, t: string)
    requires WellFormed(m) && m.name.Some?
    requires Delimits(t)
    ensures 1 + |m.name.value| + |Suffix('+', m.offset)| <= |Render(m) + t|
    ensures DigitGroup(Render(m) + t, 1 + |m.name.value| + |Suffix('+', m.offset)|, '.') == m.index
  {
    RenderByName(m);
    DigitGroupRender("@" + m.name.value + Suffix('+', m.offset), '.', m.index, t);
  }

  lemma MatchRenderName(m: SymbolMatch, t: string)
    requires WellFormed(m) && m.name.Some?
    requires Delimits(t)
    ensures NameStart(Render(m) + t) && MatchName(Render(m) + t) == m
  {
    NameRenderLayout(m, t);
    OffsetRenderLayout(m, t);
    IndexRenderLayout(m, t);
    MatchNameFromGroups(Render(m) + t, m);
  }

  /** In the text of an address match, the hex digits end right after the address. */
  lemma AddressRenderLayout(m: SymbolMatch, t: string)
    requires WellFormed(m) && m.address.Some?
    requires Delimits(t)
    ensures !NameStart(Render(m) + t) && AddressStart(Render(m) + t)
    ensures AddressEnd(Render(m) + t) == |m.address.value|
    ensures (Render(m) + t)[..|m.address.value|] == m.address.value
  {
    var s := Render(m) + t;
    var a := m.address.value;
    var tail := Suffix('.', m.index) + t;
    assert Render(m) == a + Suffix('.', m.index);
    Associate(a, Suffix('.', m.index), t);
    assert s == a + tail;
    assert a[..2] == "0x";
    assert s[0] == '0' && s[1] == 'x';
    assert s[2..] == a[2..] + tail;
    SpanOfConcat(a[2..], tail, HexDigits);
    assert s[..|a|] == a;
  }

  lemma MatchRenderAddress(m: SymbolMatch, t: string)
    requires WellFormed(m) && m.address.Some?
    requires Delimits(t)
    ensures !NameStart(Render(m) + t) && AddressStart(Render(m) + t) && MatchAddress(Render(m) + t) == m
  {
    AddressRenderLayout(m, t);
    DigitGroupRender(m.address.value, '.', m.index, t);
  }

  /**
   * The grammar round trip: the text built from well-formed groups,
   * followed by nothing or by whitespace, matches back to the same groups.
   */
  lemma MatchRender(m: SymbolMatch, t: string)
    requires WellFormed(m)
    requires Delimits(t)
    ensures Match(Render(m) + t) == Some(m)
  {
    if m.name.Some? { MatchRenderName(m, t); } else { MatchRenderAddress(m, t); }
  }

  // ---------------------------------------------------------------------
  // The numeric fields the decoder derives from the groups

  /** The decoded symbol expression: `int(offset)`, `int(addr, 16)`, `int(index)`. */
  datatype SymbolFields = SymbolFields(
    name: Option<string>,
    offset: Option<nat>,
    address: Option<nat>,
    index: Option<nat>)

  function DecimalGroup(g: Option<string>): Option<nat>
    requires NonEmptyDigits(g)
  {
    if g.Some? then Some(DecimalValue(g.value)) else None
  }

  /** The values the decoder assigns from the groups of a match. */
  function Fields(m: SymbolMatch): SymbolFields
    requires WellFormed(m)
  {
    SymbolFields(
      m.name,
      DecimalGroup(m.offset),
      if m.address.Some? then Some(HexValue(m.address.value[2..])) else None,
      DecimalGroup(m.index))
  }

  /** `int(g)` of a non-empty digit group is its decimal value. */
  lemma ParseDigitGroup(g: string)
    requires |g| > 0 && AllDigits(g)
    ensures ParseInt(g) == Some(DecimalValue(g))
  {
    StripNoSpace(g);
  }

  /** `int(a, 16)` of a `0x` literal is the value of its hex digits. */
  lemma ParseHexLiteral(a: string)
    requires IsHexLiteral(a)
    ensures ParseHex(a) == Some(HexValue(a[2..]))
  {
    assert IsHexDigit(a[2..][|a| - 3]);
    StripNoSpace(a);
    assert a[0] == '0';
  }

  /** `int(g)` and `int(g, 16)` agree with the digit values `Fields` uses. */
  lemma GroupConversions(m: SymbolMatch)
    requires WellFormed(m)
    ensures m.offset.Some? ==> ParseInt(m.offset.value) == Some(DecimalValue(m.offset.value))
    ensures m.index.Some? ==> ParseInt(m.index.value) == Some(DecimalValue(m.index.value))
    ensures m.address.Some? ==> ParseHex(m.address.value) == Some(HexValue(m.address.value[2..]))
  {
    if m.offset.Some? { ParseDigitGroup(m.offset.value); }
    if m.index.Some? { ParseDigitGroup(m.index.value); }
    if m.address.Some? { ParseHexLiteral(m.address.value); }
  }

  /** Fields a trace line can carry: a name without `+`, `.` or blanks, or an address. */
  predicate ValidFields(f: SymbolFields) {
    && (f.name.Some? <==> f.address.None?)
    && (f.name.Some? ==> |f.name.value| > 0 && forall k :: 0 <= k < |f.name.value| ==> IsNameChar(f.name.value[k]))
    && (f.offset.Some? ==> f.name.Some?)
  }

  function OptDecimal(x: Option<nat>): Option<string> {
    if x.Some? then Some(NatToDecimal(x.value)) else None
  }

  /** The symbol-expression text a simulator writes for the given fields. */
  function Serialize(f: SymbolFields): string
    requires ValidFields(f)
  {
    Render(SymbolMatch(
      f.name,
      OptDecimal(f.offset),
      if f.address.Some? then Some("0x" + NatToHex(f.address.value)) else None,
      OptDecimal(f.index)))
  }

  /**
   * Re-serialising the four optional fields and decoding again yields the
   * identical tuple, whatever blank padding follows the expression.
   */
  lemma {:induction false} DecodeSerialize(f: SymbolFields, t: string)
    requires ValidFields(f)
    requires Delimits(t)
    ensures Match(Serialize(f) + t).Some?
    ensures WellFormed(Match(Serialize(f) + t).value)
    ensures Fields(Match(Serialize(f) + t).value) == f
  {
    var m := SymbolMatch(
      f.name,
      OptDecimal(f.offset),
      if f.address.Some? then Some("0x" + NatToHex(f.address.value)) else None,
      OptDecimal(f.index));
    if f.address.Some? {
      var a := "0x" + NatToHex(f.address.value);
      assert a[..2] == "0x" && a[2..] == NatToHex(f.address.value);
      HexRoundTrip(f.address.value);
    }
    if f.offset.Some? { DecimalRoundTrip(f.offset.value); }
    if f.index.Some? { DecimalRoundTrip(f.index.value); }
    assert WellFormed(m);
    MatchRender(m, t);
  }
}
