/** Strings and numbers as the grammar spells them: the parser reads exactly these. */
module JsonSpellings {
  import opened Wrappers
  import opened Sequences
  import opened JsonTexts
  import opened JsonRoundTrips
  import opened JsonGrammars

  // ---------- strings ----------

  /** What a string says whose last code unit p has not been written yet. */
  function After(p: int, parts: seq<Part>): string
    requires p < 0x10000
  {
    if p < 0 then TextOf(parts) else TextOf([Unit(p, "")] + parts)
  }

  /** The code unit p and the first part are one code point. */
  predicate Joins(p: int, parts: seq<Part>) {
    0xD800 <= p < 0xDC00 && parts != [] && parts[0].Unit? && 0xDC00 <= parts[0].code < 0xE000
  }

  lemma TextStep(parts: seq<Part>)
    requires parts != []
    ensures Paired(parts) ==>
              TextOf(parts) ==
              Utf8(0x10000 + (parts[0].code - 0xD800) * 0x400 + parts[1].code - 0xDC00) + TextOf(parts[2..])
    ensures !Paired(parts) ==> TextOf(parts) == PartText(parts[0]) + TextOf(parts[1..])
  {
    hide Utf8, PartText;
  }

  lemma AfterStep(p: int, parts: seq<Part>)
    requires p < 0x10000
    ensures Joins(p, parts) ==>
              After(p, parts) == Utf8(0x10000 + (p - 0xD800) * 0x400 + parts[0].code - 0xDC00) + TextOf(parts[1..])
    ensures !Joins(p, parts) ==> After(p, parts) == Utf8(p) + TextOf(parts)
  {
    hide Utf8, TextOf;
    if p < 0 {
      assert Utf8(p) == "" by { NoCode(p); }
    } else {
      var all := [Unit(p, "")] + parts;
      TextStep(all);
      assert all[1..] == parts && (parts != [] ==> all[2..] == parts[1..]);
    }
  }

  lemma NoCode(p: int)
    requires p < 0
    ensures Utf8(p) == ""
  {
  }

  /** A code unit waits for the next part, however it is spelled. */
  lemma AfterUnit(code: CodeUnit, hex: string, parts: seq<Part>)
    ensures TextOf([Unit(code, hex)] + parts) == After(code, parts)
  {
    hide Utf8, TextOf;
    var a, b := [Unit(code, hex)] + parts, [Unit(code, "")] + parts;
    TextStep(a);
    TextStep(b);
    assert a[1..] == parts == b[1..];
    assert parts != [] ==> a[2..] == parts[1..] == b[2..];
  }

  lemma NibbleIs(c: char, v: nat)
    ensures SpellsNibble(c, v) <==> IsHex(c) && HexValue(c) == v % 0x10
  {
  }

  lemma Nibbles(code: CodeUnit, a: nat, b: nat, c: nat, d: nat)
    requires a < 16 && b < 16 && c < 16 && d < 16
    ensures code == a * 0x1000 + b * 0x100 + c * 0x10 + d <==>
            a == code / 0x1000 % 0x10 && b == code / 0x100 % 0x10 && c == code / 0x10 % 0x10 && d == code % 0x10
  {
    Nibble(code, a * 0x100 + b * 0x10 + c, d);
    Nibble(code / 0x10, a * 0x10 + b, c);
    Nibble(code / 0x10 / 0x10, a, b);
    assert code / 0x10 / 0x10 == code / 0x100 && code / 0x100 / 0x10 == code / 0x1000;
    assert code / 0x1000 % 0x10 == code / 0x1000;
  }

  lemma Nibble(x: nat, q: nat, r: nat)
    requires r < 16
    ensures x == q * 0x10 + r <==> q == x / 0x10 && r == x % 0x10
  {
  }

  lemma HexIs(hex: string, code: CodeUnit)
    ensures ValidPart(Unit(code, hex)) <==> AreHex(hex) && FromHex(hex) == code
  {
    if |hex| == 4 {
      NibbleIs(hex[0], code / 0x1000);
      NibbleIs(hex[1], code / 0x100);
      NibbleIs(hex[2], code / 0x10);
      NibbleIs(hex[3], code);
      if AreHex(hex) {
        Nibbles(code, HexValue(hex[0]), HexValue(hex[1]), HexValue(hex[2]), HexValue(hex[3]));
      }
      hide HexValue, IsHex, SpellsNibble;
    }
  }

  lemma StepHex(code: CodeUnit, hex: string, r: string, out: string, p: int)
    requires p < 0x10000 && ValidPart(Unit(code, hex))
    ensures ParseString(WritePart(Unit(code, hex)) + r, out, p) ==
            if IsLead(p) && IsTrail(code)
              then ParseString(r, out + Utf8((p - 0xD800) * 0x400 + (code - 0xDC00) + 0x10000), -1)
            else ParseString(r, out + Utf8(p), code)
  {
    HexIs(hex, code);
    var text := WritePart(Unit(code, hex)) + r;
    assert text[2..6] == hex && text[6..] == r && text[0] == '\\' && text[1] == 'u';
    hide FromHex, Utf8, AreHex;
  }

  lemma ShortIs(letter: char)
    ensures ValidPart(Short(letter)) <==> Unescaped(letter) != ""
    ensures ValidPart(Short(letter)) ==> Unescaped(letter) == Escaped(letter) && letter != 'u'
  {
  }

  /** A string of the grammar is read as what it says. */
  lemma {:induction false} ReadsString(parts: seq<Part>, t: string, out: string, p: int)
    requires ValidParts(parts) && p < 0x10000
    ensures ParseString(WriteParts(parts, t), out, p) == Done(out + After(p, parts), t)
    decreases |parts|
  {
    hide ParseString, Utf8, ValidPart, TextOf, After;
    AfterStep(p, parts);
    if parts == [] {
      StepEnd(t, out, p);
      TextNone();
      assert Utf8(p) + "" == Utf8(p);
    } else {
      ReadsPart(parts, t, out, p);
    }
  }

  lemma TextNone()
    ensures TextOf([]) == ""
  {
  }

  lemma ReadsPart(parts: seq<Part>, t: string, out: string, p: int)
    requires ValidParts(parts) && p < 0x10000 && parts != []
    ensures ParseString(WriteParts(parts, t), out, p) == Done(out + After(p, parts), t)
    decreases |parts|, 0
  {
    hide ParseString, Utf8, After;
    AfterStep(p, parts);
    var r := WriteParts(parts[1..], t);
    assert ValidPart(parts[0]);
    match parts[0]
    case Raw(c) =>
      StepPlain(c, r, out, p);
      ReadsString(parts[1..], t, out + Utf8(p) + [c], -1);
      assert After(-1, parts[1..]) == TextOf(parts[1..]) by { AfterStep(-1, parts[1..]); NoCode(-1); }
      Regroup(out + Utf8(p), [c], TextOf(parts[1..]));
      Regroup(out, Utf8(p), [c] + TextOf(parts[1..]));
    case Short(letter) =>
      ShortIs(letter);
      StepShort(letter, r, out, p);
      ReadsString(parts[1..], t, out + Utf8(p) + Escaped(letter), -1);
      assert After(-1, parts[1..]) == TextOf(parts[1..]) by { AfterStep(-1, parts[1..]); NoCode(-1); }
      Regroup(out + Utf8(p), Escaped(letter), TextOf(parts[1..]));
      Regroup(out, Utf8(p), Escaped(letter) + TextOf(parts[1..]));
    case Unit(code, hex) =>
      StepHex(code, hex, r, out, p);
      if Joins(p, parts) {
        var pt := 0x10000 + (p - 0xD800) * 0x400 + code - 0xDC00;
        ReadsString(parts[1..], t, out + Utf8(pt), -1);
        assert After(-1, parts[1..]) == TextOf(parts[1..]) by { AfterStep(-1, parts[1..]); NoCode(-1); }
        Regroup(out, Utf8(pt), TextOf(parts[1..]));
      } else {
        ReadsString(parts[1..], t, out + Utf8(p), code);
        AfterUnit(code, hex, parts[1..]);
        assert parts == [Unit(code, hex)] + parts[1..];
        Regroup(out, Utf8(p), TextOf(parts));
      }
  }

  /** The part that the parser reads next. */
  lemma NextPart(text: string, out: string, p: int) returns (part: Part, out': string, p': int)
    requires p < 0x10000 && ParseString(text, out, p).Done? && text[0] != '\"'
    ensures ValidPart(part) && p' < 0x10000
    ensures var n := |WritePart(part)|;
            && 0 < n <= |text| && text == WritePart(part) + text[n..]
            && ParseString(text, out, p) == ParseString(text[n..], out', p')
  {
    hide Utf8, AreHex, FromHex, ValidPart;
    out', p' := out + Utf8(p), -1;
    if text[0] != '\\' {
      part, out' := Raw(text[0]), out' + [text[0]];
      RawIs(text[0]);
    } else if text[1] == 'u' {
      var hex := text[2..6];
      var code := FromHex(hex);
      part := Unit(code, hex);
      HexIs(hex, code);
      assert text == text[..6] + text[6..] && text[..6] == "\\u" + hex;
      if IsLead(p) && IsTrail(code) {
        out' := out + Utf8((p - 0xD800) * 0x400 + (code - 0xDC00) + 0x10000);
      } else {
        p' := code;
      }
    } else {
      ShortIs(text[1]);
      part, out' := Short(text[1]), out' + Unescaped(text[1]);
      assert text == text[..2] + text[2..] && text[..2] == ['\\', text[1]];
    }
  }

  lemma RawIs(c: char)
    ensures ValidPart(Raw(c)) <==> c as int > 0x1F && c != '\"' && c != '\\'
  {
  }

  /** Whatever is read as a string is spelled by the grammar. */
  lemma {:induction false} StringIsSpelled(text: string, out: string, p: int) returns (parts: seq<Part>)
    requires p < 0x10000 && ParseString(text, out, p).Done?
    ensures ValidParts(parts) && text == WriteParts(parts, ParseString(text, out, p).rest)
    decreases |text|
  {
    hide ValidPart, WritePart;
    if text[0] == '\"' {
      parts := [];
      assert ParseString(text, out, p).rest == text[1..];
    } else {
      hide ParseString;
      var part, out', p' := NextPart(text, out, p);
      var more := StringIsSpelled(text[|WritePart(part)|..], out', p');
      parts := [part] + more;
      assert parts[1..] == more;
    }
  }

  // ---------- numbers ----------

  lemma {:induction false} WorthAppend(d: string, c: char)
    ensures Worth(d + [c]) == 10 * Worth(d) + (c as int - '0' as int)
  {
    if d != "" {
      WorthAppend(d[1..], c);
      assert (d + [c])[1..] == d[1..] + [c];
    }
  }

  lemma {:induction false} WorthIsValue(d: string)
    requires forall i | 0 <= i < |d| :: IsDigit(d[i])
    ensures Worth(d) == ValueOf(d)
  {
    if d != "" {
      WorthIsValue(d[..|d| - 1]);
      WorthAppend(d[..|d| - 1], d[|d| - 1]);
      assert d == d[..|d| - 1] + [d[|d| - 1]];
    }
  }

  /** What may follow a value: the end, space, or a token that ends it. */
  predicate Follows(t: string) {
    t == "" || t[0] in [',', ']', '}'] || IsSpace(t[0])
  }

  lemma FractionRead(f: Option<string>, y: string)
    requires (f.Some? ==> AreDigits(f.value)) && (y != "" ==> y[0] != '.' && !IsDigit(y[0]))
    ensures ParseFraction(WriteFraction(f, y)) == Done((), y)
  {
    if f.Some? {
      var x := WriteFraction(f, y);
      assert x[1..] == f.value + y;
      SpanIs(f.value, y);
      assert (f.value + y)[|f.value|..] == y;
    }
  }

  /** The text after the mark of an exponent: what was its sign, and the rest. */
  function Unsigned(u: string): string {
    if Starts(u, {'+', '-'}) then u[1..] else u
  }

  lemma SignRead(sign: string, u: string)
    requires (sign == "" || sign == "+" || sign == "-") && u != "" && IsDigit(u[0])
    ensures Unsigned(sign + u) == u
  {
    assert sign + u == u || (sign + u)[1..] == u;
  }

  lemma SignIsSpelled(u: string) returns (sign: string)
    ensures (sign == "" || sign == "+" || sign == "-") && u == sign + Unsigned(u)
  {
    sign := if Starts(u, {'+', '-'}) then [u[0]] else "";
    assert sign + Unsigned(u) == u;
  }

  lemma ExponentStep(text: string)
    ensures ParseExponent(text) ==
            if text == "" || (text[0] != 'e' && text[0] != 'E') then Done((), text)
            else if Span(Unsigned(text[1..])) == 0 then Failed
            else Done((), Unsigned(text[1..])[Span(Unsigned(text[1..]))..])
  {
    hide Span;
  }

  lemma ExponentRead(e: Option<Exponent>, t: string)
    requires (e.Some? ==> ValidExponent(e.value)) && Follows(t)
    ensures ParseExponent(WriteExponent(e, t)) == Done((), t)
  {
    hide ParseExponent, Unsigned, Span;
    var x := WriteExponent(e, t);
    ExponentStep(x);
    if e.Some? {
      var u := e.value.digits + t;
      assert x[1..] == e.value.sign + u;
      SpanIs(e.value.digits, t);
      assert u[0] == e.value.digits[0] && u[|e.value.digits|..] == t;
      SignRead(e.value.sign, u);
    }
  }

  /** Once the integer part and the other parts are found, this is what the number is. */
  lemma UnsignedIs(text: string, digits: string, negative: bool, n: nat, t: string)
    requires |digits| <= |text| && n == Span(digits) && n > 0 && (digits[0] == '0' ==> n == 1)
    requires ParseFraction(digits[n..]).Done? && ParseExponent(ParseFraction(digits[n..]).rest) == Done((), t)
    ensures ParseUnsigned(text, digits, negative) ==
            if Starts(digits[n..], {'.', 'e', 'E'}) then Done(Decimal(text[..|text| - |t|]), t)
            else Done(Number(if negative then 0 - ValueOf(digits[..n]) else ValueOf(digits[..n])), t)
  {
    hide Span, ValueOf;
  }

  lemma WriteNumeralAppends(n: Numeral, t: string)
    ensures WriteNumeral(n, t) == WriteNumeral(n, "") + t
  {
    var e, e' := WriteExponent(n.exponent, t), WriteExponent(n.exponent, "");
    assert e == e' + t;
    assert WriteFraction(n.fraction, e) == WriteFraction(n.fraction, e') + t;
  }

  /** The parts after the integer part. */
  lemma TailRead(n: Numeral, t: string)
    requires ValidNumeral(n) && Follows(t)
    ensures var y := WriteExponent(n.exponent, t);
            var x := WriteFraction(n.fraction, y);
            && ParseFraction(x) == Done((), y) && ParseExponent(y) == Done((), t) && (x != "" ==> !IsDigit(x[0]))
            && (Starts(x, {'.', 'e', 'E'}) <==> n.fraction.Some? || n.exponent.Some?)
  {
    hide ParseFraction, ParseExponent, AreDigits;
    var y := WriteExponent(n.exponent, t);
    assert y != "" ==> y[0] != '.' && !IsDigit(y[0]);
    FractionRead(n.fraction, y);
    ExponentRead(n.exponent, t);
  }

  lemma ReadsNumeral(n: Numeral, t: string)
    requires ValidNumeral(n) && Follows(t)
    ensures WriteNumeral(n, t) != "" && ParseNumber(WriteNumeral(n, t)) == Done(NumeralValue(n), t)
  {
    hide Span, ParseFraction, ParseExponent, ParseUnsigned, ValueOf, Worth, WriteFraction, WriteExponent, Starts,
         Follows;
    var x := WriteFraction(n.fraction, WriteExponent(n.exponent, t));
    var digits, text := n.whole + x, WriteNumeral(n, t);
    TailRead(n, t);
    SpanIs(n.whole, x);
    assert digits[|n.whole|..] == x && digits[..|n.whole|] == n.whole && digits[0] == n.whole[0];
    UnsignedIs(text, digits, n.negative, |n.whole|, t);
    WorthIsValue(n.whole);
    WriteNumeralAppends(n, t);
    assert (WriteNumeral(n, "") + t)[..|text| - |t|] == WriteNumeral(n, "");
    assert n.negative ==> text[1..] == digits;
  }

  lemma FractionIsSpelled(text: string) returns (f: Option<string>)
    requires ParseFraction(text).Done?
    ensures (f.Some? ==> AreDigits(f.value)) && text == WriteFraction(f, ParseFraction(text).rest)
  {
    if Starts(text, {'.'}) {
      var u := text[1..];
      f := Some(u[..Span(u)]);
      assert text == ['.'] + (u[..Span(u)] + u[Span(u)..]);
    } else {
      f := None;
    }
  }

  lemma ExponentIsSpelled(text: string) returns (e: Option<Exponent>)
    requires ParseExponent(text).Done?
    ensures (e.Some? ==> ValidExponent(e.value)) && text == WriteExponent(e, ParseExponent(text).rest)
  {
    hide ParseExponent, Unsigned, Span;
    ExponentStep(text);
    e := None;
    if text != "" && (text[0] == 'e' || text[0] == 'E') {
      var sign := SignIsSpelled(text[1..]);
      var v := Unsigned(text[1..]);
      e := Some(Exponent(text[0], sign, v[..Span(v)]));
      assert v == v[..Span(v)] + v[Span(v)..] && text == [text[0]] + (sign + v);
    }
  }

  /** The number after its sign. */
  lemma UnsignedIsSpelled(text: string, digits: string, negative: bool) returns (n: Numeral)
    requires |digits| <= |text| && ParseUnsigned(text, digits, negative).Done?
    ensures ValidNumeral(n) && n.negative == negative
    ensures digits == WriteUnsigned(n, ParseUnsigned(text, digits, negative).rest)
  {
    hide Span, ParseFraction, ParseExponent, ValueOf, WriteFraction, WriteExponent, ValidExponent;
    var k := Span(digits);
    var x := digits[k..];
    var f, e := None, None;
    if Starts(x, {'.', 'e', 'E'}) {
      f := FractionIsSpelled(x);
      e := ExponentIsSpelled(ParseFraction(x).rest);
    } else {
      NothingWritten(x);
    }
    n := Numeral(negative, digits[..k], f, e);
    assert digits == digits[..k] + x;
  }

  lemma NothingWritten(t: string)
    ensures WriteFraction(None, WriteExponent(None, t)) == t
  {
  }

  /** Whatever is read as a number is spelled by the grammar. */
  lemma NumberIsSpelled(text: string) returns (n: Numeral)
    requires text != "" && ParseNumber(text).Done?
    ensures ValidNumeral(n) && text == WriteNumeral(n, ParseNumber(text).rest)
  {
    hide ParseUnsigned, ValidNumeral, WriteUnsigned;
    n := UnsignedIsSpelled(text, if text[0] == '-' then text[1..] else text, text[0] == '-');
    assert text[0] == '-' ==> text == "-" + text[1..];
  }
}
