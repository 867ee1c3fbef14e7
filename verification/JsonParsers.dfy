/** The printer and the parser of JSON as they run (src/json11.cpp): out grows, and an index moves over
    the text and never passes its end. */
module JsonParsers {
  import opened Sequences
  import opened JsonTexts
  import JsonGrammars
  import JsonReaders

  // ---------- dump of a string ----------

  /** The loop over the characters; two more are passed over at a line or paragraph separator. */
  method DumpString(value: string, before: string) returns (out: string)
    ensures out == before + Quote(value)
  {
    hide Escape, EscapeChar;
    out := before + "\"";
    ghost var begun := out;
    var i := 0;
    assert value[0..] == value;
    while i < |value|
      invariant i <= |value| && out + Escape(value[i..]) == begun + Escape(value)
    {
      var ch := value[i];
      ghost var rest, start := value[i..], out;
      EscapeStep(rest);
      if ch as int == 0xE2 && i + 2 < |value| && value[i + 1] as int == 0x80 && value[i + 2] as int == 0xA8 {
        out := out + "\\u2028";
        i := i + 2;
        Regroup(start, "\\u2028", Escape(rest[3..]));
        Drop(value, i - 2, 3);
      } else if ch as int == 0xE2 && i + 2 < |value| && value[i + 1] as int == 0x80 && value[i + 2] as int == 0xA9 {
        out := out + "\\u2029";
        i := i + 2;
        Regroup(start, "\\u2029", Escape(rest[3..]));
        Drop(value, i - 2, 3);
      } else {
        out := out + EscapeChar(ch);
        Regroup(start, EscapeChar(ch), Escape(rest[1..]));
        Drop(value, i, 1);
      }
      i := i + 1;
    }
    EscapeNone();
    assert value[i..] == "" && out + "" == out;
    out := out + "\"";
    Regroup(before, "\"", Escape(value));
    Regroup(before, "\"" + Escape(value), "\"");
  }

  /** What the loop over the items still has to write. */
  function ItemsLeft(items: seq<Json>, first: bool): string
    requires forall i :: 0 <= i < |items| ==> Plain(items[i])
  {
    if items == [] then "" else (if first then "" else ", ") + DumpItems(items)
  }

  function MembersLeft(members: seq<Member>, first: bool): string
    requires forall i :: 0 <= i < |members| ==> Plain(members[i].value)
  {
    if members == [] then "" else (if first then "" else ", ") + DumpMembers(members)
  }

  lemma ItemsLeftStep(items: seq<Json>, first: bool, out: string)
    requires items != [] && forall i :: 0 <= i < |items| ==> Plain(items[i])
    ensures out + ItemsLeft(items, first) == (if first then out else out + ", ") + Dump(items[0]) +
            ItemsLeft(items[1..], false)
  {
    assert DumpItems(items) == Dump(items[0]) + ItemsLeft(items[1..], false);
    var rest := ItemsLeft(items[1..], false);
    hide Dump, DumpItems;
    Regroup(out, if first then "" else ", ", Dump(items[0]) + rest);
    Regroup(if first then out else out + ", ", Dump(items[0]), rest);
    assert out + "" == out;
  }

  lemma MembersLeftStep(members: seq<Member>, first: bool, out: string)
    requires members != [] && forall i :: 0 <= i < |members| ==> Plain(members[i].value)
    ensures out + MembersLeft(members, first) ==
            (if first then out else out + ", ") + Quote(members[0].key) + ": " + Dump(members[0].value) +
              MembersLeft(members[1..], false)
  {
    var rest := MembersLeft(members[1..], false);
    assert DumpMembers(members) == Quote(members[0].key) + ": " + Dump(members[0].value) + rest;
    hide Dump, DumpMembers, Quote;
    var start := if first then out else out + ", ";
    assert out + "" == out;
    Regroup(out, if first then "" else ", ", Quote(members[0].key) + ": " + Dump(members[0].value) + rest);
    Regroup4(start, Quote(members[0].key), ": ", Dump(members[0].value), rest);
  }

  lemma Regroup4(out: string, a: string, b: string, c: string, d: string)
    ensures out + (a + b + c + d) == out + a + b + c + d
  {
  }

  lemma LeftNone(first: bool)
    ensures ItemsLeft([], first) == "" && MembersLeft([], first) == ""
  {
  }

  method DumpValue(v: Json, before: string) returns (out: string)
    requires Plain(v)
    ensures out == before + Dump(v)
    decreases v, 1
  {
    match v
    case Null => out := before + "null";
    case Bool(b) => out := before + if b then "true" else "false";
    case Number(n) => out := before + DumpNumber(n);
    case String(s) => out := DumpString(s, before);
    case Array(items) => out := DumpArray(items, before);
    case Object(members) => out := DumpObject(members, before);
  }

  method DumpArray(items: seq<Json>, before: string) returns (out: string)
    requires Plain(Array(items))
    ensures out == before + Dump(Array(items))
    decreases items
  {
    hide Dump, DumpItems, ItemsLeft;
    var first, i := true, 0;
    out := before + "[";
    ghost var begun := out;
    assert items[0..] == items;
    while i < |items|
      invariant i <= |items| && first == (i == 0)
      invariant out + ItemsLeft(items[i..], first) == begun + ItemsLeft(items, true)
    {
      ItemsLeftStep(items[i..], first, out);
      assert items[i..][1..] == items[i + 1..];
      if !first {
        out := out + ", ";
      }
      out := DumpValue(items[i], out);
      first := false;
      i := i + 1;
    }
    LeftNone(first);
    assert items[i..] == [] && out + "" == out;
    ArrayText(items, before);
    out := out + "]";
  }

  lemma ArrayText(items: seq<Json>, before: string)
    requires Plain(Array(items))
    ensures before + Dump(Array(items)) == before + "[" + ItemsLeft(items, true) + "]"
  {
    assert Dump(Array(items)) == "[" + ItemsLeft(items, true) + "]";
    hide Dump, ItemsLeft;
  }

  method DumpObject(members: seq<Member>, before: string) returns (out: string)
    requires Plain(Object(members))
    ensures out == before + Dump(Object(members))
    decreases members
  {
    hide Dump, DumpMembers, MembersLeft, Quote;
    var first, i := true, 0;
    out := before + "{";
    ghost var begun := out;
    assert members[0..] == members;
    while i < |members|
      invariant i <= |members| && first == (i == 0)
      invariant out + MembersLeft(members[i..], first) == begun + MembersLeft(members, true)
    {
      MembersLeftStep(members[i..], first, out);
      assert members[i..][1..] == members[i + 1..];
      if !first {
        out := out + ", ";
      }
      out := DumpString(members[i].key, out);
      out := out + ": ";
      out := DumpValue(members[i].value, out);
      first := false;
      i := i + 1;
    }
    LeftNone(first);
    assert members[i..] == [] && out + "" == out;
    ObjectText(members, before);
    out := out + "}";
  }

  lemma ObjectText(members: seq<Member>, before: string)
    requires Plain(Object(members))
    ensures before + Dump(Object(members)) == before + "{" + MembersLeft(members, true) + "}"
  {
    assert Dump(Object(members)) == "{" + MembersLeft(members, true) + "}";
    hide Dump, MembersLeft;
  }

  lemma EscapeNone()
    ensures Escape("") == ""
  {
  }

  lemma EscapeStep(s: string)
    requires s != ""
    ensures IsSeparator(s) ==> Escape(s) == (if s[2] as int == 0xA8 then "\\u2028" else "\\u2029") + Escape(s[3..])
    ensures !IsSeparator(s) ==> Escape(s) == EscapeChar(s[0]) + Escape(s[1..])
  {
    SeparatorEscapes();
    hide UnicodeEscape, EscapeChar;
  }

  lemma SeparatorEscapes()
    ensures UnicodeEscape(0x2028) == "\\u2028" && UnicodeEscape(0x2029) == "\\u2029"
  {
    assert HexDigit(2) == '2' && HexDigit(0) == '0' && HexDigit(8) == '8' && HexDigit(9) == '9';
    hide HexDigit;
    assert Hex(0x2028) == ['2', '0', '2', '8'];
    assert Hex(0x2029) == ['2', '0', '2', '9'];
  }

  // ---------- the parser ----------

  lemma Drop(s: string, k: nat, j: nat)
    requires k + j <= |s|
    ensures s[k..][j..] == s[k + j..]
  {
  }

  lemma Slice(s: string, k: nat, a: nat, b: nat)
    requires a <= b && k + b <= |s|
    ensures s[k..][a..b] == s[k + a..k + b]
  {
  }

  /** One round of the loop over the characters of a string. */
  lemma StringStep(text: string, out: string, pending: int)
    requires pending < 0x10000 && text != "" && text[0] as int > 0x1F
    ensures text[0] == '\"' ==> ParseString(text, out, pending) == Done(out + Utf8(pending), text[1..])
    ensures text[0] != '\"' && text[0] != '\\' ==>
              ParseString(text, out, pending) == ParseString(text[1..], out + Utf8(pending) + [text[0]], -1)
    ensures text[0] == '\\' && |text| > 1 && text[1] != 'u' ==>
              ParseString(text, out, pending) ==
              if Unescaped(text[1]) == "" then Failed
              else ParseString(text[2..], out + Utf8(pending) + Unescaped(text[1]), -1)
  {
    hide Unescaped, Utf8, AreHex, FromHex;
  }

  lemma UnicodeStep(text: string, out: string, pending: int)
    requires pending < 0x10000 && |text| >= 2 && text[0] == '\\' && text[1] == 'u'
    ensures var t := text[2..];
            ParseString(text, out, pending) ==
            if |t| < 4 || !AreHex(t[..4]) then Failed
            else
              var codepoint := FromHex(t[..4]);
              if IsLead(pending) && IsTrail(codepoint) then
                ParseString(t[4..], out + Utf8((pending - 0xD800) * 0x400 + (codepoint - 0xDC00) + 0x10000), -1)
              else ParseString(t[4..], out + Utf8(pending), codepoint)
  {
    if |text| >= 6 {
      assert text[2..6] == text[2..][..4] && text[6..] == text[2..][4..];
    }
    hide Unescaped, Utf8, AreHex, FromHex;
  }

  lemma StringStops(text: string, out: string, pending: int)
    requires pending < 0x10000 && (text == "" || text[0] as int <= 0x1F || text == "\\")
    ensures ParseString(text, out, pending) == Failed
  {
  }

  /** What follows an opening bracket. */
  function ArrayFrom(text: string, depth: nat): Parsed<Json> {
    var u := Skip(text);
    if u == "" then Failed
    else if u[0] == ']' then Done(Array([]), u[1..])
    else ParseItems(u, depth, [])
  }

  /** What follows an opening brace. */
  function ObjectFrom(text: string, depth: nat): Parsed<Json> {
    var u := Skip(text);
    if u == "" then Failed
    else if u[0] == '}' then Done(Object([]), u[1..])
    else ParseMembers(u, depth, [])
  }

  lemma ItemsStep(text: string, depth: nat, data: seq<Json>)
    ensures ParseItems(text, depth, data) ==
            var v := ParseValue(text, depth + 1);
            if v.Failed? then Failed
            else
              var f := Following(v.rest, ']');
              if f.Failed? then Failed
              else if f.value then Done(Array(data + [v.value]), f.rest)
              else ParseItems(f.rest, depth, data + [v.value])
  {
  }

  lemma KeyStep(text: string)
    ensures ParseKey(text) ==
            if text == "" || text[0] != '\"' then Failed
            else
              var key := ParseString(text[1..], "", -1);
              if key.Failed? then Failed
              else
                var t := Skip(key.rest);
                if t == "" || t[0] != ':' then Failed else Done(key.value, t[1..])
  {
  }

  lemma MembersStep(text: string, depth: nat, data: seq<Member>)
    ensures ParseMembers(text, depth, data) ==
            var key := ParseKey(text);
            if key.Failed? then Failed
            else
              var v := ParseValue(key.rest, depth + 1);
              if v.Failed? then Failed
              else
                var f := Following(v.rest, '}');
                if f.Failed? then Failed
                else if f.value then Done(Object(Insert(data, key.value, v.value)), f.rest)
                else ParseMembers(f.rest, depth, Insert(data, key.value, v.value))
  {
  }

  class JsonParser {
    const str: string
    var i: nat
    var failed: bool

    constructor (str: string)
      ensures this.str == str && i == 0 && !failed
    {
      this.str, i, failed := str, 0, false;
    }

    /** The text that is left. */
    function Rest(): string
      requires i <= |str|
      reads this
    {
      str[i..]
    }

    /** Beyond the last character there is a zero. */
    function Peek(): char
      requires i <= |str|
      reads this
    {
      if i < |str| then str[i] else 0 as char
    }

    method ConsumeWhitespace()
      requires i <= |str|
      modifies this`i
      ensures old(i) <= i <= |str| && Rest() == Skip(old(Rest()))
    {
      while IsSpace(Peek())
        invariant old(i) <= i <= |str| && Skip(Rest()) == Skip(old(Rest()))
        decreases |str| - i
      {
        assert Rest()[1..] == str[i + 1..];
        i := i + 1;
      }
    }

    /** The next character that is no space; zero, and failure, at the end. */
    method GetNextToken() returns (ch: char)
      requires i <= |str|
      modifies this
      ensures i <= |str|
      ensures var rest := Skip(old(Rest()));
              if rest == "" then failed && ch == 0 as char && i == |str|
              else
                && failed == old(failed) && old(i) < i && ch == str[i - 1] && str[i - 1..] == rest
                && Rest() == rest[1..] && ch == rest[0]
    {
      ConsumeWhitespace();
      if i == |str| {
        failed := true;
        return 0 as char;
      }
      ch := str[i];
      assert str[i..][1..] == str[i + 1..];
      i := i + 1;
    }

    /** The four digits of an escape. */
    method ReadHex() returns (ok: bool, codepoint: nat)
      requires i <= |str|
      modifies this`i
      ensures i <= |str| && codepoint < 0x10000
      ensures var t := old(Rest());
              if |t| < 4 || !AreHex(t[..4]) then !ok
              else ok && codepoint == FromHex(t[..4]) && Rest() == t[4..]
    {
      var esc := str[i..if i + 4 <= |str| then i + 4 else |str|];
      if i + 4 <= |str| {
        Slice(str, i, 0, 4);
        Drop(str, i, 4);
      }
      if !AreHex(esc) {
        return false, 0;
      }
      i := i + 4;
      return true, FromHex(esc);
    }

    method ParseStringBody() returns (out: string)
      requires i <= |str|
      modifies this
      ensures i <= |str|
      ensures match ParseString(old(Rest()), "", -1) {
                case Done(value, rest) => failed == old(failed) && out == value && Rest() == rest
                case Failed => failed
              }
    {
      hide Utf8, FromHex, AreHex, Unescaped, ParseString;
      out := "";
      var pending: int := -1;
      while true
        invariant i <= |str| && pending < 0x10000 && failed == old(failed)
        invariant ParseString(Rest(), out, pending) == ParseString(old(Rest()), "", -1)
        decreases |str| - i
      {
        if i == |str| {
          StringStops(Rest(), out, pending);
          failed := true;
          return "";
        }
        ghost var rest := Rest();
        Drop(str, i, 1);
        var ch := str[i];
        i := i + 1;
        if ch == '\"' {
          StringStep(rest, out, pending);
          out := out + Utf8(pending);
          return out;
        }
        if ch as int <= 0x1F {
          StringStops(rest, out, pending);
          failed := true;
          return "";
        }
        if ch != '\\' {
          StringStep(rest, out, pending);
          out := out + Utf8(pending);
          pending := -1;
          out := out + [ch];
          continue;
        }
        if i == |str| {
          assert rest == "\\";
          StringStops(rest, out, pending);
          failed := true;
          return "";
        }
        Drop(str, i - 1, 2);
        ch := str[i];
        i := i + 1;
        assert rest[0] == '\\' && rest[1] == ch;
        if ch == 'u' {
          UnicodeStep(rest, out, pending);
          var ok, codepoint := ReadHex();
          if !ok {
            failed := true;
            return "";
          }
          if IsLead(pending) && IsTrail(codepoint) {
            out := out + Utf8((pending - 0xD800) * 0x400 + (codepoint - 0xDC00) + 0x10000);
            pending := -1;
          } else {
            out := out + Utf8(pending);
            pending := codepoint;
          }
          continue;
        }
        StringStep(rest, out, pending);
        out := out + Utf8(pending);
        pending := -1;
        if Unescaped(ch) == "" {
          failed := true;
          return "";
        }
        out := out + Unescaped(ch);
      }
    }

    method SkipDigits()
      requires i <= |str|
      modifies this`i
      ensures i == old(i) + Span(old(Rest())) <= |str|
    {
      while IsDigit(Peek())
        invariant i <= |str| && i + Span(Rest()) == old(i) + Span(old(Rest()))
        decreases |str| - i
      {
        assert Rest()[1..] == str[i + 1..];
        i := i + 1;
      }
    }

    method Expect(expected: string, value: Json) returns (result: Json)
      requires 1 <= i <= |str| && expected != ""
      modifies this
      ensures i <= |str|
      ensures match JsonTexts.Expect(old(str[i - 1..]), expected, value) {
                case Done(v, rest) => failed == old(failed) && result == v && Rest() == rest
                case Failed => failed
              }
    {
      i := i - 1;
      var found := str[i..if i + |expected| <= |str| then i + |expected| else |str|];
      ghost var text := Rest();
      if found == expected {
        assert text[..|expected|] == expected && text[|expected|..] == str[i + |expected|..];
        i := i + |expected|;
        return value;
      }
      assert expected <= text ==> text[..|expected|] == found;
      failed := true;
      return Null;
    }

    method IntegerPart() returns (ok: bool)
      requires i <= |str|
      modifies this`i
      ensures i <= |str|
      ensures var digits := old(Rest());
              var n := Span(digits);
              ok == (n > 0 && (digits[0] == '0' ==> n == 1)) && (ok ==> i == old(i) + n)
    {
      if i < |str| {
        Drop(str, i, 1);
      }
      if Peek() == '0' {
        i := i + 1;
        return !IsDigit(Peek());
      } else if IsDigit(Peek()) {
        i := i + 1;
        SkipDigits();
        return true;
      } else {
        return false;
      }
    }

    method SomeDigits() returns (ok: bool)
      requires i <= |str|
      modifies this`i
      ensures old(i) <= i <= |str|
      ensures var n := Span(old(Rest())); ok == (n > 0) && (ok ==> Rest() == old(Rest())[n..])
    {
      Drop(str, i, Span(Rest()));
      if !IsDigit(Peek()) {
        return false;
      }
      SkipDigits();
      return true;
    }

    method FractionPart() returns (ok: bool)
      requires i <= |str|
      modifies this`i
      ensures old(i) <= i <= |str|
      ensures match ParseFraction(old(Rest())) {
                case Done(_, rest) => ok && Rest() == rest
                case Failed => !ok
              }
    {
      ok := true;
      if Peek() == '.' {
        Drop(str, i, 1);
        i := i + 1;
        ok := SomeDigits();
      }
    }

    method OptionalSign()
      requires i <= |str|
      modifies this`i
      ensures old(i) <= i <= |str|
      ensures Rest() == if Starts(old(Rest()), {'+', '-'}) then old(Rest())[1..] else old(Rest())
    {
      if Peek() == '+' || Peek() == '-' {
        Drop(str, i, 1);
        i := i + 1;
      }
    }

    method ExponentPart() returns (ok: bool)
      requires i <= |str|
      modifies this`i
      ensures old(i) <= i <= |str|
      ensures match ParseExponent(old(Rest())) {
                case Done(_, rest) => ok && Rest() == rest
                case Failed => !ok
              }
    {
      hide Span;
      ok := true;
      if Peek() == 'e' || Peek() == 'E' {
        Drop(str, i, 1);
        i := i + 1;
        OptionalSign();
        ok := SomeDigits();
      }
    }

    /** An integer is what atoi, or atof for a long one, reads from the text. */
    method ParseNumber() returns (result: Json)
      requires i < |str|
      modifies this
      ensures i <= |str|
      ensures match JsonTexts.ParseNumber(old(Rest())) {
                case Done(value, rest) => failed == old(failed) && result == value && Rest() == rest
                case Failed => failed
              }
    {
      var start, negative := i, str[i] == '-';
      Drop(str, i, 1);
      if negative {
        i := i + 1;
      }
      result := ParseUnsignedPart(start, negative);
    }

    method ParseUnsignedPart(start: nat, negative: bool) returns (result: Json)
      requires start <= i <= |str|
      modifies this
      ensures i <= |str|
      ensures match ParseUnsigned(str[start..], old(Rest()), negative) {
                case Done(value, rest) => failed == old(failed) && result == value && Rest() == rest
                case Failed => failed
              }
    {
      hide Span, ValueOf, ParseFraction, ParseExponent;
      var first := i;
      ghost var n := Span(Rest());
      var ok := IntegerPart();
      if !ok {
        failed := true;
        return Null;
      }
      Drop(str, first, n);
      Slice(str, first, 0, n);
      if Peek() != '.' && Peek() != 'e' && Peek() != 'E' {
        var value: int := ValueOf(str[first..i]);
        return Number(if negative then 0 - value else value);
      }
      ok := FractionPart();
      if ok {
        ok := ExponentPart();
      }
      if !ok {
        failed := true;
        return Null;
      }
      Slice(str, start, 0, i - start);
      return Decimal(str[start..i]);
    }

    /** The parser is where the specification says, or has failed as it says. */
    ghost predicate Meets(r: Parsed<Json>, result: Json)
      requires i <= |str|
      reads this
    {
      match r
      case Done(value, rest) => !failed && result == value && Rest() == rest
      case Failed => failed
    }

    /** A parse that has failed once has failed. */
    method ParseJson(depth: nat) returns (result: Json)
      requires i <= |str| && depth <= MAX_DEPTH + 1
      modifies this
      ensures i <= |str| && (old(failed) ==> failed)
      ensures !old(failed) ==> Meets(ParseValue(old(Rest()), depth), result)
      decreases MAX_DEPTH + 1 - depth, 2
    {
      hide ParseItems, ParseMembers, ParseString, JsonTexts.ParseNumber;
      if depth > MAX_DEPTH {
        failed := true;
        return Null;
      }
      var ch := GetNextToken();
      if failed {
        return Null;
      }
      if ch == '-' || IsDigit(ch) {
        i := i - 1;
        result := ParseNumber();
      } else if ch == 't' {
        result := Expect("true", Bool(true));
      } else if ch == 'f' {
        result := Expect("false", Bool(false));
      } else if ch == 'n' {
        result := Expect("null", Null);
      } else if ch == '\"' {
        var s := ParseStringBody();
        return String(s);
      } else if ch == '{' {
        result := ParseObjectBody(depth);
      } else if ch == '[' {
        result := ParseArrayBody(depth);
      } else {
        failed := true;
        return Null;
      }
    }

    /** What both loops do after an element: the end, or a comma and the first character of the next. */
    method NextOrEnd(end: char) returns (done: bool)
      requires i <= |str| && !failed
      modifies this
      ensures old(i) <= i <= |str|
      ensures match Following(old(Rest()), end) {
                case Done(last, rest) => !failed && done == last && old(i) < i
                  && (if last then Rest() else str[i - 1..]) == rest
                case Failed => failed
              }
    {
      var ch := GetNextToken();
      if ch == end {
        return true;
      }
      if ch != ',' {
        failed := true;
        return false;
      }
      ch := GetNextToken();
      return false;
    }

    method ParseArrayBody(depth: nat) returns (result: Json)
      requires 1 <= i <= |str| && depth <= MAX_DEPTH && !failed
      modifies this
      ensures i <= |str| && Meets(ArrayFrom(old(Rest()), depth), result)
      decreases MAX_DEPTH + 1 - depth, 0
    {
      hide ParseValue, ParseItems, ParseMembers, ParseString, Following, Skip;
      ghost var target := ArrayFrom(Rest(), depth);
      var data: seq<Json> := [];
      var ch := GetNextToken();
      if ch == ']' {
        return Array(data);
      }
      while true
        invariant 1 <= i <= |str|
        invariant failed ==> target.Failed?
        invariant !failed ==> target == ParseItems(str[i - 1..], depth, data)
        decreases |str| - i
      {
        i := i - 1;
        ItemsStep(Rest(), depth, data);
        var item := ParseJson(depth + 1);
        if failed {
          return Null;
        }
        data := data + [item];
        var done := NextOrEnd(']');
        if failed {
          return Null;
        }
        if done {
          break;
        }
      }
      return Array(data);
    }

    /** The key and the colon after it; the first character has been read. */
    method ParseKeyPart(ch: char) returns (key: string)
      requires 1 <= i <= |str| && !failed && ch == str[i - 1]
      modifies this
      ensures i <= |str|
      ensures match ParseKey(old(str[i - 1..])) {
                case Done(value, rest) => !failed && key == value && Rest() == rest && old(i) < i
                case Failed => failed
              }
    {
      KeyStep(str[i - 1..]);
      hide ParseKey, ParseString, Skip;
      if ch != '\"' {
        failed := true;
        return "";
      }
      Drop(str, i - 1, 1);
      key := ParseStringBody();
      if failed {
        return "";
      }
      var colon := GetNextToken();
      if colon != ':' {
        failed := true;
      }
    }

    /** A key and its value; the first character has been read. */
    method ParseMember(depth: nat) returns (key: string, value: Json)
      requires 1 <= i <= |str| && depth <= MAX_DEPTH && !failed
      modifies this
      ensures i <= |str|
      ensures match ParseKey(old(str[i - 1..])) {
                case Failed => failed
                case Done(k, rest) =>
                  key == k && Meets(ParseValue(rest, depth + 1), value) && (!failed ==> old(i) < i)
              }
      decreases MAX_DEPTH + 1 - depth, 0
    {
      hide ParseKey, ParseValue;
      value := Null;
      key := ParseKeyPart(str[i - 1]);
      if failed {
        return;
      }
      value := ParseJson(depth + 1);
    }

    method ParseObjectBody(depth: nat) returns (result: Json)
      requires 1 <= i <= |str| && depth <= MAX_DEPTH && !failed
      modifies this
      ensures i <= |str| && Meets(ObjectFrom(old(Rest()), depth), result)
      decreases MAX_DEPTH + 1 - depth, 1
    {
      hide ParseValue, ParseItems, ParseMembers, ParseString, ParseKey, Following, Insert, Skip;
      ghost var target := ObjectFrom(Rest(), depth);
      var data: seq<Member> := [];
      var ch := GetNextToken();
      if ch == '}' {
        return Object(data);
      }
      while true
        invariant 1 <= i <= |str|
        invariant if failed then target.Failed? else target == ParseMembers(str[i - 1..], depth, data)
        decreases |str| - i
      {
        if failed {
          return Null;
        }
        MembersStep(str[i - 1..], depth, data);
        var key, value := ParseMember(depth);
        if failed {
          return Null;
        }
        data := Insert(data, key, value);
        var done := NextOrEnd('}');
        if failed {
          return Null;
        }
        if done {
          return Object(data);
        }
      }
    }
  }

  /** Json::parse, with true for a failure. */
  method Parse(text: string) returns (result: Json, failed: bool)
    ensures match JsonTexts.Parse(text) {
              case Done(value, _) => !failed && result == value
              case Failed => failed
            }
    ensures !failed <==> exists before, doc, after :: JsonGrammars.IsText(text, before, doc, after)
    ensures !failed ==> exists before, doc, after ::
              JsonGrammars.IsText(text, before, doc, after) && JsonGrammars.Means(doc, result)
  {
    JsonReaders.ParseSucceeds(text);
    if JsonTexts.Parse(text).Done? {
      JsonReaders.ParseExact(text, JsonTexts.Parse(text).value);
    }
    var parser := new JsonParser(text);
    result := parser.ParseJson(0);
    parser.ConsumeWhitespace();
    if parser.i != |text| {
      return Null, true;
    }
    return result, parser.failed;
  }
}
