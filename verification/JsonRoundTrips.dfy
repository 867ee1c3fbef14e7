/** What the parser makes of what dump writes (src/json11.cpp): the same value, for all byte strings,
    as long as the value is nested no deeper than the parser goes. */
module JsonRoundTrips {
  import opened Sequences
  import opened JsonTexts

  // ---------- strings ----------

  lemma StepPlain(c: char, r: string, out: string, p: int)
    requires p < 0x10000 && c != '\"' && c != '\\' && c as int > 0x1F
    ensures ParseString([c] + r, out, p) == ParseString(r, out + Utf8(p) + [c], -1)
  {
    assert ([c] + r)[1..] == r;
  }

  lemma StepShort(c: char, r: string, out: string, p: int)
    requires p < 0x10000 && c != 'u' && Unescaped(c) != ""
    ensures ParseString(['\\', c] + r, out, p) == ParseString(r, out + Utf8(p) + Unescaped(c), -1)
  {
    assert (['\\', c] + r)[2..] == r;
  }

  lemma StepUnicode(v: nat, r: string, out: string, p: int)
    requires p < 0x10000 && v < 0x10000
    ensures ParseString(UnicodeEscape(v) + r, out, p) ==
            if IsLead(p) && IsTrail(v)
              then ParseString(r, out + Utf8((p - 0xD800) * 0x400 + (v - 0xDC00) + 0x10000), -1)
            else ParseString(r, out + Utf8(p), v)
  {
    var text := UnicodeEscape(v) + r;
    assert text[2..6] == Hex(v) && text[6..] == r && text[0] == '\\' && text[1] == 'u';
    hide Hex, FromHex, Utf8;
  }

  lemma StepEnd(r: string, out: string, p: int)
    requires p < 0x10000
    ensures ParseString("\"" + r, out, p) == Done(out + Utf8(p), r)
  {
    assert ("\"" + r)[1..] == r;
  }

  /** Reading one dumped character: it is written at once, or waits for the next step. */
  lemma StepChar(c: char, r: string, out: string, p: int) returns (out': string, p': int)
    requires p < 0x10000 && !IsLead(p)
    ensures p' < 0x10000 && !IsLead(p')
    ensures ParseString(EscapeChar(c) + r, out, p) == ParseString(r, out', p')
    ensures out' + Utf8(p') == out + Utf8(p) + [c]
  {
    out', p' := out + Utf8(p) + [c], -1;
    if c == '\\' || c == '\"' {
      StepShort(c, r, out, p);
    } else if c == BACKSPACE {
      StepShort('b', r, out, p);
    } else if c == FORM_FEED {
      StepShort('f', r, out, p);
    } else if c == '\n' {
      StepShort('n', r, out, p);
    } else if c == '\r' {
      StepShort('r', r, out, p);
    } else if c == '\t' {
      StepShort('t', r, out, p);
    } else if c as int <= 0x1F {
      StepUnicode(c as int, r, out, p);
      out', p' := out + Utf8(p), c as int;
    } else {
      StepPlain(c, r, out, p);
    }
  }

  lemma Separators(s: string)
    requires IsSeparator(s)
    ensures Utf8(if s[2] as int == 0xA8 then 0x2028 else 0x2029) == s[..3]
  {
  }

  lemma EscapeFirst(s: string, t: string)
    requires s != ""
    ensures IsSeparator(s) ==>
              Escape(s) + "\"" + t == UnicodeEscape(if s[2] as int == 0xA8 then 0x2028 else 0x2029) +
                (Escape(s[3..]) + "\"" + t)
    ensures !IsSeparator(s) ==> Escape(s) + "\"" + t == EscapeChar(s[0]) + (Escape(s[1..]) + "\"" + t)
  {
    var v := if IsSeparator(s) && s[2] as int == 0xA8 then 0x2028 else 0x2029;
    assert Escape(s) == if IsSeparator(s) then UnicodeEscape(v) + Escape(s[3..]) else EscapeChar(s[0]) + Escape(s[1..]);
    hide Escape, EscapeChar, UnicodeEscape;
    if IsSeparator(s) {
      Regroup3(UnicodeEscape(v), Escape(s[3..]), t);
    } else {
      Regroup3(EscapeChar(s[0]), Escape(s[1..]), t);
    }
  }

  lemma Regroup3(a: string, b: string, t: string)
    ensures a + b + "\"" + t == a + (b + "\"" + t)
  {
  }

  lemma NoneEscaped(t: string)
    ensures Escape("") + "\"" + t == "\"" + t
  {
  }

  lemma {:induction false} EscapedTrip(s: string, t: string, out: string, p: int)
    requires p < 0x10000 && !IsLead(p)
    ensures ParseString(Escape(s) + "\"" + t, out, p) == Done(out + Utf8(p) + s, t)
    decreases |s|
  {
    hide Utf8, ParseString, EscapeChar, UnicodeEscape, Escape;
    if s == "" {
      NoneEscaped(t);
      StepEnd(t, out, p);
      assert out + Utf8(p) + s == out + Utf8(p);
    } else {
      EscapeFirst(s, t);
      if IsSeparator(s) {
        var v := if s[2] as int == 0xA8 then 0x2028 else 0x2029;
        StepUnicode(v, Escape(s[3..]) + "\"" + t, out, p);
        EscapedTrip(s[3..], t, out + Utf8(p), v);
        Separators(s);
        Regroup(out + Utf8(p), s[..3], s[3..]);
        assert s[..3] + s[3..] == s;
      } else {
        var out', p' := StepChar(s[0], Escape(s[1..]) + "\"" + t, out, p);
        EscapedTrip(s[1..], t, out', p');
        Regroup(out + Utf8(p), [s[0]], s[1..]);
        assert [s[0]] + s[1..] == s;
      }
    }
  }

  /** What dump writes for a string is read as that string. */
  lemma StringTrip(s: string, t: string)
    ensures ParseString(Escape(s) + "\"" + t, "", -1) == Done(s, t)
  {
    EscapedTrip(s, t, "", -1);
    assert "" + "" + s == s;
  }

  // ---------- UTF-16 escapes ----------

  predicate IsScalar(pt: int) {
    0 <= pt < 0x110000 && !IsLead(pt) && !IsTrail(pt)
  }

  /** Section 7 of RFC 8259: beyond the first plane, two escapes. */
  function EscapeScalar(pt: int): string
    requires IsScalar(pt)
  {
    if pt < 0x10000 then UnicodeEscape(pt)
    else UnicodeEscape(0xD800 + (pt - 0x10000) / 0x400) + UnicodeEscape(0xDC00 + (pt - 0x10000) % 0x400)
  }

  function EscapeText(pts: seq<int>): string
    requires forall i :: 0 <= i < |pts| ==> IsScalar(pts[i])
  {
    if pts == [] then "" else EscapeScalar(pts[0]) + EscapeText(pts[1..])
  }

  function Utf8Text(pts: seq<int>): string
    requires forall i :: 0 <= i < |pts| ==> IsScalar(pts[i])
  {
    if pts == [] then ""
    else
      assert IsScalar(pts[0]);
      Utf8(pts[0]) + Utf8Text(pts[1..])
  }

  lemma SurrogatePair(pt: int)
    requires IsScalar(pt) && pt >= 0x10000
    ensures var lead, trail := 0xD800 + (pt - 0x10000) / 0x400, 0xDC00 + (pt - 0x10000) % 0x400;
            IsLead(lead) && IsTrail(trail) && (lead - 0xD800) * 0x400 + (trail - 0xDC00) + 0x10000 == pt
  {
  }

  lemma StepScalar(pt: int, r: string, out: string, p: int) returns (out': string, p': int)
    requires p < 0x10000 && !IsLead(p) && IsScalar(pt)
    ensures p' < 0x10000 && !IsLead(p')
    ensures ParseString(EscapeScalar(pt) + r, out, p) == ParseString(r, out', p')
    ensures out' + Utf8(p') == out + Utf8(p) + Utf8(pt)
  {
    assert Utf8(-1) == "";
    hide Utf8, ParseString, UnicodeEscape;
    if pt < 0x10000 {
      StepUnicode(pt, r, out, p);
      out', p' := out + Utf8(p), pt;
    } else {
      var lead, trail := 0xD800 + (pt - 0x10000) / 0x400, 0xDC00 + (pt - 0x10000) % 0x400;
      SurrogatePair(pt);
      StepUnicode(lead, UnicodeEscape(trail) + r, out, p);
      StepUnicode(trail, r, out + Utf8(p), lead);
      Regroup(UnicodeEscape(lead), UnicodeEscape(trail), r);
      out', p' := out + Utf8(p) + Utf8(pt), -1;
    }
  }

  /** Text written as UTF-16 escapes is read as its UTF-8 form; each code point is written once. */
  lemma {:induction false} EscapesDecode(pts: seq<int>, t: string, out: string, p: int)
    requires p < 0x10000 && !IsLead(p) && forall i :: 0 <= i < |pts| ==> IsScalar(pts[i])
    ensures ParseString(EscapeText(pts) + "\"" + t, out, p) == Done(out + Utf8(p) + Utf8Text(pts), t)
    decreases |pts|
  {
    hide Utf8, ParseString, EscapeScalar;
    if pts == [] {
      assert EscapeText(pts) + "\"" + t == "\"" + t;
      StepEnd(t, out, p);
      assert out + Utf8(p) + Utf8Text(pts) == out + Utf8(p);
    } else {
      var r := EscapeText(pts[1..]) + "\"" + t;
      assert EscapeText(pts) + "\"" + t == EscapeScalar(pts[0]) + r;
      var out', p' := StepScalar(pts[0], r, out, p);
      EscapesDecode(pts[1..], t, out', p');
      Regroup(out + Utf8(p), Utf8(pts[0]), Utf8Text(pts[1..]));
    }
  }

  /** The code point that the leading bytes stand for, and their number, by the table in section 3 of
      RFC 3629. */
  function DecodeUtf8(s: string): (int, nat)
    requires |s| >= 1
  {
    var a := s[0] as int;
    if a < 0x80 then (a, 1)
    else if 0xC0 <= a < 0xE0 && |s| >= 2 then ((a - 0xC0) * 0x40 + s[1] as int - 0x80, 2)
    else if 0xE0 <= a < 0xF0 && |s| >= 3
      then ((a - 0xE0) * 0x1000 + (s[1] as int - 0x80) * 0x40 + s[2] as int - 0x80, 3)
    else if 0xF0 <= a < 0xF8 && |s| >= 4 then
      ((a - 0xF0) * 0x40000 + (s[1] as int - 0x80) * 0x1000 + (s[2] as int - 0x80) * 0x40 + s[3] as int - 0x80, 4)
    else (-1, 1)
  }

  /** The encoding of a code point decodes to it, and is as long as the table has it. */
  lemma Utf8Decodes(pt: int, t: string)
    requires 0 <= pt < 0x110000
    ensures DecodeUtf8(Utf8(pt) + t) == (pt, |Utf8(pt)|)
    ensures |Utf8(pt)| == if pt < 0x80 then 1 else if pt < 0x800 then 2 else if pt < 0x10000 then 3 else 4
    ensures forall i :: 1 <= i < |Utf8(pt)| ==> 0x80 <= Utf8(pt)[i] as int < 0xC0
  {
    var s := Utf8(pt) + t;
    assert forall i :: 0 <= i < |Utf8(pt)| ==> s[i] == Utf8(pt)[i];
    var a := pt / 0x40;
    var b := a / 0x40;
    assert pt / 0x1000 == b && pt / 0x40000 == b / 0x40;
  }

  // ---------- numbers ----------

  lemma {:induction false} DigitsMeaning(n: nat)
    ensures var d := Digits(n);
            && (forall i :: 0 <= i < |d| ==> IsDigit(d[i])) && ValueOf(d) == n
            && (d[0] == '0' <==> n == 0) && (n == 0 ==> |d| == 1)
  {
    if n >= 10 {
      DigitsMeaning(n / 10);
      var d := Digits(n);
      assert d[..|d| - 1] == Digits(n / 10);
    }
  }

  lemma {:induction false} SpanIs(d: string, t: string)
    requires (forall i :: 0 <= i < |d| ==> IsDigit(d[i])) && (t == "" || !IsDigit(t[0]))
    ensures Span(d + t) == |d|
  {
    if d == "" {
      assert d + t == t;
    } else {
      assert (d + t)[1..] == d[1..] + t;
      SpanIs(d[1..], t);
    }
  }

  /** What may follow a value. */
  predicate Ends(t: string) {
    t == "" || t[0] == ',' || t[0] == ']' || t[0] == '}'
  }

  lemma DigitsRead(text: string, d: string, t: string, negative: bool)
    requires d != "" && (forall i :: 0 <= i < |d| ==> IsDigit(d[i])) && (d[0] == '0' ==> |d| == 1) && Ends(t)
    requires |d| + |t| <= |text|
    ensures ParseUnsigned(text, d + t, negative) == Done(Number(if negative then 0 - ValueOf(d) else ValueOf(d)), t)
  {
    hide Span, ValueOf, ParseUnsigned;
    SpanIs(d, t);
    var digits := d + t;
    assert digits[..|d|] == d && digits[|d|..] == t && digits[0] == d[0];
    UnsignedRead(text, digits, negative);
  }

  lemma UnsignedRead(text: string, digits: string, negative: bool)
    requires |digits| <= |text|
    requires var n := Span(digits); n > 0 && (digits[0] == '0' ==> n == 1) && Ends(digits[n..])
    ensures var n := Span(digits);
            ParseUnsigned(text, digits, negative) ==
            Done(Number(if negative then 0 - ValueOf(digits[..n]) else ValueOf(digits[..n])), digits[n..])
  {
    hide Span, ValueOf, ParseFraction, ParseExponent;
  }

  lemma NumberTrip(n: int, t: string)
    requires Ends(t)
    ensures ParseNumber(DumpNumber(n) + t) == Done(Number(n), t)
  {
    hide ParseUnsigned, ValueOf, Digits;
    var d := Digits(if n < 0 then -n else n);
    DigitsMeaning(if n < 0 then -n else n);
    DigitsRead(DumpNumber(n) + t, d, t, n < 0);
    if n < 0 {
      assert (DumpNumber(n) + t)[1..] == d + t;
    } else {
      assert (d + t)[0] == d[0] && IsDigit(d[0]);
    }
  }

  // ---------- values ----------

  /** The first character of a dumped value is no space and ends nothing. */
  lemma DumpHead(v: Json)
    requires Plain(v)
    ensures Dump(v) != "" && !IsSpace(Dump(v)[0]) && Dump(v)[0] != ']' && Dump(v)[0] != '}'
  {
    if v.Number? {
      DigitsMeaning(if v.n < 0 then -v.n else v.n);
    }
  }

  lemma SkipNone(text: string)
    requires text != "" && !IsSpace(text[0])
    ensures Skip(text) == text
  {
  }

  lemma SkipOne(text: string)
    requires text != "" && !IsSpace(text[0])
    ensures Skip(" " + text) == text
  {
    assert (" " + text)[1..] == text;
  }

  lemma SpaceValue(text: string, depth: nat)
    ensures ParseValue(" " + text, depth) == ParseValue(text, depth)
  {
    assert (" " + text)[1..] == text;
    assert Skip(" " + text) == Skip(text);
  }

  /** What the parser makes of a value that dump wrote: the value, if it may still go that deep. */
  function Trip(v: Json, ok: bool, t: string): Parsed<Json> {
    if ok then Done(v, t) else Failed
  }

  lemma ExpectTrip(v: Json, depth: nat, t: string)
    requires v.Null? || v.Bool?
    ensures ParseValue(Dump(v) + t, depth) == Trip(v, depth <= MAX_DEPTH, t)
  {
    var text := Dump(v) + t;
    SkipNone(text);
    assert text[..|Dump(v)|] == Dump(v) && text[|Dump(v)|..] == t;
  }

  lemma NumberValueTrip(n: int, depth: nat, t: string)
    requires Ends(t)
    ensures ParseValue(DumpNumber(n) + t, depth) == Trip(Number(n), depth <= MAX_DEPTH, t)
  {
    var text := DumpNumber(n) + t;
    DumpHead(Number(n));
    DigitsMeaning(if n < 0 then -n else n);
    assert text[0] == DumpNumber(n)[0] && (text[0] == '-' || IsDigit(text[0]));
    SkipNone(text);
    NumberTrip(n, t);
  }

  lemma StringValueTrip(s: string, depth: nat, t: string)
    ensures ParseValue(Quote(s) + t, depth) == Trip(String(s), depth <= MAX_DEPTH, t)
  {
    hide Escape, ParseString;
    var text := Quote(s) + t;
    assert text[0] == '\"' && text[1..] == Escape(s) + "\"" + t;
    SkipNone(text);
    StringTrip(s, t);
  }

  /** The text of an array or object: an opening bracket, what the loop reads, and the closing one. */
  lemma OpenArray(body: string, t: string, depth: nat)
    requires body != "" ==> !IsSpace(body[0]) && body[0] != ']'
    ensures ParseValue("[" + body + "]" + t, depth) ==
            if depth > MAX_DEPTH then Failed
            else if body == "" then Done(Array([]), t)
            else ParseItems(body + "]" + t, depth, [])
  {
    var text := "[" + body + "]" + t;
    assert text[0] == '[' && text[1..] == body + "]" + t;
    SkipNone(text);
    SkipNone(text[1..]);
    hide ParseItems, ParseMembers;
    if body == "" {
      assert text[1..][0] == ']' && text[1..][1..] == t;
    } else {
      assert text[1..][0] == body[0];
    }
  }

  lemma OpenObject(body: string, t: string, depth: nat)
    requires body != "" ==> body[0] == '\"'
    ensures ParseValue("{" + body + "}" + t, depth) ==
            if depth > MAX_DEPTH then Failed
            else if body == "" then Done(Object([]), t)
            else ParseMembers(body + "}" + t, depth, [])
  {
    var text := "{" + body + "}" + t;
    assert text[0] == '{' && text[1..] == body + "}" + t;
    SkipNone(text);
    SkipNone(text[1..]);
    hide ParseItems, ParseMembers;
    if body == "" {
      assert text[1..][0] == '}' && text[1..][1..] == t;
    } else {
      assert text[1..][0] == body[0];
    }
  }

  lemma FollowingEnd(end: char, t: string)
    requires end == ']' || end == '}'
    ensures Following([end] + t, end) == Done(true, t)
  {
    SkipNone([end] + t);
    assert ([end] + t)[1..] == t;
  }

  lemma FollowingNext(end: char, t: string)
    requires end == ']' || end == '}'
    requires t != "" && !IsSpace(t[0])
    ensures Following(", " + t, end) == Done(false, t)
  {
    SkipNone(", " + t);
    assert (", " + t)[1..] == " " + t;
    SkipOne(t);
  }

  lemma ItemsHead(items: seq<Json>)
    requires items != [] && forall i :: 0 <= i < |items| ==> Plain(items[i])
    ensures DumpItems(items) != "" && !IsSpace(DumpItems(items)[0]) && DumpItems(items)[0] != ']'
  {
    DumpHead(items[0]);
  }

  lemma {:induction false} ValueTrip(v: Json, depth: nat, t: string)
    requires Plain(v) && Ends(t) && depth <= MAX_DEPTH + 1
    ensures ParseValue(Dump(v) + t, depth) == Trip(v, depth + Depth(v) <= MAX_DEPTH, t)
    decreases v
  {
    hide ParseValue, ParseItems, ParseMembers, Escape, DumpNumber;
    match v
    case Null => ExpectTrip(v, depth, t);
    case Bool(_) => ExpectTrip(v, depth, t);
    case Number(n) => NumberValueTrip(n, depth, t);
    case String(s) => StringValueTrip(s, depth, t);
    case Array(items) =>
      if items != [] {
        ItemsHead(items);
        OpenArray(DumpItems(items), t, depth);
        assert [] + items == items;
        if depth <= MAX_DEPTH {
          ItemsTrip(items, depth, [], t);
        }
      } else {
        OpenArray("", t, depth);
      }
    case Object(members) =>
      if members != [] {
        OpenObject(DumpMembers(members), t, depth);
        assert [] + members == members;
        if depth <= MAX_DEPTH {
          MembersTrip(members, depth, [], t);
        }
      } else {
        OpenObject("", t, depth);
      }
  }

  lemma ItemsRest(items: seq<Json>, t: string) returns (rest: string)
    requires items != [] && forall i :: 0 <= i < |items| ==> Plain(items[i])
    ensures DumpItems(items) + "]" + t == Dump(items[0]) + rest && Ends(rest)
    ensures |items| == 1 ==> rest == [']'] + t
    ensures |items| > 1 ==> rest == ", " + (DumpItems(items[1..]) + "]" + t)
  {
    hide Dump;
    rest := if |items| == 1 then "]" + t else ", " + (DumpItems(items[1..]) + "]" + t);
  }

  lemma {:induction false} ItemsTrip(items: seq<Json>, depth: nat, data: seq<Json>, t: string)
    requires items != [] && (forall i :: 0 <= i < |items| ==> Plain(items[i])) && depth <= MAX_DEPTH
    ensures ParseItems(DumpItems(items) + "]" + t, depth, data) ==
            Trip(Array(data + items), depth + DepthItems(items) <= MAX_DEPTH, t)
    decreases items
  {
    hide ParseValue, Dump, Following, DumpItems;
    var rest := ItemsRest(items, t);
    ValueTrip(items[0], depth + 1, rest);
    if depth + 1 + Depth(items[0]) <= MAX_DEPTH {
      if |items| == 1 {
        FollowingEnd(']', t);
        assert items == [items[0]];
      } else {
        var more := DumpItems(items[1..]) + "]" + t;
        ItemsHead(items[1..]);
        FollowingNext(']', more);
        ItemsTrip(items[1..], depth, data + [items[0]], t);
        assert data + [items[0]] + items[1..] == data + items;
      }
    }
  }

  // ---------- objects ----------

  lemma {:induction false} LessAsymmetric(a: string, b: string)
    requires Less(a, b)
    ensures a != b && !Less(b, a)
  {
    if a != "" && a[0] == b[0] {
      LessAsymmetric(a[1..], b[1..]);
    }
  }

  /** A key after all others goes to the end. */
  lemma {:induction false} InsertLast(data: seq<Member>, key: string, value: Json)
    requires forall i :: 0 <= i < |data| ==> Less(data[i].key, key)
    ensures Insert(data, key, value) == data + [Member(key, value)]
  {
    if data != [] {
      LessAsymmetric(data[0].key, key);
      InsertLast(data[1..], key, value);
    }
  }

  lemma KeyTrip(key: string, r: string)
    ensures ParseKey(Quote(key) + ": " + r) == Done(key, " " + r)
  {
    hide Escape, ParseString;
    var text := Quote(key) + ": " + r;
    assert text[0] == '\"' && text[1..] == Escape(key) + "\"" + (": " + r);
    StringTrip(key, ": " + r);
    SkipNone(": " + r);
    assert (": " + r)[1..] == " " + r;
  }

  /** What the loop over the members of an object reads. */
  function MembersText(members: seq<Member>, t: string): string
    requires members != [] && forall i :: 0 <= i < |members| ==> Plain(members[i].value)
  {
    DumpMembers(members) + "}" + t
  }

  /** What is left of it after the first member. */
  function MembersEnd(members: seq<Member>, t: string): string
    requires members != [] && forall i :: 0 <= i < |members| ==> Plain(members[i].value)
  {
    if |members| == 1 then "}" + t else ", " + MembersText(members[1..], t)
  }

  lemma Regroup5(a: string, b: string, c: string, d: string, t: string)
    ensures (a + b + (c + d)) + "}" + t == a + (b + (c + (d + "}" + t)))
  {
  }

  lemma MembersSplit(members: seq<Member>, t: string)
    requires members != [] && forall i :: 0 <= i < |members| ==> Plain(members[i].value)
    ensures MembersText(members, t) == Quote(members[0].key) + ": " + (Dump(members[0].value) + MembersEnd(members, t))
  {
    var first, value := Quote(members[0].key) + ": ", Dump(members[0].value);
    if |members| == 1 {
      assert DumpMembers(members) == first + value + "";
      hide DumpMembers, Dump, Quote;
      Regroup(first, value, "}" + t);
    } else {
      var more := DumpMembers(members[1..]);
      assert DumpMembers(members) == first + value + (", " + more);
      hide DumpMembers, Dump, Quote;
      Regroup5(first, value, ", ", more, t);
    }
  }

  lemma MembersRest(members: seq<Member>, t: string)
    requires members != [] && forall i :: 0 <= i < |members| ==> Plain(members[i].value)
    ensures ParseKey(MembersText(members, t)) ==
            Done(members[0].key, " " + (Dump(members[0].value) + MembersEnd(members, t)))
    ensures Ends(MembersEnd(members, t))
    ensures Following(MembersEnd(members, t), '}') ==
            if |members| == 1 then Done(true, t) else Done(false, MembersText(members[1..], t))
  {
    hide Dump, Quote, ParseKey, Following, DumpMembers;
    MembersSplit(members, t);
    KeyTrip(members[0].key, Dump(members[0].value) + MembersEnd(members, t));
    if |members| == 1 {
      FollowingEnd('}', t);
    } else {
      MembersHead(members[1..]);
      FollowingNext('}', MembersText(members[1..], t));
    }
  }

  lemma MembersHead(members: seq<Member>)
    requires members != [] && forall i :: 0 <= i < |members| ==> Plain(members[i].value)
    ensures DumpMembers(members) != "" && DumpMembers(members)[0] == '\"'
  {
    hide Dump;
  }

  lemma MembersStep(text: string, depth: nat, data: seq<Member>, key: string, rest: string)
    requires ParseKey(text) == Done(key, rest)
    ensures ParseMembers(text, depth, data) ==
            var v := ParseValue(rest, depth + 1);
            if v.Failed? then Failed
            else
              var f := Following(v.rest, '}');
              if f.Failed? then Failed
              else if f.value then Done(Object(Insert(data, key, v.value)), f.rest)
              else ParseMembers(f.rest, depth, Insert(data, key, v.value))
  {
  }

  lemma {:induction false} MembersTrip(members: seq<Member>, depth: nat, data: seq<Member>, t: string)
    requires members != [] && (forall i :: 0 <= i < |members| ==> Plain(members[i].value)) && depth <= MAX_DEPTH
    requires Sorted(data + members)
    ensures ParseMembers(MembersText(members, t), depth, data) ==
            Trip(Object(data + members), depth + DepthMembers(members) <= MAX_DEPTH, t)
    decreases members
  {
    hide ParseValue, ParseMembers, ParseKey, Dump, Following, Insert, MembersText, MembersEnd;
    var key, value, rest := members[0].key, members[0].value, MembersEnd(members, t);
    MembersRest(members, t);
    MembersStep(MembersText(members, t), depth, data, key, " " + (Dump(value) + rest));
    ValueTrip(value, depth + 1, rest);
    SpaceValue(Dump(value) + rest, depth + 1);
    LastKey(data, members);
    InsertLast(data, key, value);
    hide Sorted, Less;
    assert members == [Member(key, value)] + members[1..];
    if |members| == 1 {
      assert data + members == data + [Member(key, value)];
    } else if depth + 1 + Depth(value) <= MAX_DEPTH {
      assert data + [Member(key, value)] + members[1..] == data + members;
      MembersTrip(members[1..], depth, data + [Member(key, value)], t);
    }
  }

  lemma LastKey(data: seq<Member>, members: seq<Member>)
    requires members != [] && Sorted(data + members)
    ensures forall i :: 0 <= i < |data| ==> Less(data[i].key, members[0].key)
  {
    var all := data + members;
    forall i | 0 <= i < |data| ensures Less(data[i].key, members[0].key) {
      assert all[i] == data[i] && all[|data|] == members[0];
    }
  }

  // ---------- the law ----------

  /** Parsing what dump wrote gives the value back, exactly when it is nested at most 200 deep. */
  lemma ParseOfDump(v: Json)
    requires Plain(v)
    ensures Parse(Dump(v)) == if Depth(v) <= 200 then Done(v, "") else Failed
  {
    hide ParseValue;
    ValueTrip(v, 0, "");
    assert Dump(v) + "" == Dump(v);
  }
}
