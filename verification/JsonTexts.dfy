/** JSON values and their text (src/json11.cpp): what dump writes, and what the parser reads, as
    functions of the text that is left. The characters 0 to 255 stand for bytes. */
module JsonTexts {
  /** A number is an int, or the text that atof is given. The members of an object are in the order of
      their keys, as in a std::map. */
  datatype Json =
    | Null
    | Bool(b: bool)
    | Number(n: int)
    | Decimal(text: string)
    | String(s: string)
    | Array(items: seq<Json>)
    | Object(members: seq<Member>)

  datatype Member = Member(key: string, value: Json)

  const MAX_DEPTH := 200
  const BACKSPACE := 8 as char
  const FORM_FEED := 12 as char

  // ---------- code points ----------

  /** encode_utf8; the bits that are or-ed are disjoint. */
  function Utf8(pt: int): string
    requires pt < 0x110000
  {
    if pt < 0 then ""
    else if pt < 0x80 then [pt as char]
    else if pt < 0x800 then [(0xC0 + pt / 0x40) as char, (0x80 + pt % 0x40) as char]
    else if pt < 0x10000 then
      [(0xE0 + pt / 0x1000) as char, (0x80 + pt / 0x40 % 0x40) as char, (0x80 + pt % 0x40) as char]
    else
      [(0xF0 + pt / 0x40000) as char, (0x80 + pt / 0x1000 % 0x40) as char, (0x80 + pt / 0x40 % 0x40) as char,
       (0x80 + pt % 0x40) as char]
  }

  predicate IsLead(pt: int) {
    0xD800 <= pt <= 0xDBFF
  }

  predicate IsTrail(pt: int) {
    0xDC00 <= pt <= 0xDFFF
  }

  predicate IsHex(c: char) {
    'a' <= c <= 'f' || 'A' <= c <= 'F' || '0' <= c <= '9'
  }

  function HexValue(c: char): (v: nat)
    requires IsHex(c)
    ensures v < 16
  {
    if 'a' <= c <= 'f' then c as int - 'a' as int + 10
    else if 'A' <= c <= 'F' then c as int - 'A' as int + 10
    else c as int - '0' as int
  }

  predicate AreHex(h: string) {
    |h| == 4 && IsHex(h[0]) && IsHex(h[1]) && IsHex(h[2]) && IsHex(h[3])
  }

  function FromHex(h: string): (v: nat)
    requires AreHex(h)
    ensures v < 0x10000
  {
    HexValue(h[0]) * 0x1000 + HexValue(h[1]) * 0x100 + HexValue(h[2]) * 0x10 + HexValue(h[3])
  }

  function HexDigit(v: nat): (c: char)
    requires v < 16
    ensures IsHex(c) && HexValue(c) == v
  {
    if v < 10 then ('0' as int + v) as char else ('a' as int + v - 10) as char
  }

  /** The format %04x. */
  function Hex(v: nat): (h: string)
    requires v < 0x10000
    ensures AreHex(h) && FromHex(h) == v
  {
    var a := v / 0x10;
    var b := a / 0x10;
    var c := b / 0x10;
    [HexDigit(c), HexDigit(b % 0x10), HexDigit(a % 0x10), HexDigit(v % 0x10)]
  }

  function UnicodeEscape(v: nat): string
    requires v < 0x10000
  {
    ['\\', 'u'] + Hex(v)
  }

  // ---------- dump ----------

  predicate IsSeparator(s: string) {
    |s| >= 3 && s[0] as int == 0xE2 && s[1] as int == 0x80 && (s[2] as int == 0xA8 || s[2] as int == 0xA9)
  }

  function EscapeChar(c: char): string {
    if c == '\\' then "\\\\"
    else if c == '\"' then "\\\""
    else if c == BACKSPACE then "\\b"
    else if c == FORM_FEED then "\\f"
    else if c == '\n' then "\\n"
    else if c == '\r' then "\\r"
    else if c == '\t' then "\\t"
    else if c as int <= 0x1F then UnicodeEscape(c as int)
    else [c]
  }

  function Escape(s: string): string {
    if s == "" then ""
    else if IsSeparator(s) then UnicodeEscape(if s[2] as int == 0xA8 then 0x2028 else 0x2029) + Escape(s[3..])
    else EscapeChar(s[0]) + Escape(s[1..])
  }

  function Quote(s: string): string {
    "\"" + Escape(s) + "\""
  }

  function Digits(n: nat): (d: string)
    ensures d != ""
  {
    if n < 10 then [('0' as int + n) as char] else Digits(n / 10) + [('0' as int + n % 10) as char]
  }

  function DumpNumber(n: int): string {
    if n < 0 then "-" + Digits(-n) else Digits(n)
  }

  /** Values without doubles, whose members are in order. */
  predicate Plain(v: Json) {
    match v
    case Decimal(_) => false
    case Array(items) => forall i :: 0 <= i < |items| ==> Plain(items[i])
    case Object(members) => Sorted(members) && forall i :: 0 <= i < |members| ==> Plain(members[i].value)
    case _ => true
  }

  function Dump(v: Json): string
    requires Plain(v)
  {
    match v
    case Null => "null"
    case Bool(b) => if b then "true" else "false"
    case Number(n) => DumpNumber(n)
    case String(s) => Quote(s)
    case Array(items) => "[" + (if items == [] then "" else DumpItems(items)) + "]"
    case Object(members) => "{" + (if members == [] then "" else DumpMembers(members)) + "}"
  }

  function DumpItems(items: seq<Json>): string
    requires items != [] && forall i :: 0 <= i < |items| ==> Plain(items[i])
  {
    Dump(items[0]) + if |items| == 1 then "" else ", " + DumpItems(items[1..])
  }

  function DumpMembers(members: seq<Member>): string
    requires members != [] && forall i :: 0 <= i < |members| ==> Plain(members[i].value)
  {
    Quote(members[0].key) + ": " + Dump(members[0].value) + if |members| == 1
      then "" else ", " + DumpMembers(members[1..])
  }

  /** How deep the deepest value in it is. */
  function Depth(v: Json): nat {
    match v
    case Array(items) => DepthItems(items)
    case Object(members) => DepthMembers(members)
    case _ => 0
  }

  function Max(a: nat, b: nat): nat {
    if a < b then b else a
  }

  function DepthItems(items: seq<Json>): nat {
    if items == [] then 0 else Max(1 + Depth(items[0]), DepthItems(items[1..]))
  }

  function DepthMembers(members: seq<Member>): nat {
    if members == [] then 0 else Max(1 + Depth(members[0].value), DepthMembers(members[1..]))
  }

  // ---------- objects ----------

  predicate Less(a: string, b: string) {
    if b == "" then false
    else if a == "" then true
    else a[0] < b[0] || (a[0] == b[0] && Less(a[1..], b[1..]))
  }

  predicate Sorted(members: seq<Member>) {
    forall i, j :: 0 <= i < j < |members| ==> Less(members[i].key, members[j].key)
  }

  /** data[key] = value */
  function Insert(members: seq<Member>, key: string, value: Json): seq<Member> {
    if members == [] then [Member(key, value)]
    else if members[0].key == key then [Member(key, value)] + members[1..]
    else if Less(key, members[0].key) then [Member(key, value)] + members
    else [members[0]] + Insert(members[1..], key, value)
  }

  // ---------- the parser ----------

  /** What was read, and the text that is left. */
  datatype Parsed<T> = Done(value: T, rest: string) | Failed

  predicate IsSpace(c: char) {
    c == ' ' || c == '\r' || c == '\n' || c == '\t'
  }

  function Skip(text: string): (rest: string)
    ensures |rest| <= |text| && (rest != "" ==> !IsSpace(rest[0]))
  {
    if text != "" && IsSpace(text[0]) then Skip(text[1..]) else text
  }

  /** The characters of a string up to its closing quote; out is what was read before, and pending the
      code point of the last escape if it still waits for its second half, or -1. */
  function ParseString(text: string, out: string, pending: int): (r: Parsed<string>)
    requires pending < 0x10000
    ensures r.Done? ==> |r.rest| < |text|
    decreases |text|
  {
    if text == "" then Failed
    else if text[0] == '\"' then Done(out + Utf8(pending), text[1..])
    else if text[0] as int <= 0x1F then Failed
    else if text[0] != '\\' then ParseString(text[1..], out + Utf8(pending) + [text[0]], -1)
    else if |text| == 1 then Failed
    else if text[1] == 'u' then
      if |text| < 6 || !AreHex(text[2..6]) then Failed
      else
        var codepoint := FromHex(text[2..6]);
        if IsLead(pending) && IsTrail(codepoint) then
          ParseString(text[6..], out + Utf8((pending - 0xD800) * 0x400 + (codepoint - 0xDC00) + 0x10000), -1)
        else ParseString(text[6..], out + Utf8(pending), codepoint)
    else if Unescaped(text[1]) != "" then ParseString(text[2..], out + Utf8(pending) + Unescaped(text[1]), -1)
    else Failed
  }

  function Unescaped(c: char): (s: string)
    ensures |s| <= 1
  {
    if c == 'b' then [BACKSPACE]
    else if c == 'f' then [FORM_FEED]
    else if c == 'n' then "\n"
    else if c == 'r' then "\r"
    else if c == 't' then "\t"
    else if c == '\"' || c == '\\' || c == '/' then [c]
    else ""
  }

  predicate IsDigit(c: char) {
    '0' <= c <= '9'
  }

  /** The number of leading digits. */
  function Span(text: string): (n: nat)
    ensures n <= |text| && (n < |text| ==> !IsDigit(text[n])) && forall i :: 0 <= i < n ==> IsDigit(text[i])
  {
    if text == "" || !IsDigit(text[0]) then 0 else 1 + Span(text[1..])
  }

  function ValueOf(digits: string): nat
    requires forall i :: 0 <= i < |digits| ==> IsDigit(digits[i])
  {
    if digits == "" then 0
    else
      assert IsDigit(digits[|digits| - 1]);
      ValueOf(digits[..|digits| - 1]) * 10 + (digits[|digits| - 1] as int - '0' as int)
  }

  predicate Starts(text: string, cs: set<char>) {
    text != "" && text[0] in cs
  }

  function ParseNumber(text: string): (r: Parsed<Json>)
    requires text != ""
    ensures r.Done? ==> |r.rest| < |text|
  {
    if text[0] == '-' then ParseUnsigned(text, text[1..], true) else ParseUnsigned(text, text, false)
  }

  /** The number after its sign. */
  function ParseUnsigned(text: string, digits: string, negative: bool): (r: Parsed<Json>)
    requires |digits| <= |text|
    ensures r.Done? ==> |r.rest| < |digits|
  {
    var n := Span(digits);
    if n == 0 || (digits[0] == '0' && n > 1) then Failed
    else if !Starts(digits[n..], {'.', 'e', 'E'}) then
      Done(Number(if negative then 0 - ValueOf(digits[..n]) else ValueOf(digits[..n])), digits[n..])
    else
      var f := ParseFraction(digits[n..]);
      if f.Failed? then Failed
      else
        var e := ParseExponent(f.rest);
        if e.Failed? then Failed else Done(Decimal(text[..|text| - |e.rest|]), e.rest)
  }

  function ParseFraction(text: string): (r: Parsed<()>)
    ensures r.Done? ==> |r.rest| <= |text|
  {
    if !Starts(text, {'.'}) then Done((), text)
    else if Span(text[1..]) == 0 then Failed
    else Done((), text[1..][Span(text[1..])..])
  }

  function ParseExponent(text: string): (r: Parsed<()>)
    ensures r.Done? ==> |r.rest| <= |text|
  {
    if !Starts(text, {'e', 'E'}) then Done((), text)
    else
      var u := text[1..];
      var t := if Starts(u, {'+', '-'}) then u[1..] else u;
      if Span(t) == 0 then Failed else Done((), t[Span(t)..])
  }

  function Expect(text: string, expected: string, value: Json): (r: Parsed<Json>)
    requires expected != ""
    ensures r.Done? ==> |r.rest| < |text|
  {
    if expected <= text then Done(value, text[|expected|..]) else Failed
  }

  function ParseValue(text: string, depth: nat): (r: Parsed<Json>)
    ensures r.Done? ==> |r.rest| < |text|
    decreases |text|, 0
  {
    var t := Skip(text);
    if depth > MAX_DEPTH || t == "" then Failed
    else if t[0] == '-' || IsDigit(t[0]) then ParseNumber(t)
    else if t[0] == 't' then Expect(t, "true", Bool(true))
    else if t[0] == 'f' then Expect(t, "false", Bool(false))
    else if t[0] == 'n' then Expect(t, "null", Null)
    else if t[0] == '\"' then
      var r := ParseString(t[1..], "", -1);
      if r.Failed? then Failed else Done(String(r.value), r.rest)
    else if t[0] == '{' then
      var u := Skip(t[1..]);
      if u == "" then Failed
      else if u[0] == '}' then Done(Object([]), u[1..])
      else ParseMembers(u, depth, [])
    else if t[0] == '[' then
      var u := Skip(t[1..]);
      if u == "" then Failed
      else if u[0] == ']' then Done(Array([]), u[1..])
      else ParseItems(u, depth, [])
    else Failed
  }

  /** What follows an item or a member: the end, or the next one. */
  function Following(text: string, end: char): (r: Parsed<bool>)
    ensures r.Done? ==> |r.rest| < |text|
    ensures r.Done? && !r.value ==> r.rest != ""
  {
    var t := Skip(text);
    if t == "" then Failed
    else if t[0] == end then Done(true, t[1..])
    else if t[0] != ',' || Skip(t[1..]) == "" then Failed
    else Done(false, Skip(t[1..]))
  }

  function ParseItems(text: string, depth: nat, data: seq<Json>): (r: Parsed<Json>)
    ensures r.Done? ==> |r.rest| < |text|
    decreases |text|, 1
  {
    var v := ParseValue(text, depth + 1);
    if v.Failed? then Failed
    else
      var f := Following(v.rest, ']');
      if f.Failed? then Failed
      else if f.value then Done(Array(data + [v.value]), f.rest)
      else ParseItems(f.rest, depth, data + [v.value])
  }

  /** The key of a member, up to the colon. */
  function ParseKey(text: string): (r: Parsed<string>)
    ensures r.Done? ==> |r.rest| < |text|
  {
    if !Starts(text, {'\"'}) then Failed
    else
      var key := ParseString(text[1..], "", -1);
      if key.Failed? || !Starts(Skip(key.rest), {':'}) then Failed else Done(key.value, Skip(key.rest)[1..])
  }

  function ParseMembers(text: string, depth: nat, data: seq<Member>): (r: Parsed<Json>)
    ensures r.Done? ==> |r.rest| < |text|
    decreases |text|, 1
  {
    var key := ParseKey(text);
    if key.Failed? then Failed
    else
      var v := ParseValue(key.rest, depth + 1);
      if v.Failed? then Failed
      else
        var f := Following(v.rest, '}');
        if f.Failed? then Failed
        else if f.value then Done(Object(Insert(data, key.value, v.value)), f.rest)
        else ParseMembers(f.rest, depth, Insert(data, key.value, v.value))
  }

  /** Json::parse: nothing but space may be left. */
  function Parse(text: string): Parsed<Json> {
    var r := ParseValue(text, 0);
    if r.Failed? || Skip(r.rest) != "" then Failed else Done(r.value, "")
  }
}
