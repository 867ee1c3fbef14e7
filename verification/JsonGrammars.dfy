/** The texts that Json::parse accepts (src/json11.cpp), as documents: what may stand between the tokens, how
    characters and numbers may be spelled, and what each document means. */
module JsonGrammars {
  import opened Wrappers
  import opened JsonTexts

  // ---------- documents ----------

  type CodeUnit = n: nat | n < 0x10000

  /** One item of a string: a character, an escape of one letter, or a code unit in four hex digits. */
  datatype Part = Raw(c: char) | Short(letter: char) | Unit(code: CodeUnit, hex: string)

  datatype Exponent = Exponent(mark: char, sign: string, digits: string)

  datatype Numeral = Numeral(negative: bool, whole: string, fraction: Option<string>, exponent: Option<Exponent>)

  /** The gap of an array or object without items is the space between its brackets. */
  datatype Doc =
    | NullDoc
    | BoolDoc(b: bool)
    | NumberDoc(numeral: Numeral)
    | StringDoc(parts: seq<Part>)
    | ArrayDoc(gap: string, items: seq<Item>)
    | ObjectDoc(gap: string, entries: seq<Entry>)

  datatype Item = Item(before: string, doc: Doc, after: string)

  datatype Entry = Entry(before: string, key: seq<Part>, colon: string, item: Item)

  /** Space, tab, line feed, carriage return. */
  predicate Blank(s: string) {
    forall i | 0 <= i < |s| :: s[i] as int == 0x20 || s[i] as int == 0x09 || s[i] as int == 0x0A || s[i] as int == 0x0D
  }

  // ---------- strings ----------

  /** The lower or upper case digit for the lowest four bits of v. */
  predicate SpellsNibble(c: char, v: nat) {
    c == "0123456789abcdef"[v % 0x10] || c == "0123456789ABCDEF"[v % 0x10]
  }

  predicate ValidPart(p: Part) {
    match p
    case Raw(c) => c as int >= 0x20 && c as int != 0x22 && c as int != 0x5C
    case Short(letter) => letter in ['\"', '\\', '/', 'b', 'f', 'n', 'r', 't']
    case Unit(code, hex) =>
      && |hex| == 4 && SpellsNibble(hex[0], code / 0x1000) && SpellsNibble(hex[1], code / 0x100)
      && SpellsNibble(hex[2], code / 0x10) && SpellsNibble(hex[3], code)
  }

  predicate ValidParts(parts: seq<Part>) {
    forall i | 0 <= i < |parts| :: ValidPart(parts[i])
  }

  function WritePart(p: Part): string {
    match p
    case Raw(c) => [c]
    case Short(letter) => ['\\', letter]
    case Unit(_, hex) => "\\u" + hex
  }

  /** The rest of a string, its closing quote, and then t. */
  function WriteParts(parts: seq<Part>, t: string): string {
    if parts == [] then "\"" + t else WritePart(parts[0]) + WriteParts(parts[1..], t)
  }

  /** The byte that an escape letter stands for. */
  function Escaped(letter: char): string {
    if letter == 'b' then [0x08 as char]
    else if letter == 't' then [0x09 as char]
    else if letter == 'n' then [0x0A as char]
    else if letter == 'f' then [0x0C as char]
    else if letter == 'r' then [0x0D as char]
    else [letter]
  }

  function PartText(p: Part): string {
    match p
    case Raw(c) => [c]
    case Short(letter) => Escaped(letter)
    case Unit(code, _) => Utf8(code)
  }

  /** A high surrogate and the low surrogate right after it are one code point (section 7 of RFC 8259). */
  predicate Paired(parts: seq<Part>) {
    && |parts| >= 2 && parts[0].Unit? && parts[1].Unit?
    && 0xD800 <= parts[0].code < 0xDC00 && 0xDC00 <= parts[1].code < 0xE000
  }

  function TextOf(parts: seq<Part>): string {
    if parts == [] then ""
    else if Paired(parts) then
      Utf8(0x10000 + (parts[0].code - 0xD800) * 0x400 + parts[1].code - 0xDC00) + TextOf(parts[2..])
    else PartText(parts[0]) + TextOf(parts[1..])
  }

  // ---------- numbers ----------

  predicate AreDigits(s: string) {
    s != "" && forall i | 0 <= i < |s| :: '0' <= s[i] <= '9'
  }

  predicate ValidExponent(e: Exponent) {
    && (e.mark == 'e' || e.mark == 'E') && (e.sign == "" || e.sign == "+" || e.sign == "-")
    && AreDigits(e.digits)
  }

  predicate ValidNumeral(n: Numeral) {
    && AreDigits(n.whole) && (n.whole[0] == '0' ==> |n.whole| == 1)
    && (n.fraction.Some? ==> AreDigits(n.fraction.value))
    && (n.exponent.Some? ==> ValidExponent(n.exponent.value))
  }

  function WriteFraction(f: Option<string>, t: string): string {
    if f.None? then t else "." + f.value + t
  }

  function WriteExponent(e: Option<Exponent>, t: string): string {
    if e.None? then t else [e.value.mark] + (e.value.sign + (e.value.digits + t))
  }

  function WriteUnsigned(n: Numeral, t: string): string {
    n.whole + WriteFraction(n.fraction, WriteExponent(n.exponent, t))
  }

  function WriteNumeral(n: Numeral, t: string): string {
    if n.negative then "-" + WriteUnsigned(n, t) else WriteUnsigned(n, t)
  }

  function Power(k: nat): nat {
    if k == 0 then 1 else 10 * Power(k - 1)
  }

  /** Each digit counts by its place. */
  function Worth(digits: string): int {
    if digits == "" then 0 else (digits[0] as int - '0' as int) * Power(|digits| - 1) + Worth(digits[1..])
  }

  function NumeralValue(n: Numeral): Json {
    if n.fraction.Some? || n.exponent.Some? then Decimal(WriteNumeral(n, ""))
    else Number(if n.negative then 0 - Worth(n.whole) else Worth(n.whole))
  }

  // ---------- values ----------

  predicate Valid(doc: Doc) {
    match doc
    case NullDoc => true
    case BoolDoc(_) => true
    case NumberDoc(n) => ValidNumeral(n)
    case StringDoc(parts) => ValidParts(parts)
    case ArrayDoc(gap, items) => Blank(gap) && forall i | 0 <= i < |items| :: ValidItem(items[i])
    case ObjectDoc(gap, entries) => Blank(gap) && forall i | 0 <= i < |entries| :: ValidEntry(entries[i])
  }

  predicate ValidItem(item: Item) {
    Blank(item.before) && Valid(item.doc) && Blank(item.after)
  }

  predicate ValidEntry(e: Entry) {
    Blank(e.before) && ValidParts(e.key) && Blank(e.colon) && ValidItem(e.item)
  }

  /** The document, and then t. */
  function Write(doc: Doc, t: string): string {
    match doc
    case NullDoc => "null" + t
    case BoolDoc(b) => (if b then "true" else "false") + t
    case NumberDoc(n) => WriteNumeral(n, t)
    case StringDoc(parts) => "\"" + WriteParts(parts, t)
    case ArrayDoc(gap, items) => "[" + if items == [] then gap + ("]" + t) else WriteItems(items, t)
    case ObjectDoc(gap, entries) => "{" + if entries == [] then gap + ("}" + t) else WriteEntries(entries, t)
  }

  function WriteItem(item: Item, t: string): string {
    item.before + Write(item.doc, item.after + t)
  }

  function WriteItems(items: seq<Item>, t: string): string
    requires items != []
  {
    WriteItem(items[0], if |items| == 1 then "]" + t else "," + WriteItems(items[1..], t))
  }

  function WriteEntry(e: Entry, t: string): string {
    e.before + ("\"" + WriteParts(e.key, e.colon + (":" + WriteItem(e.item, t))))
  }

  function WriteEntries(entries: seq<Entry>, t: string): string
    requires entries != []
  {
    WriteEntry(entries[0], if |entries| == 1 then "}" + t else "," + WriteEntries(entries[1..], t))
  }

  /** No value of the document stands deeper than that, not even one that a later member replaces. */
  predicate Within(doc: Doc, depth: nat) {
    match doc
    case ArrayDoc(_, items) => forall i | 0 <= i < |items| :: depth > 0 && Within(items[i].doc, depth - 1)
    case ObjectDoc(_, entries) => forall i | 0 <= i < |entries| :: depth > 0 && Within(entries[i].item.doc, depth - 1)
    case _ => true
  }

  /** No later entry has the key of entry e. */
  predicate Latest(entries: seq<Entry>, e: nat)
    requires e < |entries|
  {
    forall f | e < f < |entries| :: TextOf(entries[f].key) != TextOf(entries[e].key)
  }

  ghost predicate HasKey(members: seq<Member>, key: string) {
    exists i | 0 <= i < |members| :: members[i].key == key
  }

  /** The value that a document stands for. An object has one member for each key, its latest, in the order of
      the keys. */
  ghost predicate Means(doc: Doc, v: Json) {
    match doc
    case NullDoc => v == Null
    case BoolDoc(b) => v == Bool(b)
    case NumberDoc(n) => v == NumeralValue(n)
    case StringDoc(parts) => v == String(TextOf(parts))
    case ArrayDoc(_, items) =>
      v.Array? && |v.items| == |items| && forall i | 0 <= i < |items| :: Means(items[i].doc, v.items[i])
    case ObjectDoc(_, entries) => v.Object? && MeansMembers(entries, v.members)
  }

  ghost predicate MeansMembers(entries: seq<Entry>, members: seq<Member>)
    decreases entries, 1
  {
    && Sorted(members)
    && (forall e | 0 <= e < |entries| :: HasKey(members, TextOf(entries[e].key)))
    && forall i | 0 <= i < |members| :: Stands(entries, members[i])
  }

  /** The latest entry of the member's key says what its value is. */
  ghost predicate Stands(entries: seq<Entry>, m: Member)
    decreases entries, 0
  {
    exists e | 0 <= e < |entries| ::
      Latest(entries, e) && TextOf(entries[e].key) == m.key && Means(entries[e].item.doc, m.value)
  }

  /** The text is the document, nested at most 200 deep, with space around it. */
  predicate IsText(text: string, before: string, doc: Doc, after: string) {
    Valid(doc) && Within(doc, 200) && Blank(before) && Blank(after) && text == before + Write(doc, after)
  }
}
