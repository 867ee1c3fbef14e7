/** What dump writes (src/json11.cpp) as a document of the grammar: the tidy one that means the value. */
module JsonDumps {
  import opened Wrappers
  import opened Sequences
  import opened JsonTexts
  import opened JsonRoundTrips
  import opened JsonGrammars
  import opened JsonSpellings
  import opened JsonReaders

  // ---------- tidy documents ----------

  /** The letters of the escapes that dump uses, the control codes that have none, and the two separators. */
  predicate TidyPart(p: Part) {
    match p
    case Raw(_) => true
    case Short(letter) => letter != '/'
    case Unit(code, hex) =>
      && ((code < 0x20 && !(0x08 <= code <= 0x0A || 0x0C <= code <= 0x0D)) || code == 0x2028 || code == 0x2029)
      && forall i | 0 <= i < |hex| :: !('A' <= hex[i] <= 'F')
  }

  /** The three bytes of a line or paragraph separator. */
  predicate RawSeparator(parts: seq<Part>) {
    && |parts| >= 3 && parts[0] == Raw(0xE2 as char) && parts[1] == Raw(0x80 as char)
    && (parts[2] == Raw(0xA8 as char) || parts[2] == Raw(0xA9 as char))
  }

  predicate TidyParts(parts: seq<Part>) {
    forall i | 0 <= i < |parts| :: TidyPart(parts[i]) && !RawSeparator(parts[i..])
  }

  /** A space after each comma and colon and nowhere else, and no character spelled longer than need be. */
  predicate Tidy(doc: Doc) {
    match doc
    case NullDoc => true
    case BoolDoc(_) => true
    case NumberDoc(n) => n.fraction == None && n.exponent == None && (n.negative ==> n.whole != "0")
    case StringDoc(parts) => TidyParts(parts)
    case ArrayDoc(gap, items) =>
      gap == "" && forall i | 0 <= i < |items| ::
        items[i].before == (if i == 0 then "" else " ") && items[i].after == "" && Tidy(items[i].doc)
    case ObjectDoc(gap, entries) =>
      gap == "" && forall i | 0 <= i < |entries| ::
        && entries[i].before == (if i == 0 then "" else " ") && TidyParts(entries[i].key) && entries[i].colon == ""
        && entries[i].item.before == " " && entries[i].item.after == "" && Tidy(entries[i].item.doc)
  }

  // ---------- strings ----------

  function PartOf(c: char): Part {
    if c == '\\' || c == '\"' then Short(c)
    else if c == BACKSPACE then Short('b')
    else if c == FORM_FEED then Short('f')
    else if c == '\n' then Short('n')
    else if c == '\r' then Short('r')
    else if c == '\t' then Short('t')
    else if c as int <= 0x1F then Unit(c as int, Hex(c as int))
    else Raw(c)
  }

  function SeparatorPart(s: string): Part
    requires IsSeparator(s)
  {
    var code := if s[2] as int == 0xA8 then 0x2028 else 0x2029;
    Unit(code, Hex(code))
  }

  function PartsOf(s: string): seq<Part> {
    if s == "" then []
    else if IsSeparator(s) then [SeparatorPart(s)] + PartsOf(s[3..])
    else [PartOf(s[0])] + PartsOf(s[1..])
  }

  lemma HexIsTidy(v: CodeUnit)
    ensures ValidPart(Unit(v, Hex(v))) && |Hex(v)| == 4 && forall i | 0 <= i < 4 :: !('A' <= Hex(v)[i] <= 'F')
  {
    HexIs(Hex(v), v);
    hide SpellsNibble, FromHex;
  }

  lemma PartOfChar(c: char)
    ensures var p := PartOf(c);
            && ValidPart(p) && TidyPart(p) && WritePart(p) == EscapeChar(c) && PartText(p) == [c]
            && (p.Unit? ==> p.code < 0x20) && (p.Raw? ==> p == Raw(c))
  {
    var p := PartOf(c);
    if p.Unit? {
      PartOfControl(c);
    } else if p.Short? {
      PartOfLetter(c);
    }
  }

  lemma ControlIs(c: char)
    requires PartOf(c).Unit?
    ensures PartOf(c) == Unit(c as int, Hex(c as int)) && EscapeChar(c) == UnicodeEscape(c as int)
    ensures c as int < 0x20 && !(0x08 <= c as int <= 0x0A || 0x0C <= c as int <= 0x0D)
  {
    hide Hex, UnicodeEscape;
  }

  lemma PartOfControl(c: char)
    requires PartOf(c).Unit?
    ensures var p := PartOf(c);
            ValidPart(p) && TidyPart(p) && WritePart(p) == EscapeChar(c) && PartText(p) == [c] && p.code < 0x20
  {
    hide Hex, EscapeChar, PartOf, ValidPart;
    ControlIs(c);
    HexIsTidy(c as int);
  }

  lemma PartOfLetter(c: char)
    requires PartOf(c).Short?
    ensures var p := PartOf(c);
            ValidPart(p) && TidyPart(p) && WritePart(p) == EscapeChar(c) && PartText(p) == [c]
  {
  }

  lemma PartOfSeparator(s: string)
    requires IsSeparator(s)
    ensures var p := SeparatorPart(s);
            && ValidPart(p) && TidyPart(p) && PartText(p) == s[..3]
            && WritePart(p) == UnicodeEscape(if s[2] as int == 0xA8 then 0x2028 else 0x2029)
  {
    hide Hex, Utf8;
    HexIsTidy(SeparatorPart(s).code);
    Separators(s);
  }

  lemma WrittenFirst(p: Part, parts: seq<Part>, t: string)
    ensures WriteParts([p] + parts, t) == WritePart(p) + WriteParts(parts, t)
    ensures !Paired([p] + parts) ==> TextOf([p] + parts) == PartText(p) + TextOf(parts)
  {
    hide WritePart, PartText, Paired;
    assert ([p] + parts)[1..] == parts;
  }

  /** dump writes the string with exactly these parts. */
  lemma {:induction false} EscapeIsWritten(s: string, t: string)
    ensures var parts := PartsOf(s);
            ValidParts(parts) && Escape(s) + "\"" + t == WriteParts(parts, t) && TextOf(parts) == s
    ensures forall i | 0 <= i < |PartsOf(s)| :: TidyPart(PartsOf(s)[i])
    decreases |s|
  {
    hide Escape, ValidPart, TidyPart, PartText, WritePart, PartOf, SeparatorPart, UnicodeEscape, EscapeChar, TextOf,
      WriteParts;
    if s == "" {
      NoneEscaped(t);
      NoneWritten(t);
    } else {
      EscapeFirst(s, t);
      var n := if IsSeparator(s) then 3 else 1;
      var p := if IsSeparator(s) then SeparatorPart(s) else PartOf(s[0]);
      PartOfChar(s[0]);
      if IsSeparator(s) { PartOfSeparator(s); }
      NeverPaired(s);
      EscapeIsWritten(s[n..], t);
      WrittenFirst(p, PartsOf(s[n..]), t);
      assert s == s[..n] + s[n..] && s[..1] == [s[0]];
    }
  }

  lemma NoneWritten(t: string)
    ensures WriteParts([], t) == "\"" + t && TextOf([]) == ""
  {
  }

  lemma NeverPaired(s: string)
    requires s != ""
    ensures var p := if IsSeparator(s) then SeparatorPart(s) else PartOf(s[0]);
            var n := if IsSeparator(s) then 3 else 1;
            !Paired([p] + PartsOf(s[n..]))
  {
    hide Hex, PartsOf;
  }

  /** A raw first part is the first character. */
  lemma RawFirst(s: string)
    requires PartsOf(s) != [] && PartsOf(s)[0].Raw?
    ensures s != "" && s[0] == PartsOf(s)[0].c && PartsOf(s)[1..] == PartsOf(s[1..])
  {
    hide Hex;
    if !IsSeparator(s) {
      PartOfChar(s[0]);
    }
  }

  lemma {:induction false} NoRawSeparator(s: string)
    ensures forall i | 0 <= i < |PartsOf(s)| :: !RawSeparator(PartsOf(s)[i..])
    decreases |s|
  {
    hide PartOf, SeparatorPart;
    var parts := PartsOf(s);
    if s != "" {
      if RawSeparator(parts) {
        RawFirst(s);
        RawFirst(s[1..]);
        RawFirst(s[2..]);
      }
      var n := if IsSeparator(s) then 3 else 1;
      NoRawSeparator(s[n..]);
      assert parts[1..] == PartsOf(s[n..]) && parts[0..] == parts;
      forall i | 0 < i < |parts| ensures !RawSeparator(parts[i..]) {
        assert parts[i..] == parts[1..][i - 1..];
      }
    }
  }

  lemma StringIsTidy(s: string, t: string)
    ensures var parts := PartsOf(s);
            && ValidParts(parts) && TidyParts(parts) && TextOf(parts) == s
               && Quote(s) + t == "\"" + WriteParts(parts, t)
  {
    hide ValidPart, TidyPart, PartsOf, TextOf, WriteParts, Escape;
    EscapeIsWritten(s, t);
    NoRawSeparator(s);
    Regroup("\"", Escape(s) + "\"", t);
  }

  // ---------- values ----------

  function DocOf(v: Json): Doc
    requires Plain(v)
  {
    match v
    case Null => NullDoc
    case Bool(b) => BoolDoc(b)
    case Number(n) => NumberDoc(Numeral(n < 0, Digits(if n < 0 then -n else n), None, None))
    case String(s) => StringDoc(PartsOf(s))
    case Array(items) => ArrayDoc("", ItemsOf(items, ""))
    case Object(members) => ObjectDoc("", EntriesOf(members, ""))
  }

  function ItemsOf(items: seq<Json>, before: string): seq<Item>
    requires forall i | 0 <= i < |items| :: Plain(items[i])
  {
    if items == [] then [] else [Item(before, DocOf(items[0]), "")] + ItemsOf(items[1..], " ")
  }

  function EntriesOf(members: seq<Member>, before: string): seq<Entry>
    requires forall i | 0 <= i < |members| :: Plain(members[i].value)
  {
    if members == [] then []
    else
      [Entry(before, PartsOf(members[0].key), "", Item(" ", DocOf(members[0].value), ""))] +
        EntriesOf(members[1..], " ")
  }

  lemma NumberIsTidy(n: int, t: string)
    ensures var m := Numeral(n < 0, Digits(if n < 0 then -n else n), None, None);
            ValidNumeral(m) && (n < 0 ==> m.whole != "0") && NumeralValue(m) == Number(n) &&
            DumpNumber(n) + t == WriteNumeral(m, t)
  {
    hide Digits, ValueOf, Worth;
    var d := Digits(if n < 0 then -n else n);
    DigitsMeaning(if n < 0 then -n else n);
    WorthIsValue(d);
  }

  lemma NoDecimal(v: Json)
    requires Plain(v)
    ensures !v.Decimal?
  {
  }

  lemma PlainItems(items: seq<Json>)
    requires Plain(Array(items))
    ensures forall i | 0 <= i < |items| :: Plain(items[i])
  {
  }

  lemma PlainMembers(members: seq<Member>)
    requires Plain(Object(members))
    ensures Sorted(members) && forall i | 0 <= i < |members| :: Plain(members[i].value)
  {
  }

  lemma JoinLast(before: string, d: string, end: string, t: string)
    ensures before + (d + (end + t)) == before + (d + "") + end + t
  {
  }

  lemma JoinNext(before: string, d: string, more: string, end: string, t: string)
    ensures before + (d + ("," + (" " + more + end + t))) == before + (d + (", " + more)) + end + t
  {
  }

  ghost predicate IsItemOf(item: Item, before: string, v: Json) {
    item.before == before && item.after == "" && Valid(item.doc) && Tidy(item.doc) && Means(item.doc, v)
  }

  ghost predicate IsEntryOf(e: Entry, before: string, m: Member) {
    && e.before == before && ValidParts(e.key) && TidyParts(e.key) && TextOf(e.key) == m.key && e.colon == ""
    && IsItemOf(e.item, " ", m.value)
  }

  /** dump writes the tidy document that means the value. */
  lemma {:induction false} DumpIsTidy(v: Json, t: string)
    requires Plain(v)
    ensures var doc := DocOf(v);
            Valid(doc) && Tidy(doc) && Means(doc, v) && Write(doc, t) == Dump(v) + t
    decreases v, 1
  {
    hide Plain, TidyParts, ValidParts, TextOf, WriteParts, PartsOf, Quote, DumpNumber, WriteNumeral, ValidNumeral,
      NumeralValue, Digits;
    NoDecimal(v);
    match v
    case Null =>
    case Bool(_) =>
    case Number(n) => NumberIsTidy(n, t);
    case String(s) => StringIsTidy(s, t);
    case Array(items) => ArrayIsTidy(items, t);
    case Object(members) => ObjectIsTidy(members, t);
  }

  lemma {:induction false} ArrayIsTidy(items: seq<Json>, t: string)
    requires Plain(Array(items))
    ensures var v, doc := Array(items), DocOf(Array(items));
            Valid(doc) && Tidy(doc) && Means(doc, v) && Write(doc, t) == Dump(v) + t
    decreases items, 1
  {
    PlainItems(items);
    ItemsAreTidy(items, "", t);
    var docs := ItemsOf(items, "");
    ArrayWritten(items, docs, t);
    hide Plain, Dump, Write, Tidy, Valid, Means, IsItemOf;
    ArrayFits(items, docs);
  }

  lemma ArrayWritten(items: seq<Json>, docs: seq<Item>, t: string)
    requires Plain(Array(items)) && |docs| == |items|
    requires items != [] ==> WriteItems(docs, t) == "" + DumpItems(items) + "]" + t
    ensures Write(ArrayDoc("", docs), t) == Dump(Array(items)) + t
  {
    hide DumpItems, WriteItems, Plain;
    assert "" + ("]" + t) == "]" + t;
  }

  lemma ArrayFits(items: seq<Json>, docs: seq<Item>)
    requires |docs| == |items|
    requires forall i | 0 <= i < |items| :: IsItemOf(docs[i], if i == 0 then "" else " ", items[i])
    ensures var doc := ArrayDoc("", docs);
            Valid(doc) && Tidy(doc) && Means(doc, Array(items))
  {
    forall i | 0 <= i < |items| ensures IsItemOf(docs[i], if i == 0 then "" else " ", items[i]) { }
  }

  lemma {:induction false} ObjectIsTidy(members: seq<Member>, t: string)
    requires Plain(Object(members))
    ensures var v, doc := Object(members), DocOf(Object(members));
            Valid(doc) && Tidy(doc) && Means(doc, v) && Write(doc, t) == Dump(v) + t
    decreases members, 1
  {
    PlainMembers(members);
    EntriesAreTidy(members, "", t);
    var docs := EntriesOf(members, "");
    ObjectWritten(members, docs, t);
    hide Plain, Dump, Write, Tidy, Valid, Means, IsEntryOf, Sorted;
    ObjectFits(members, docs);
  }

  lemma ObjectWritten(members: seq<Member>, docs: seq<Entry>, t: string)
    requires Plain(Object(members)) && |docs| == |members|
    requires members != [] ==> WriteEntries(docs, t) == "" + DumpMembers(members) + "}" + t
    ensures Write(ObjectDoc("", docs), t) == Dump(Object(members)) + t
  {
    hide DumpMembers, WriteEntries, Plain;
    assert "" + ("}" + t) == "}" + t;
  }

  lemma ObjectFits(members: seq<Member>, docs: seq<Entry>)
    requires |docs| == |members| && Sorted(members)
    requires forall i | 0 <= i < |members| :: IsEntryOf(docs[i], if i == 0 then "" else " ", members[i])
    ensures var doc := ObjectDoc("", docs);
            Valid(doc) && Tidy(doc) && Means(doc, Object(members))
  {
    hide Sorted, TextOf, ValidParts, TidyParts, MeansMembers;
    forall i | 0 <= i < |members|
      ensures ValidEntry(docs[i]) && IsEntryOf(docs[i], if i == 0 then "" else " ", members[i])
    {
      assert IsEntryOf(docs[i], if i == 0 then "" else " ", members[i]);
    }
    EntriesMean(docs, members);
  }

  lemma {:induction false} ItemsAreTidy(items: seq<Json>, before: string, t: string)
    requires forall i | 0 <= i < |items| :: Plain(items[i])
    requires before == "" || before == " "
    ensures var docs := ItemsOf(items, before);
            && |docs| == |items|
            && (forall i | 0 <= i < |items| :: IsItemOf(docs[i], if i == 0 then before else " ", items[i]))
            && (items != [] ==> WriteItems(docs, t) == before + DumpItems(items) + "]" + t)
    decreases items, 0
  {
    hide Plain, Dump, Valid, Tidy, Means, Write;
    if items != [] {
      var docs, more := ItemsOf(items, before), ItemsOf(items[1..], " ");
      ItemsAreTidy(items[1..], " ", t);
      var tail := if |items| == 1 then "]" + t else "," + WriteItems(more, t);
      DumpIsTidy(items[0], tail);
      assert docs[1..] == more;
      assert "" + tail == tail;
      if |items| == 1 {
        JoinLast(before, Dump(items[0]), "]", t);
      } else {
        JoinNext(before, Dump(items[0]), DumpItems(items[1..]), "]", t);
      }
    }
  }

  lemma {:induction false} EntryIsTidy(m: Member, before: string, tail: string)
    requires Plain(m.value)
    ensures var e := Entry(before, PartsOf(m.key), "", Item(" ", DocOf(m.value), ""));
            && IsEntryOf(e, before, m)
            && WriteEntry(e, tail) == before + (Quote(m.key) + ": " + Dump(m.value) + tail)
    decreases m
  {
    hide Plain, Dump, Valid, Tidy, Means, Write, ValidParts, TidyParts, PartsOf, TextOf, WriteParts, Quote;
    var key, value := Quote(m.key), Dump(m.value);
    var rest := "" + (":" + (" " + (value + ("" + tail))));
    DumpIsTidy(m.value, "" + tail);
    StringIsTidy(m.key, rest);
    assert "" + tail == tail;
    assert rest == ": " + (value + tail);
    Regroup(key, ": ", value + tail);
    Regroup(key + ": ", value, tail);
  }

  lemma {:induction false} EntriesAreTidy(members: seq<Member>, before: string, t: string)
    requires forall i | 0 <= i < |members| :: Plain(members[i].value)
    requires before == "" || before == " "
    ensures var docs := EntriesOf(members, before);
            && |docs| == |members|
            && (forall i | 0 <= i < |members| :: IsEntryOf(docs[i], if i == 0 then before else " ", members[i]))
            && (members != [] ==> WriteEntries(docs, t) == before + DumpMembers(members) + "}" + t)
    decreases members, 0
  {
    hide Plain, Dump, DocOf, PartsOf, Quote, WriteEntry, IsEntryOf;
    if members != [] {
      var docs, more := EntriesOf(members, before), EntriesOf(members[1..], " ");
      EntriesAreTidy(members[1..], " ", t);
      var tail := if |members| == 1 then "}" + t else "," + WriteEntries(more, t);
      EntryIsTidy(members[0], before, tail);
      assert docs[1..] == more;
      var first := Quote(members[0].key) + ": " + Dump(members[0].value);
      if |members| == 1 {
        JoinLast(before, first, "}", t);
      } else {
        JoinNext(before, first, DumpMembers(members[1..]), "}", t);
      }
    }
  }

  lemma {:induction false} EntryStands(docs: seq<Entry>, members: seq<Member>, i: nat)
    requires Sorted(members) && |docs| == |members| && i < |members| && Means(docs[i].item.doc, members[i].value)
    requires forall e | 0 <= e < |docs| :: TextOf(docs[e].key) == members[e].key
    ensures Stands(docs, members[i])
  {
    hide TextOf, Means, Less;
    forall f | i < f < |members| ensures TextOf(docs[f].key) != TextOf(docs[i].key) {
      LessAsymmetric(members[i].key, members[f].key);
    }
    assert Latest(docs, i);
  }

  lemma {:induction false} EntriesMean(docs: seq<Entry>, members: seq<Member>)
    requires Sorted(members) && |docs| == |members|
    requires forall i | 0 <= i < |members| ::
               TextOf(docs[i].key) == members[i].key && Means(docs[i].item.doc, members[i].value)
    ensures MeansMembers(docs, members)
  {
    hide TextOf, Means, Sorted, Stands;
    forall i | 0 <= i < |members| ensures Stands(docs, members[i]) {
      EntryStands(docs, members, i);
    }
    forall e | 0 <= e < |docs| ensures HasKey(members, TextOf(docs[e].key)) {
      assert members[e].key == TextOf(docs[e].key);
    }
  }

  /** The text that dump writes is that of a tidy document that means the value. */
  lemma DumpExact(v: Json)
    requires Plain(v)
    ensures exists doc :: Valid(doc) && Tidy(doc) && Means(doc, v) && Dump(v) == Write(doc, "")
  {
    hide Valid, Tidy, Means, Write, Dump;
    DumpIsTidy(v, "");
    assert Dump(v) + "" == Dump(v);
  }
}
