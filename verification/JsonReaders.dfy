/** Json::parse reads exactly the documents of the grammar that are nested at most 200 deep, and gives each
    its meaning. */
module JsonReaders {
  import opened Sequences
  import opened JsonTexts
  import opened JsonRoundTrips
  import opened JsonGrammars
  import opened JsonSpellings

  // ---------- space ----------

  lemma {:induction false} SkipBlank(space: string, t: string)
    requires Blank(space)
    ensures Skip(space + t) == Skip(t)
  {
    if space == "" {
      assert space + t == t;
    } else {
      assert (space + t)[1..] == space[1..] + t;
      SkipBlank(space[1..], t);
    }
  }

  lemma {:induction false} SkippedIsBlank(text: string) returns (space: string)
    ensures Blank(space) && text == space + Skip(text)
  {
    space := "";
    if text != "" && IsSpace(text[0]) {
      var more := SkippedIsBlank(text[1..]);
      space := [text[0]] + more;
      assert text == [text[0]] + text[1..];
    }
  }

  lemma SkipTwice(text: string)
    ensures Skip(Skip(text)) == Skip(text)
  {
    if Skip(text) != "" { SkipNone(Skip(text)); }
  }

  /** The parser looks at nothing before the first character that is not space. */
  lemma ValueOfSkipped(text: string, other: string, depth: nat)
    requires Skip(text) == Skip(other)
    ensures ParseValue(text, depth) == ParseValue(other, depth)
  {
    hide Skip, ParseNumber, ParseString, ParseItems, ParseMembers, Expect;
  }

  lemma FollowsSpace(space: string, t: string)
    requires Blank(space) && Follows(t)
    ensures Follows(space + t)
  {
    assert space + t == if space == "" then t else [space[0]] + (space[1..] + t);
  }

  // ---------- keys in order ----------

  /** Lexicographic order: up to some position they agree, and there a ends, or has the smaller byte. */
  ghost predicate ComesBefore(a: string, b: string) {
    exists n | 0 <= n <= |a| && n < |b| :: a[..n] == b[..n] && (n == |a| || a[n] < b[n])
  }

  lemma SameFirst(a: string, b: string, n: nat)
    requires 0 < n <= |a| && n <= |b| && a[..n] == b[..n]
    ensures a[0] == b[0]
  {
    assert a[..n][0] == a[0] && b[..n][0] == b[0];
  }

  lemma {:induction false} LessIsOrder(a: string, b: string)
    ensures Less(a, b) <==> ComesBefore(a, b)
  {
    if a != "" && b != "" && a[0] == b[0] {
      LessIsOrder(a[1..], b[1..]);
      if ComesBefore(a[1..], b[1..]) {
        var n :| 0 <= n <= |a[1..]| && n < |b[1..]| && a[1..][..n] == b[1..][..n]
                 && (n == |a[1..]| || a[1..][n] < b[1..][n]);
        assert a[..n + 1] == [a[0]] + a[1..][..n] && b[..n + 1] == [b[0]] + b[1..][..n];
      }
      if ComesBefore(a, b) {
        var n :| 0 <= n <= |a| && n < |b| && a[..n] == b[..n] && (n == |a| || a[n] < b[n]);
        assert n > 0;
        assert a[1..][..n - 1] == a[..n][1..] && b[1..][..n - 1] == b[..n][1..];
      }
    } else if a == "" && b != "" {
      assert a[..0] == b[..0];
    } else if b != "" && a[0] < b[0] {
      assert a[..0] == b[..0];
    } else if ComesBefore(a, b) {
      var n :| 0 <= n <= |a| && n < |b| && a[..n] == b[..n] && (n == |a| || a[n] < b[n]);
      if n > 0 { SameFirst(a, b, n); }
    }
  }

  lemma {:induction false} LessTransitive(a: string, b: string, c: string)
    requires Less(a, b) && Less(b, c)
    ensures Less(a, c)
  {
    if a != "" && a[0] == b[0] && b[0] == c[0] {
      LessTransitive(a[1..], b[1..], c[1..]);
    }
  }

  lemma {:induction false} LessTotal(a: string, b: string)
    ensures a == b || Less(a, b) || Less(b, a)
  {
    if a != "" && b != "" && a[0] == b[0] {
      LessTotal(a[1..], b[1..]);
      assert a == [a[0]] + a[1..] && b == [b[0]] + b[1..];
    }
  }

  /** r has the member in place of the one with its key. */
  ghost predicate IsInserted(members: seq<Member>, key: string, value: Json, r: seq<Member>) {
    Sorted(r) && forall m :: m in r <==> m == Member(key, value) || (m in members && m.key != key)
  }

  /** data[key] = value keeps the order, and replaces the member with that key. */
  lemma {:induction false} InsertExact(members: seq<Member>, key: string, value: Json)
    requires Sorted(members)
    ensures IsInserted(members, key, value, Insert(members, key, value))
    decreases |members|
  {
    if members != [] && members[0].key != key && !Less(key, members[0].key) {
      InsertExact(members[1..], key, value);
      InsertInside(members, key, value);
    } else {
      InsertFirst(members, key, value);
    }
  }

  lemma InsertFirst(members: seq<Member>, key: string, value: Json)
    requires Sorted(members) && (members == [] || members[0].key == key || Less(key, members[0].key))
    ensures IsInserted(members, key, value, Insert(members, key, value))
  {
    hide Less;
    forall i | 0 <= i < |members| && Less(key, members[i].key) ensures key != members[i].key {
      LessAsymmetric(key, members[i].key);
    }
    if members != [] && members[0].key == key {
      assert members == [members[0]] + members[1..];
      assert forall i | 0 < i < |members| :: Less(key, members[i].key);
    } else if members != [] {
      forall i | 0 <= i < |members| ensures Less(key, members[i].key) {
        if i > 0 { LessTransitive(key, members[0].key, members[i].key); }
      }
    }
  }

  lemma InsertInside(members: seq<Member>, key: string, value: Json)
    requires Sorted(members) && members != [] && members[0].key != key && !Less(key, members[0].key)
    requires IsInserted(members[1..], key, value, Insert(members[1..], key, value))
    ensures IsInserted(members, key, value, Insert(members, key, value))
  {
    var rest := Insert(members[1..], key, value);
    LessTotal(key, members[0].key);
    assert Insert(members, key, value) == [members[0]] + rest;
    hide Less, Insert;
    assert members == [members[0]] + members[1..];
    forall i | 0 <= i < |rest| ensures Less(members[0].key, rest[i].key) {
      assert rest[i] in rest;
    }
  }

  lemma StandsOn(entries: seq<Entry>, n: nat, m: Member)
    requires n < |entries| && Stands(entries[..n], m) && m.key != TextOf(entries[n].key)
    ensures Stands(entries[..n + 1], m)
  {
    hide Means, TextOf;
    var a, b := entries[..n], entries[..n + 1];
    var e :| 0 <= e < |a| && Latest(a, e) && TextOf(a[e].key) == m.key && Means(a[e].item.doc, m.value);
    assert forall f | 0 <= f < n :: b[f] == a[f];
    assert Latest(b, e);
  }

  lemma KeysStay(entries: seq<Entry>, data: seq<Member>, key: string, value: Json, r: seq<Member>, e: nat)
    requires IsInserted(data, key, value, r) && e < |entries|
    requires TextOf(entries[e].key) == key || HasKey(data, TextOf(entries[e].key))
    ensures HasKey(r, TextOf(entries[e].key))
  {
    hide TextOf, Sorted;
    if TextOf(entries[e].key) == key {
      assert Member(key, value) in r;
    } else {
      var i :| 0 <= i < |data| && data[i].key == TextOf(entries[e].key);
      assert data[i] in r;
    }
  }

  /** One entry more: its key now has its value. */
  lemma InsertMeans(entries: seq<Entry>, n: nat, data: seq<Member>, v: Json)
    requires n < |entries| && MeansMembers(entries[..n], data) && Means(entries[n].item.doc, v)
    ensures MeansMembers(entries[..n + 1], Insert(data, TextOf(entries[n].key), v))
  {
    hide Means, TextOf, Insert, Less;
    var a, b, key := entries[..n], entries[..n + 1], TextOf(entries[n].key);
    var r := Insert(data, key, v);
    InsertExact(data, key, v);
    forall e | 0 <= e < |b| ensures HasKey(r, TextOf(b[e].key)) {
      assert e < n ==> b[e] == a[e];
      KeysStay(b, data, key, v, r, e);
    }
    forall i | 0 <= i < |r| ensures Stands(b, r[i]) {
      assert r[i] in r;
      if r[i] == Member(key, v) {
        assert b[n] == entries[n] && Latest(b, n);
      } else {
        var j :| 0 <= j < |data| && data[j] == r[i];
        assert Stands(a, data[j]);
        StandsOn(entries, n, r[i]);
      }
    }
  }

  // ---------- from documents to values ----------

  lemma WriteHead(doc: Doc, t: string)
    requires Valid(doc)
    ensures Write(doc, t) != "" && !IsSpace(Write(doc, t)[0]) && Write(doc, t)[0] != ']'
  {
  }

  lemma KeywordRead(doc: Doc, depth: nat, t: string)
    requires (doc.NullDoc? || doc.BoolDoc?) && depth <= MAX_DEPTH
    ensures ParseValue(Write(doc, t), depth) == Done(if doc.NullDoc? then Null else Bool(doc.b), t)
  {
    var word := match doc case BoolDoc(b) => if b then "true" else "false" case _ => "null";
    var text := word + t;
    SkipNone(text);
    assert text[..|word|] == word && text[|word|..] == t;
  }

  lemma NumberRead(n: Numeral, depth: nat, t: string)
    requires ValidNumeral(n) && Follows(t) && depth <= MAX_DEPTH
    ensures ParseValue(WriteNumeral(n, t), depth) == Done(NumeralValue(n), t)
  {
    hide ParseNumber, NumeralValue;
    ReadsNumeral(n, t);
    var text := WriteNumeral(n, t);
    assert text[0] == '-' || IsDigit(text[0]) by { assert text[0] == if n.negative then '-' else n.whole[0]; }
    SkipNone(text);
  }

  lemma StringRead(parts: seq<Part>, depth: nat, t: string)
    requires ValidParts(parts) && depth <= MAX_DEPTH
    ensures ParseValue("\"" + WriteParts(parts, t), depth) == Done(String(TextOf(parts)), t)
  {
    hide ParseString, WriteParts, TextOf;
    var text := "\"" + WriteParts(parts, t);
    assert text[1..] == WriteParts(parts, t);
    SkipNone(text);
    ReadsString(parts, t, "", -1);
    assert "" + TextOf(parts) == TextOf(parts);
  }

  lemma ArrayStep(x: string, depth: nat)
    requires depth <= MAX_DEPTH
    ensures ParseValue("[" + x, depth) ==
            var u := Skip(x);
            if u == "" then Failed else if u[0] == ']' then Done(Array([]), u[1..]) else ParseItems(u, depth, [])
  {
    hide ParseItems, ParseMembers;
    SkipNone("[" + x);
    assert ("[" + x)[1..] == x;
  }

  lemma ObjectStep(x: string, depth: nat)
    requires depth <= MAX_DEPTH
    ensures ParseValue("{" + x, depth) ==
            var u := Skip(x);
            if u == "" then Failed else if u[0] == '}' then Done(Object([]), u[1..]) else ParseMembers(u, depth, [])
  {
    hide ParseItems, ParseMembers;
    SkipNone("{" + x);
    assert ("{" + x)[1..] == x;
  }

  lemma EndRead(space: string, end: char, t: string)
    requires Blank(space) && (end == ']' || end == '}')
    ensures Following(space + ([end] + t), end) == Done(true, t)
  {
    SkipBlank(space, [end] + t);
    SkipNone([end] + t);
    assert ([end] + t)[1..] == t;
  }

  lemma CommaRead(space: string, end: char, x: string)
    requires Blank(space) && (end == ']' || end == '}') && Skip(x) != ""
    ensures Following(space + ("," + x), end) == Done(false, Skip(x))
  {
    SkipBlank(space, "," + x);
    SkipNone("," + x);
    assert ("," + x)[1..] == x;
  }

  lemma KeyRead(e: Entry, t: string)
    requires ValidEntry(e)
    ensures Skip(WriteEntry(e, t)) != "" && Skip(WriteEntry(e, t))[0] == '\"'
    ensures ParseKey(Skip(WriteEntry(e, t))) == Done(TextOf(e.key), WriteItem(e.item, t))
  {
    hide ParseString, WriteParts, TextOf, WriteItem;
    var value := ":" + WriteItem(e.item, t);
    var text := "\"" + WriteParts(e.key, e.colon + value);
    SkipBlank(e.before, text);
    SkipNone(text);
    assert text[1..] == WriteParts(e.key, e.colon + value);
    ReadsString(e.key, e.colon + value, "", -1);
    assert "" + TextOf(e.key) == TextOf(e.key);
    SkipBlank(e.colon, value);
    SkipNone(value);
    assert value[1..] == WriteItem(e.item, t);
  }

  lemma ItemsStep(text: string, depth: nat, data: seq<Json>)
    ensures ParseItems(text, depth, data) ==
            var v := ParseValue(text, depth + 1);
            if v.Failed? then Failed
            else
              var f := Following(v.rest, ']');
              if f.Failed? then Failed
              else if f.value then Done(Array(data + [v.value]), f.rest)
              else ParseItems(f.rest, depth, data + [v.value])
  {
  }

  lemma ItemSpace(item: Item)
    requires ValidItem(item)
    ensures Blank(item.after)
  {
  }

  lemma EntryItem(e: Entry)
    requires ValidEntry(e)
    ensures ValidItem(e.item)
  {
  }

  ghost predicate AllMean(items: seq<Item>, values: seq<Json>) {
    |values| == |items| && forall i | 0 <= i < |items| :: Means(items[i].doc, values[i])
  }

  /** A document of the grammar, not nested too deep, is read as one of its meanings. */
  lemma {:induction false} Reads(doc: Doc, depth: nat, t: string) returns (v: Json)
    requires Valid(doc) && depth <= MAX_DEPTH && Within(doc, MAX_DEPTH - depth) && Follows(t)
    ensures ParseValue(Write(doc, t), depth) == Done(v, t) && Means(doc, v)
    decreases doc
  {
    hide ParseValue, ParseItems, ParseMembers, NumeralValue, TextOf, WriteItems, WriteEntries, WriteNumeral,
         MeansMembers;
    match doc
    case NullDoc => v := Null; KeywordRead(doc, depth, t);
    case BoolDoc(b) => v := Bool(b); KeywordRead(doc, depth, t);
    case NumberDoc(n) => v := NumeralValue(n); NumberRead(n, depth, t);
    case StringDoc(parts) => v := String(TextOf(parts)); StringRead(parts, depth, t);
    case ArrayDoc(gap, items) =>
      if items == [] {
        v := Array([]);
        ArrayStep(gap + ("]" + t), depth);
        SkipBlank(gap, "]" + t);
        SkipNone("]" + t);
        assert ("]" + t)[1..] == t;
      } else {
        ArrayStep(WriteItems(items, t), depth);
        assert Within(items[0].doc, MAX_DEPTH - depth - 1);
        var values := ReadsItems(items, depth, [], t);
        assert [] + values == values;
        v := Array(values);
      }
    case ObjectDoc(gap, entries) =>
      if entries == [] {
        v := Object([]);
        ObjectStep(gap + ("}" + t), depth);
        SkipBlank(gap, "}" + t);
        SkipNone("}" + t);
        assert ("}" + t)[1..] == t;
        NoMembers(entries);
      } else {
        ObjectStep(WriteEntries(entries, t), depth);
        assert Within(entries[0].item.doc, MAX_DEPTH - depth - 1);
        assert entries[0..] == entries;
        NoMembers(entries[..0]);
        var members := ReadsEntries(entries, 0, [], depth, t);
        v := Object(members);
      }
  }

  lemma NoMembers(entries: seq<Entry>)
    requires entries == []
    ensures MeansMembers(entries, [])
  {
  }

  lemma {:induction false} ReadsItem(item: Item, depth: nat, t: string) returns (v: Json)
    requires ValidItem(item) && depth <= MAX_DEPTH && Within(item.doc, MAX_DEPTH - depth) && Follows(t)
    ensures ParseValue(WriteItem(item, t), depth) == Done(v, item.after + t) && Means(item.doc, v)
    ensures Skip(WriteItem(item, t)) != "" && Skip(WriteItem(item, t))[0] != ']'
    ensures ParseValue(Skip(WriteItem(item, t)), depth) == Done(v, item.after + t)
    decreases item
  {
    hide ParseValue, Write, Valid, Within, Means;
    FollowsSpace(item.after, t);
    v := Reads(item.doc, depth, item.after + t);
    var text := Write(item.doc, item.after + t);
    WriteHead(item.doc, item.after + t);
    SkipNone(text);
    SkipBlank(item.before, text);
    ValueOfSkipped(WriteItem(item, t), text, depth);
  }

  lemma {:induction false} ReadsItems(items: seq<Item>, depth: nat, data: seq<Json>, t: string)
    returns (values: seq<Json>)
    requires items != [] && depth < MAX_DEPTH
    requires forall i | 0 <= i < |items| :: ValidItem(items[i]) && Within(items[i].doc, MAX_DEPTH - depth - 1)
    ensures var text := Skip(WriteItems(items, t));
            && text != "" && text[0] != ']' && ParseItems(text, depth, data) == Done(Array(data + values), t)
    ensures AllMean(items, values)
    decreases items
  {
    hide ParseValue, ParseItems, ValidItem, Within, Means, Following, WriteItem, Skip;
    var tail := if |items| == 1 then "]" + t else "," + WriteItems(items[1..], t);
    var v := ReadsItem(items[0], depth + 1, tail);
    ItemsStep(Skip(WriteItems(items, t)), depth, data);
    ItemSpace(items[0]);
    if |items| == 1 {
      EndRead(items[0].after, ']', t);
      values := [v];
    } else {
      var more := ReadsItems(items[1..], depth, data + [v], t);
      CommaRead(items[0].after, ']', WriteItems(items[1..], t));
      values := [v] + more;
      Regroup(data, [v], more);
    }
  }

  lemma {:induction false} ReadsEntries(entries: seq<Entry>, n: nat, data: seq<Member>, depth: nat, t: string)
    returns (members: seq<Member>)
    requires n < |entries| && depth < MAX_DEPTH && MeansMembers(entries[..n], data)
    requires forall i | 0 <= i < |entries| ::
               ValidEntry(entries[i]) && Within(entries[i].item.doc, MAX_DEPTH - depth - 1)
    ensures var text := Skip(WriteEntries(entries[n..], t));
            && text != "" && text[0] != '}' && ParseMembers(text, depth, data) == Done(Object(members), t)
    ensures MeansMembers(entries, members)
    decreases entries, |entries| - n
  {
    hide ParseValue, ParseMembers, ParseKey, ValidEntry, Within, Means, MeansMembers, Following, WriteItem, WriteEntry,
      Skip, TextOf, Insert;
    var e, last := entries[n], n + 1 == |entries|;
    assert ValidEntry(e) && Within(e.item.doc, MAX_DEPTH - depth - 1);
    assert entries[n..][0] == e && entries[n..][1..] == entries[n + 1..];
    var tail := if last then "}" + t else "," + WriteEntries(entries[n + 1..], t);
    assert WriteEntries(entries[n..], t) == WriteEntry(e, tail);
    KeyRead(e, tail);
    EntryItem(e);
    ItemSpace(e.item);
    var v := ReadsItem(e.item, depth + 1, tail);
    MembersStep(Skip(WriteEntry(e, tail)), depth, data, TextOf(e.key), WriteItem(e.item, tail));
    InsertMeans(entries, n, data, v);
    if last {
      EndRead(e.item.after, '}', t);
      members := Insert(data, TextOf(e.key), v);
      assert entries[..n + 1] == entries;
    } else {
      members := ReadsEntries(entries, n + 1, Insert(data, TextOf(e.key), v), depth, t);
      CommaRead(e.item.after, '}', WriteEntries(entries[n + 1..], t));
    }
  }

  // ---------- a document has one meaning ----------

  lemma FirstIn(a: seq<Member>)
    ensures a != [] ==> a[0] in a
  {
  }

  lemma {:induction false} SameMembers(a: seq<Member>, b: seq<Member>)
    requires Sorted(a) && Sorted(b) && forall m :: m in a <==> m in b
    ensures a == b
  {
    hide Less;
    FirstIn(a);
    FirstIn(b);
    if a != [] {
      SmallestFirst(a, b);
      SmallestFirst(b, a);
      assert a == [a[0]] + a[1..] && b == [b[0]] + b[1..];
      if a[0] != b[0] { LessAsymmetric(a[0].key, b[0].key); }
      NotAgain(a);
      NotAgain(b);
      forall m ensures m in a[1..] <==> m in b[1..] {
        assert m in a[1..] <==> m in a && m != a[0];
        assert m in b[1..] <==> m in b && m != b[0];
      }
      SameMembers(a[1..], b[1..]);
    }
  }

  lemma NotAgain(a: seq<Member>)
    requires Sorted(a) && a != []
    ensures a[0] !in a[1..]
  {
    forall i | 0 < i < |a| ensures a[i] != a[0] {
      LessAsymmetric(a[0].key, a[i].key);
    }
  }

  lemma SmallestFirst(a: seq<Member>, b: seq<Member>)
    requires Sorted(a) && a != [] && b != [] && b[0] in a
    ensures b[0] == a[0] || Less(a[0].key, b[0].key)
  {
    hide Less;
  }

  lemma {:induction false} OneMeaning(doc: Doc, v: Json, w: Json)
    requires Means(doc, v) && Means(doc, w)
    ensures v == w
    decreases doc
  {
    hide TextOf, NumeralValue;
    match doc
    case ArrayDoc(_, items) =>
      forall i | 0 <= i < |items| ensures v.items[i] == w.items[i] {
        OneMeaning(items[i].doc, v.items[i], w.items[i]);
      }
    case ObjectDoc(_, entries) =>
      forall m ensures m in v.members <==> m in w.members {
        if m in v.members { InBoth(entries, v.members, w.members, m); }
        if m in w.members { InBoth(entries, w.members, v.members, m); }
      }
      SameMembers(v.members, w.members);
    case _ =>
  }

  lemma {:induction false} InBoth(entries: seq<Entry>, a: seq<Member>, b: seq<Member>, m: Member)
    requires MeansMembers(entries, a) && MeansMembers(entries, b) && m in a
    ensures m in b
    decreases entries
  {
    hide Means, TextOf, Sorted;
    var e :| 0 <= e < |entries| && Latest(entries, e) && TextOf(entries[e].key) == m.key
             && Means(entries[e].item.doc, m.value);
    var i :| 0 <= i < |b| && b[i].key == TextOf(entries[e].key);
    var f :| 0 <= f < |entries| && Latest(entries, f) && TextOf(entries[f].key) == b[i].key
             && Means(entries[f].item.doc, b[i].value);
    assert e == f;
    OneMeaning(entries[e].item.doc, m.value, b[i].value);
  }

  // ---------- from texts to documents ----------

  /** Space, and then the end or a comma and space. */
  lemma FollowingIsSpelled(text: string, end: char) returns (after: string, gap: string)
    requires (end == ']' || end == '}') && Following(text, end).Done?
    ensures var f := Following(text, end);
            && Blank(after) && Blank(gap)
            && text == after + if f.value then [end] + f.rest else "," + (gap + f.rest)
  {
    hide Skip;
    after := SkippedIsBlank(text);
    var t := Skip(text);
    assert t != "" && (t[0] == end || t[0] == ',');
    gap := SkippedIsBlank(t[1..]);
    assert t == [t[0]] + t[1..];
  }

  lemma KeyIsSpelled(text: string) returns (key: seq<Part>, colon: string)
    requires ParseKey(text).Done?
    ensures ValidParts(key) && Blank(colon) && text == "\"" + WriteParts(key, colon + (":" + ParseKey(text).rest))
  {
    hide ParseString, WriteParts, ValidPart;
    key := StringIsSpelled(text[1..], "", -1);
    var rest := ParseString(text[1..], "", -1).rest;
    colon := SkippedIsBlank(rest);
    assert Skip(rest) == ":" + Skip(rest)[1..];
    assert text == "\"" + text[1..];
  }

  lemma KeywordIsSpelled(text: string, word: string, value: Json)
    requires word != "" && Expect(text, word, value).Done?
    ensures text == word + Expect(text, word, value).rest
  {
  }

  /** What the parser does after space. */
  lemma ValueIs(t: string, depth: nat)
    requires t != "" && Skip(t) == t && ParseValue(t, depth).Done?
    ensures depth <= MAX_DEPTH
    ensures var r := ParseValue(t, depth);
            var u := Skip(t[1..]);
            && (t[0] == '-' || IsDigit(t[0]) || t[0] in "tfn\"" || (t[0] in "{[" && u != ""))
            && (t[0] == '-' || IsDigit(t[0]) ==> r == ParseNumber(t))
            && (t[0] == 't' ==> r == Expect(t, "true", Bool(true)))
            && (t[0] == 'f' ==> r == Expect(t, "false", Bool(false)))
            && (t[0] == 'n' ==> r == Expect(t, "null", Null))
            && (t[0] == '\"' ==> ParseString(t[1..], "", -1).Done? && r.rest == ParseString(t[1..], "", -1).rest)
            && (t[0] == '{' ==> r == if u[0] == '}' then Done(Object([]), u[1..]) else ParseMembers(u, depth, []))
            && (t[0] == '[' ==> r == if u[0] == ']' then Done(Array([]), u[1..]) else ParseItems(u, depth, []))
  {
    hide ParseNumber, ParseString, ParseItems, ParseMembers, Expect, Skip;
  }

  /** Whatever is read as a value is a document of the grammar, nested no deeper than the parser goes. */
  lemma {:induction false} ValueIsSpelled(text: string, depth: nat) returns (before: string, doc: Doc)
    requires ParseValue(text, depth).Done?
    ensures depth <= MAX_DEPTH && Blank(before) && Valid(doc) && Within(doc, MAX_DEPTH - depth)
    ensures text == before + Write(doc, ParseValue(text, depth).rest)
    decreases |text|, 2
  {
    hide ParseValue, WriteNumeral, ValidNumeral, ValidParts, WriteParts, ParseNumber, ParseString, Expect, ParseItems,
      ParseMembers, WriteItems, WriteEntries;
    before := SkippedIsBlank(text);
    var t := Skip(text);
    SkipTwice(text);
    ValueOfSkipped(text, t, depth);
    NotNothing(text, depth);
    ValueIs(t, depth);
    if t[0] == '-' || IsDigit(t[0]) {
      var n := NumberIsSpelled(t);
      doc := NumberDoc(n);
    } else if t[0] == 't' {
      doc := BoolDoc(true);
      KeywordIsSpelled(t, "true", Bool(true));
    } else if t[0] == 'f' {
      doc := BoolDoc(false);
      KeywordIsSpelled(t, "false", Bool(false));
    } else if t[0] == 'n' {
      doc := NullDoc;
      KeywordIsSpelled(t, "null", Null);
    } else if t[0] == '\"' {
      var parts := StringIsSpelled(t[1..], "", -1);
      doc := StringDoc(parts);
      assert t == "\"" + t[1..];
    } else {
      doc := BracketsAreSpelled(t, depth);
    }
  }

  lemma NotNothing(text: string, depth: nat)
    requires ParseValue(text, depth).Done?
    ensures Skip(text) != ""
  {
    hide ParseNumber, ParseString, ParseItems, ParseMembers, Expect, Skip;
  }

  lemma {:induction false} BracketsAreSpelled(t: string, depth: nat) returns (doc: Doc)
    requires t != "" && Skip(t) == t && ParseValue(t, depth).Done? && depth <= MAX_DEPTH && (t[0] == '{' || t[0] == '[')
    ensures Valid(doc) && Within(doc, MAX_DEPTH - depth) && t == Write(doc, ParseValue(t, depth).rest)
    decreases |t|, 1
  {
    hide ParseValue, ParseNumber, ParseString, Expect, ParseItems, ParseMembers, WriteItems, WriteEntries, Skip;
    ValueIs(t, depth);
    var x := t[1..];
    var u := Skip(x);
    var gap := SkippedIsBlank(x);
    assert t == [t[0]] + x && u == [u[0]] + u[1..];
    if t[0] == '{' {
      if u[0] == '}' {
        doc := ObjectDoc(gap, []);
      } else {
        var entries := MembersAreSpelled(gap, u, depth, []);
        doc := ObjectDoc("", entries);
      }
    } else {
      if u[0] == ']' {
        doc := ArrayDoc(gap, []);
      } else {
        var items := ItemsAreSpelled(gap, u, depth, []);
        doc := ArrayDoc("", items);
      }
    }
  }

  lemma {:induction false} ItemsAreSpelled(space: string, text: string, depth: nat, data: seq<Json>)
    returns (items: seq<Item>)
    requires Blank(space) && ParseItems(text, depth, data).Done?
    ensures items != [] && depth < MAX_DEPTH
    ensures forall i | 0 <= i < |items| :: ValidItem(items[i]) && Within(items[i].doc, MAX_DEPTH - depth - 1)
    ensures space + text == WriteItems(items, ParseItems(text, depth, data).rest)
    decreases |text|, 3
  {
    hide ParseValue, ParseItems, Following, Write, Valid, Within;
    ItemsStep(text, depth, data);
    var v := ParseValue(text, depth + 1);
    var before, doc := ValueIsSpelled(text, depth + 1);
    var after, gap := FollowingIsSpelled(v.rest, ']');
    var f := Following(v.rest, ']');
    var item := Item(space + before, doc, after);
    var rest := ParseItems(text, depth, data).rest;
    Regroup(space, before, Write(doc, v.rest));
    if f.value {
      items := [item];
    } else {
      var more := ItemsAreSpelled(gap, f.rest, depth, data + [v.value]);
      items := [item] + more;
      assert items[1..] == more;
    }
  }

  lemma {:induction false} MembersAreSpelled(space: string, text: string, depth: nat, data: seq<Member>)
    returns (entries: seq<Entry>)
    requires Blank(space) && ParseMembers(text, depth, data).Done?
    ensures entries != [] && depth < MAX_DEPTH
    ensures forall i | 0 <= i < |entries| ::
              ValidEntry(entries[i]) && Within(entries[i].item.doc, MAX_DEPTH - depth - 1)
    ensures space + text == WriteEntries(entries, ParseMembers(text, depth, data).rest)
    decreases |text|, 3
  {
    hide ParseValue, ParseMembers, ParseKey, Following, Write, WriteParts, ValidParts, Valid, Within, Insert;
    MembersUnfold(text, depth, data);
    var k := ParseKey(text);
    var key, colon := KeyIsSpelled(text);
    var v := ParseValue(k.rest, depth + 1);
    var before, doc := ValueIsSpelled(k.rest, depth + 1);
    var after, gap := FollowingIsSpelled(v.rest, '}');
    var f := Following(v.rest, '}');
    var e := Entry(space, key, colon, Item(before, doc, after));
    assert forall tail :: v.rest == after + tail ==> WriteEntry(e, tail) == space + text;
    if f.value {
      entries := [e];
    } else {
      var more := MembersAreSpelled(gap, f.rest, depth, Insert(data, k.value, v.value));
      entries := [e] + more;
      assert entries[1..] == more;
    }
  }

  lemma MembersUnfold(text: string, depth: nat, data: seq<Member>)
    requires ParseMembers(text, depth, data).Done?
    ensures ParseKey(text).Done? && ParseValue(ParseKey(text).rest, depth + 1).Done?
    ensures var k := ParseKey(text);
            var v := ParseValue(k.rest, depth + 1);
            var f := Following(v.rest, '}');
            && f.Done? && ParseMembers(text, depth, data) ==
               if f.value then Done(Object(Insert(data, k.value, v.value)), f.rest)
               else ParseMembers(f.rest, depth, Insert(data, k.value, v.value))
  {
    hide ParseValue, ParseKey, Following, Insert;
  }

  // ---------- the law ----------

  /** Json::parse gives v exactly for the texts of documents that mean v. */
  lemma ParseExact(text: string, v: Json)
    ensures Parse(text) == Done(v, "") <==>
            exists before, doc, after :: IsText(text, before, doc, after) && Means(doc, v)
  {
    hide ParseValue, Write, Valid, Within, Means;
    if before, doc, after :| IsText(text, before, doc, after) && Means(doc, v) {
      BlankFollows(after);
      var w := Reads(doc, 0, after);
      OneMeaning(doc, v, w);
      SkipBlank(before, Write(doc, after));
      ValueOfSkipped(text, Write(doc, after), 0);
    }
    if Parse(text) == Done(v, "") {
      var before, doc := ValueIsSpelled(text, 0);
      var after := ParseValue(text, 0).rest;
      var space := SkippedIsBlank(after);
      assert space + "" == space == after;
      BlankFollows(after);
      var w := Reads(doc, 0, after);
      SkipBlank(before, Write(doc, after));
      ValueOfSkipped(text, Write(doc, after), 0);
      assert IsText(text, before, doc, after);
    }
  }

  /** It succeeds exactly for the texts of documents. */
  lemma ParseSucceeds(text: string)
    ensures Parse(text).Done? <==>
            exists before, doc, after :: IsText(text, before, doc, after)
  {
    hide ParseValue, Write, Valid, Within, Means;
    if before, doc, after :| IsText(text, before, doc, after) {
      BlankFollows(after);
      var v := Reads(doc, 0, after);
      ParseExact(text, v);
    }
    if Parse(text).Done? {
      ParseExact(text, Parse(text).value);
    }
  }

  lemma BlankFollows(space: string)
    requires Blank(space)
    ensures Follows(space) && Skip(space) == ""
  {
    assert space + "" == space;
    SkipBlank(space, "");
  }
}
