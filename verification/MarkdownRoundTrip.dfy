// Reading what was rendered gives the note back, up to the flattening of line breaks
// in front matter and the outer white space of the body (internal/model/markdown.go).
module MarkdownRoundTrip {
  import opened GoText
  import opened Patches
  import opened YamlScalars
  import opened Markdown
  import F = FrontMatter

  function FlatAll(values: seq<string>): seq<string> {
    if values == [] then [] else FlatAll(values[..|values| - 1]) + [Flat(values[|values| - 1])]
  }

  function FlatOrNone(value: string): string {
    if Blank(value) then "" else Flat(value)
  }

  function ExtraOf(extra: seq<Property>, items: seq<string>): seq<Property> {
    if items == [] then extra else F.WithExtra(ExtraOf(extra, items[..|items| - 1]), Flat(items[|items| - 1]))
  }

  // The note as it should come back.
  function Expected(note: Note, src: Source): Parsed {
    Parsed(FlatOrNone(note.title), TrimSpace(FlatOrNone(note.date)),
           FlatAll(DedupeStrings(note.categories)), FlatOrNone(note.uid),
           FlatAll(DedupeStrings(note.related)), FlatAll(DedupeStrings(note.links)),
           FlatOrNone(src.account), FlatOrNone(src.collection),
           ExtraOf([], AllItems(note.other)), TrimSpace(note.description))
  }

  /* ---- One line, written and read ---- */

  // A key of ours: small letters and underscores.
  predicate PlainKey(key: string) {
    key != "" && forall i :: 0 <= i < |key| ==> 'a' <= key[i] <= 'z' || key[i] == '_'
  }

  lemma {:induction false} PlainKeyStays(key: string)
    requires forall i :: 0 <= i < |key| ==> 'a' <= key[i] <= 'z' || key[i] == '_'
    ensures F.ToLower(key) == key
  {
    if key != "" {
      PlainKeyStays(key[1..]);
      assert key == [key[0]] + key[1..];
    }
  }

  lemma {:induction false} IndexOfColon(key: string, rest: string)
    requires ':' !in key
    ensures F.IndexOf(key + ":" + rest, ':') == |key|
  {
    var s := key + ":" + rest;
    if key == "" {
      assert s[0] == ':';
    } else {
      assert s[0] == key[0] && s[1..] == key[1..] + ":" + rest;
      IndexOfColon(key[1..], rest);
    }
  }

  // A line that begins and ends with ink is read as it stands.
  lemma InkyLine(line: string)
    requires line != "" && !IsSpace(line[0]) && !IsSpace(line[|line| - 1])
    ensures F.TrimRightSet(line, F.LINE_SPACE) == line && TrimSpace(line) == line && F.TrimLeftSet(line, F.LINE_SPACE) == line
  {
    TrimmedStays(line);
    assert F.LINE_SPACE == [' ', '\t'];
  }

  lemma NoListItem(line: string)
    requires F.TrimLeftSet(line, F.LINE_SPACE) == line && line != "" && line[0] != '-'
    ensures F.ListItem(line) == F.None
  {
  }

  lemma ReadKeyLine(line: string, i: nat, key: string, n: Parsed)
    requires line != "" && line[0] != '#' && i < |line| && F.IndexOf(line, ':') == i && F.ListItem(line) == F.None
    requires F.TrimRightSet(line, F.LINE_SPACE) == line && TrimSpace(line) == line
    ensures var name := F.ToLower(TrimSpace(line[..i]));
            F.ReadLine(line, key, n) == (name, F.WithField(n, name, Unquote(TrimSpace(line[i + 1..]))))
  {
    hide Unquote, F.WithField, F.WithItem, F.ListItem, F.ToLower, F.IndexOf, F.TrimRightSet, TrimSpace;
  }

  lemma KeyIsInk(name: string)
    requires PlainKey(name)
    ensures name != "" && name[0] != '#' && name[0] != '-' && !IsSpace(name[0]) && ':' !in name
    ensures TrimSpace(name) == name && F.ToLower(name) == name
  {
    TrimmedStays(name);
    PlainKeyStays(name);
  }

  lemma KeyLineRead(line: string, name: string, value: string, key: string, n: Parsed)
    requires PlainKey(name) && line == name + ":" + value && !IsSpace(line[|line| - 1])
    ensures F.ReadLine(line, key, n) == (name, F.WithField(n, name, Unquote(TrimSpace(value))))
  {
    hide Unquote, F.WithField, F.ReadLine, TrimSpace, F.TrimRightSet, F.ListItem, F.ToLower, F.IndexOf, F.TrimLeftSet, PlainKey;
    KeyIsInk(name);
    assert line[0] == name[0];
    InkyLine(line);
    NoListItem(line);
    IndexOfColon(name, value);
    assert line[..|name|] == name && line[|name| + 1..] == value;
    ReadKeyLine(line, |name|, key, n);
  }

  lemma SpacedNeat(s: string)
    requires Neat(s)
    ensures TrimSpace(" " + s) == s && TrimSpace(s) == s
  {
    TrimmedStays(s);
    TrimStart(' ', s);
  }

  lemma StringLineRead(name: string, value: string, key: string, n: Parsed)
    requires PlainKey(name)
    ensures F.ReadLine(name + ": " + Scalar(value), key, n) == (name, F.WithField(n, name, Flat(value)))
  {
    hide Scalar, Flat, Unquote, F.WithField, F.ReadLine, TrimSpace, PlainKey;
    ScalarIsNeat(value);
    SpacedNeat(Scalar(value));
    UnquoteUndoesScalar(value);
    assert name + ": " + Scalar(value) == name + ":" + (" " + Scalar(value));
    KeyLineRead(name + ": " + Scalar(value), name, " " + Scalar(value), key, n);
  }

  lemma SeqOps(name: string)
    ensures name + ":" == name + ":" + "" && (name + ":")[|name + ":"| - 1] == ':'
  {
  }

  lemma HeadRead(name: string, key: string, n: Parsed)
    requires PlainKey(name)
    ensures F.ReadLine(name + ":", key, n) == (name, F.WithField(n, name, ""))
  {
    hide F.WithField, F.ReadLine, PlainKey;
    SeqOps(name);
    assert Unquote(TrimSpace("")) == "";
    hide Unquote, TrimSpace;
    KeyLineRead(name + ":", name, "", key, n);
  }

  lemma ReadItemLine(line: string, item: string, key: string, n: Parsed)
    requires F.TrimRightSet(line, F.LINE_SPACE) == line && F.TrimLeftSet(line, F.LINE_SPACE) == item && TrimSpace(line) == item
    requires |item| > 2 && item[0] == '-' && item[1] == ' ' && |line| != |item|
    ensures F.ReadLine(line, key, n) == (key, F.WithItem(n, key, Unquote(TrimSpace(item[1..]))))
  {
    hide Unquote, F.WithField, F.WithItem, F.ToLower, F.IndexOf, F.TrimRightSet, F.TrimLeftSet, TrimSpace;
    assert "- " <= item && !("#" <= item);
  }

  lemma ItemRead(value: string, key: string, n: Parsed)
    ensures F.ReadLine("  - " + Scalar(value), key, n) == (key, F.WithItem(n, key, Flat(value)))
  {
    hide Scalar, Flat, Unquote, F.WithItem, F.ReadLine, TrimSpace, F.TrimLeftSet, F.TrimRightSet;
    ScalarIsNeat(value);
    SpacedNeat(Scalar(value));
    UnquoteUndoesScalar(value);
    var s := Scalar(value);
    TrimItem("  - " + s, "- " + s, s);
    assert ("- " + s)[1..] == " " + s;
    ReadItemLine("  - " + s, "- " + s, key, n);
  }

  lemma LeftSpaceSet(s: string)
    ensures F.TrimLeftSet(" " + s, F.LINE_SPACE) == F.TrimLeftSet(s, F.LINE_SPACE)
    ensures TrimLeft(" " + s) == TrimLeft(s)
  {
    TrimStart(' ', s);
    assert F.LINE_SPACE[0] == ' ';
    assert (" " + s)[0] == ' ' && (" " + s)[1..] == s;
  }

  lemma TrimItem(line: string, item: string, s: string)
    requires Neat(s) && line == "  - " + s && item == "- " + s
    ensures F.TrimRightSet(line, F.LINE_SPACE) == line && F.TrimLeftSet(line, F.LINE_SPACE) == item
    ensures TrimSpace(line) == item
  {
    assert line == " " + (" " + item);
    assert item[0] == '-' && item[|item| - 1] == s[|s| - 1] && line[|line| - 1] == s[|s| - 1];
    InkyLine(item);
    LeftSpaceSet(" " + item);
    LeftSpaceSet(item);
    LastInk(line);
    assert TrimLeft(item) == item;
  }

  lemma LastInk(line: string)
    requires line != "" && !IsSpace(line[|line| - 1])
    ensures F.TrimRightSet(line, F.LINE_SPACE) == line
  {
    assert F.LINE_SPACE == [' ', '\t'];
  }

  /* ---- Stretches of lines ---- */

  lemma {:induction false} ReadLinesJoin(a: seq<string>, b: seq<string>, key: string, n: Parsed)
    ensures F.ReadLines(a + b, key, n) == F.ReadLines(b, F.ReadLines(a, key, n).0, F.ReadLines(a, key, n).1)
    decreases |b|
  {
    hide F.ReadLine;
    if b == [] {
      assert a + b == a;
    } else {
      assert (a + b)[..|a + b| - 1] == a + b[..|b| - 1];
      ReadLinesJoin(a, b[..|b| - 1], key, n);
    }
  }

  lemma ReadOneLine(line: string, key: string, n: Parsed)
    ensures F.ReadLines([line], key, n) == F.ReadLine(line, key, n)
    ensures F.ReadLines([], key, n) == (key, n)
  {
    hide F.ReadLine;
    assert [line][..0] == [];
  }

  lemma StringRead(name: string, value: string, key: string, n: Parsed)
    requires PlainKey(name)
    ensures F.ReadLines(StringLine(name, value), key, n).1 == if Blank(value) then n else F.WithField(n, name, Flat(value))
  {
    hide F.ReadLine, F.ReadLines, F.WithField, Flat, Scalar, Blank;
    ReadOneLine(name + ": " + Scalar(value), key, n);
    StringLineRead(name, value, key, n);
  }

  function ItemsInto(n: Parsed, key: string, items: seq<string>): Parsed {
    if items == [] then n else F.WithItem(ItemsInto(n, key, items[..|items| - 1]), key, Flat(items[|items| - 1]))
  }

  lemma {:induction false} ItemsRead(items: seq<string>, key: string, n: Parsed)
    ensures F.ReadLines(ItemLines(items), key, n) == (key, ItemsInto(n, key, items))
  {
    hide F.ReadLine, F.WithItem, Flat, Scalar;
    if items != [] {
      var init, last := items[..|items| - 1], items[|items| - 1];
      ItemsRead(init, key, n);
      var lines := ItemLines(items);
      assert lines[..|lines| - 1] == ItemLines(init);
      ItemRead(last, key, ItemsInto(n, key, init));
    }
  }

  lemma NoItem()
    ensures F.Items([""]) == []
  {
    var none := TrimSpace("");
    assert none == "" && Unquote("") == "";
    hide TrimSpace, Unquote;
    assert [""][1..] == [] && F.Items([]) == [];
  }

  lemma SplitNothing()
    ensures F.SplitList("") == []
  {
    NoItem();
    var none := TrimSpace("");
    assert none == "";
    hide TrimSpace, F.Items, Unquote;
    assert F.SplitCommas("") == [""];
  }

  lemma HeadChangesNothing(name: string, n: Parsed)
    requires name in {"tags", "related", "attachments", "carrel_properties"}
    ensures F.WithField(n, name, "") == n
  {
    SplitNothing();
    hide F.SplitList;
    assert n.tags + [] == n.tags && n.related + [] == n.related && n.attachments + [] == n.attachments;
  }

  lemma HeadAndItems(name: string, items: seq<string>, key: string, n: Parsed)
    requires name in {"tags", "related", "attachments", "carrel_properties"} && PlainKey(name)
    ensures F.ReadLines([name + ":"] + ItemLines(items), key, n).1 == ItemsInto(n, name, items)
  {
    hide F.ReadLine, F.ReadLines, F.WithField, F.WithItem, PlainKey;
    ReadLinesJoin([name + ":"], ItemLines(items), key, n);
    ReadOneLine(name + ":", key, n);
    HeadRead(name, key, n);
    HeadChangesNothing(name, n);
    ItemsRead(items, name, n);
  }

  lemma {:induction false} ReplaceKeepsInk(s: string, was: string, now: string)
    requires was != "" && now != "" && s != ""
    ensures ReplaceAll(s, was, now) != ""
  {
  }

  lemma FlatKeepsInk(value: string)
    requires value != ""
    ensures Flat(value) != ""
  {
    hide ReplaceAll;
    ReplaceKeepsInk(value, "\r\n", " ");
    ReplaceKeepsInk(ReplaceAll(value, "\r\n", " "), "\n", " ");
  }

  lemma {:induction false} ItemsIntoList(n: Parsed, name: string, items: seq<string>)
    requires forall i :: 0 <= i < |items| ==> items[i] != ""
    ensures name == "tags" ==> ItemsInto(n, name, items) == n.(tags := n.tags + FlatAll(items))
    ensures name == "related" ==> ItemsInto(n, name, items) == n.(related := n.related + FlatAll(items))
    ensures name == "attachments" ==> ItemsInto(n, name, items) == n.(attachments := n.attachments + FlatAll(items))
    ensures name == "carrel_properties" ==> ItemsInto(n, name, items) == n.(extra := ExtraOf(n.extra, items))
  {
    hide Flat, F.WithExtra;
    if items == [] {
      assert n.tags + [] == n.tags && n.related + [] == n.related && n.attachments + [] == n.attachments;
    } else {
      ItemsIntoList(n, name, items[..|items| - 1]);
      FlatKeepsInk(items[|items| - 1]);
    }
  }

  lemma {:induction false} DedupedHaveInk(values: seq<string>)
    ensures forall i :: 0 <= i < |DedupeStrings(values)| ==> DedupeStrings(values)[i] != ""
  {
    hide TrimSpace;
    if values != [] {
      DedupedHaveInk(values[..|values| - 1]);
    }
  }

  lemma ListRead(name: string, values: seq<string>, key: string, n: Parsed)
    requires name in {"tags", "related", "attachments"} && PlainKey(name)
    ensures F.ReadLines(ListLines(name, values), key, n).1 == ItemsInto(n, name, DedupeStrings(values))
  {
    hide F.ReadLines, F.WithItem, DedupeStrings, PlainKey, ItemLines;
    if DedupeStrings(values) == [] {
      ReadOneLine("", key, n);
    } else {
      HeadAndItems(name, DedupeStrings(values), key, n);
    }
  }

  lemma {:induction false} AllItemsHaveInk(other: seq<Property>)
    ensures forall i :: 0 <= i < |AllItems(other)| ==> AllItems(other)[i] != ""
  {
    if other != [] {
      AllItemsHaveInk(other[..|other| - 1]);
    }
  }

  lemma ExtraRead(other: seq<Property>, key: string, n: Parsed)
    ensures F.ReadLines(ExtraLines(other), key, n).1 == n.(extra := ExtraOf(n.extra, AllItems(other)))
  {
    hide F.ReadLines, F.WithItem, F.WithExtra, ItemLines;
    if other == [] {
      ReadOneLine("", key, n);
    } else {
      assert "carrel_properties" + ":" == "carrel_properties:";
      HeadAndItems("carrel_properties", AllItems(other), key, n);
      AllItemsHaveInk(other);
      ItemsIntoList(n, "carrel_properties", AllItems(other));
    }
  }

  /* ---- All of the front matter ---- */

  lemma Segment(before: seq<string>, segment: seq<string>, n: Parsed, m: Parsed, w: Parsed)
    requires F.ReadLines(before, "", n).1 == m
    requires forall key: string {:trigger F.ReadLines(segment, key, m)} :: F.ReadLines(segment, key, m).1 == w
    ensures F.ReadLines(before + segment, "", n).1 == w
  {
    hide F.ReadLines;
    ReadLinesJoin(before, segment, "", n);
  }

  lemma StringSegment(before: seq<string>, name: string, value: string, n: Parsed, m: Parsed, w: Parsed)
    requires PlainKey(name) && F.ReadLines(before, "", n).1 == m
    requires w == if Blank(value) then m else F.WithField(m, name, Flat(value))
    ensures F.ReadLines(before + StringLine(name, value), "", n).1 == w
  {
    hide F.ReadLines, F.WithField, StringLine, Flat, Blank, PlainKey;
    forall key: string
      ensures F.ReadLines(StringLine(name, value), key, m).1 == w
    {
      StringRead(name, value, key, m);
    }
    Segment(before, StringLine(name, value), n, m, w);
  }

  lemma ListSegment(before: seq<string>, name: string, values: seq<string>, n: Parsed, m: Parsed)
    requires name in {"tags", "related", "attachments"} && PlainKey(name) && F.ReadLines(before, "", n).1 == m
    ensures F.ReadLines(before + ListLines(name, values), "", n).1 == ItemsInto(m, name, DedupeStrings(values))
  {
    hide F.ReadLines, F.WithItem, ListLines, DedupeStrings, PlainKey, ItemsInto;
    forall key: string
      ensures F.ReadLines(ListLines(name, values), key, m).1 == ItemsInto(m, name, DedupeStrings(values))
    {
      ListRead(name, values, key, m);
    }
    Segment(before, ListLines(name, values), n, m, ItemsInto(m, name, DedupeStrings(values)));
  }

  lemma ListState(m: Parsed, name: string, values: seq<string>)
    ensures name == "tags" && m.tags == [] ==>
              ItemsInto(m, name, DedupeStrings(values)) == m.(tags := FlatAll(DedupeStrings(values)))
    ensures name == "related" && m.related == [] ==>
              ItemsInto(m, name, DedupeStrings(values)) == m.(related := FlatAll(DedupeStrings(values)))
    ensures name == "attachments" && m.attachments == [] ==>
              ItemsInto(m, name, DedupeStrings(values)) == m.(attachments := FlatAll(DedupeStrings(values)))
  {
    hide ItemsInto, FlatAll, DedupeStrings;
    DedupedHaveInk(values);
    ItemsIntoList(m, name, DedupeStrings(values));
    assert [] + FlatAll(DedupeStrings(values)) == FlatAll(DedupeStrings(values));
  }

  lemma InkStays(value: string)
    ensures !Blank(value) ==> Flat(value) != ""
  {
    hide Flat;
    if value == "" {
      assert Blank(value);
    } else {
      FlatKeepsInk(value);
    }
  }

  lemma FrontRead(note: Note, src: Source, body: string)
    ensures F.ReadLines(FrontLines(note, src), "", F.EMPTY.(body := body)).1 == Expected(note, src).(body := body)
  {
    hide F.ReadLines, StringLine, ListLines, ExtraLines, Flat, Blank, DedupeStrings, FlatAll, ItemsInto, AllItems, ExtraOf, TrimSpace;
    var n := F.EMPTY.(body := body);
    var e := Expected(note, src);
    var m1 := n.(title := e.title);
    ReadOneLine("", "", n);
    assert [] + StringLine("title", note.title) == StringLine("title", note.title);
    StringSegment([], "title", note.title, n, n, m1);
    var l1 := StringLine("title", note.title);
    var m2 := m1.(date := e.date);
    InkStays(note.date);
    NothingTrims();
    StringSegment(l1, "date", note.date, n, m1, m2);
    var l2 := l1 + StringLine("date", note.date);
    ListSegment(l2, "tags", note.categories, n, m2);
    ListState(m2, "tags", note.categories);
    var l3, m3 := l2 + ListLines("tags", note.categories), m2.(tags := e.tags);
    var m4 := m3.(uid := e.uid);
    StringSegment(l3, "uid", note.uid, n, m3, m4);
    RestRead(note, src, n, l3 + StringLine("uid", note.uid), m4);
  }

  lemma NothingTrims()
    ensures TrimSpace("") == ""
  {
  }

  lemma RestRead(note: Note, src: Source, n: Parsed, l4: seq<string>, m4: Parsed)
    requires F.ReadLines(l4, "", n).1 == m4
    requires m4.related == [] && m4.attachments == [] && m4.account == "" && m4.collection == "" && m4.extra == []
    ensures F.ReadLines(l4 + ListLines("related", note.related) + ListLines("attachments", note.links)
                        + StringLine("account", src.account) + StringLine("collection", src.collection)
                        + ExtraLines(note.other), "", n).1
         == m4.(related := Expected(note, src).related, attachments := Expected(note, src).attachments,
                account := Expected(note, src).account, collection := Expected(note, src).collection,
                extra := Expected(note, src).extra)
  {
    hide F.ReadLines, StringLine, ListLines, ExtraLines, Flat, Blank, DedupeStrings, FlatAll, ItemsInto, AllItems, ExtraOf, TrimSpace;
    var e := Expected(note, src);
    ListSegment(l4, "related", note.related, n, m4);
    ListState(m4, "related", note.related);
    var l5, m5 := l4 + ListLines("related", note.related), m4.(related := e.related);
    ListSegment(l5, "attachments", note.links, n, m5);
    ListState(m5, "attachments", note.links);
    EndRead(note, src, n, l5 + ListLines("attachments", note.links), m5.(attachments := e.attachments));
  }

  lemma EndRead(note: Note, src: Source, n: Parsed, l6: seq<string>, m6: Parsed)
    requires F.ReadLines(l6, "", n).1 == m6 && m6.account == "" && m6.collection == "" && m6.extra == []
    ensures F.ReadLines(l6 + StringLine("account", src.account) + StringLine("collection", src.collection)
                        + ExtraLines(note.other), "", n).1
         == m6.(account := Expected(note, src).account, collection := Expected(note, src).collection,
                extra := Expected(note, src).extra)
  {
    hide F.ReadLines, StringLine, ListLines, ExtraLines, Flat, Blank, DedupeStrings, FlatAll, ItemsInto, AllItems, ExtraOf, TrimSpace;
    var e := Expected(note, src);
    var m7 := m6.(account := e.account);
    StringSegment(l6, "account", src.account, n, m6, m7);
    var l7 := l6 + StringLine("account", src.account);
    var m8 := m7.(collection := e.collection);
    StringSegment(l7, "collection", src.collection, n, m7, m8);
    var l8 := l7 + StringLine("collection", src.collection);
    var m9 := m8.(extra := e.extra);
    forall key: string
      ensures F.ReadLines(ExtraLines(note.other), key, m8).1 == m9
    {
      ExtraRead(note.other, key, m8);
    }
    Segment(l8, ExtraLines(note.other), n, m8, m9);
  }

  // What deduplication keeps: each trimmed, non-blank item, once.
  lemma {:induction false} DedupedMeans(values: seq<string>, t: string)
    ensures t in DedupeStrings(values) <==> t != "" && exists i :: 0 <= i < |values| && TrimSpace(values[i]) == t
    ensures forall i, j :: 0 <= i < j < |DedupeStrings(values)| ==> DedupeStrings(values)[i] != DedupeStrings(values)[j]
  {
    hide TrimSpace;
    if values != [] {
      var init, last := values[..|values| - 1], values[|values| - 1];
      DedupedMeans(init, t);
      if t in DedupeStrings(init) {
        var i :| 0 <= i < |init| && TrimSpace(init[i]) == t;
        assert TrimSpace(values[i]) == t;
      }
      assert TrimSpace(values[|values| - 1]) == TrimSpace(last);
      if t != "" && exists i :: 0 <= i < |values| && TrimSpace(values[i]) == t {
        var i :| 0 <= i < |values| && TrimSpace(values[i]) == t;
        if i < |init| {
          assert TrimSpace(init[i]) == t;
        }
      }
    }
  }

  /* ---- When a list comes back as it was ---- */

  // Items of a list as a list line can hold them: trimmed, on one line, none twice.
  ghost predicate NeatList(values: seq<string>) {
    && (forall i :: 0 <= i < |values| ==> Neat(values[i]))
    && (forall i, j :: 0 <= i < j < |values| ==> values[i] != values[j])
  }

  lemma {:induction false} NeatListComesBack(values: seq<string>)
    requires NeatList(values)
    ensures DedupeStrings(values) == values && FlatAll(values) == values
  {
    hide Neat, TrimSpace, Flat;
    if values != [] {
      var init, last := values[..|values| - 1], values[|values| - 1];
      assert forall i :: 0 <= i < |init| ==> init[i] == values[i];
      NeatListComesBack(init);
      assert Neat(last);
      NeatComesBack(last);
      assert values == init + [last];
    }
  }

  lemma NeatComesBack(value: string)
    requires Neat(value)
    ensures TrimSpace(value) == value && Flat(value) == value && value != ""
  {
    TrimmedStays(value);
    FlatOfOneLine(value);
  }

  // An entry a note points to, and how: a parent, a child, a sibling.
  datatype Relation = Relation(uid: string, relType: string)

  const PARENT := "PARENT"

  function RelationUids(related: seq<Relation>): seq<string> {
    if related == [] then [] else RelationUids(related[..|related| - 1]) + [related[|related| - 1].uid]
  }

  // What is read is taken for a parent, whatever it was.
  function AsParents(uids: seq<string>): seq<Relation> {
    if uids == [] then [] else AsParents(uids[..|uids| - 1]) + [Relation(uids[|uids| - 1], PARENT)]
  }

  // Relations come back from the file exactly when all of them are to parents.
  lemma RelationsComeBackExactly(related: seq<Relation>)
    requires NeatList(RelationUids(related))
    ensures AsParents(FlatAll(DedupeStrings(RelationUids(related)))) == related
            <==> forall i :: 0 <= i < |related| ==> related[i].relType == PARENT
  {
    hide NeatList, DedupeStrings, FlatAll, RelationUids, AsParents;
    NeatListComesBack(RelationUids(related));
    ParentsAre(related);
    SameWhenParents(related, AsParents(RelationUids(related)));
  }

  lemma SameWhenParents(related: seq<Relation>, back: seq<Relation>)
    requires |back| == |related| && forall i :: 0 <= i < |related| ==> back[i] == Relation(related[i].uid, PARENT)
    ensures back == related <==> forall i :: 0 <= i < |related| ==> related[i].relType == PARENT
  {
    if forall i :: 0 <= i < |related| ==> related[i].relType == PARENT {
      assert forall i :: 0 <= i < |related| ==> back[i] == related[i];
    }
  }

  lemma {:induction false} ParentsAre(related: seq<Relation>)
    ensures var back := AsParents(RelationUids(related));
            |back| == |related| && forall i :: 0 <= i < |related| ==> back[i] == Relation(related[i].uid, PARENT)
  {
    if related != [] {
      var init := related[..|related| - 1];
      ParentsAre(init);
      var uids := RelationUids(related);
      assert uids[..|uids| - 1] == RelationUids(init);
      assert forall i :: 0 <= i < |init| ==> init[i] == related[i];
    }
  }
}
