// Notes as Markdown files with front matter: what is written, and how it is read
// (internal/model/markdown.go).
module Markdown {
  import opened GoText
  import opened Patches
  import opened YamlScalars

  datatype Property = Property(name: string, values: seq<string>)

  // A note as the writer sees it: its title is the display title, its date the text of
  // the date, and "" where there is none.
  datatype Note = Note(
    title: string, date: string, categories: seq<string>, uid: string, related: seq<string>, links: seq<string>,
    other: seq<Property>, description: string)

  datatype Source = Source(account: string, collection: string)

  datatype Parsed = Parsed(
    title: string, date: string, tags: seq<string>, uid: string, related: seq<string>, attachments: seq<string>,
    account: string, collection: string, extra: seq<Property>, body: string)

  const FENCE := "---"

  /* ---- Writing ---- */

  function Blank(s: string): bool {
    TrimSpace(s) == ""
  }

  function DedupeStrings(values: seq<string>): seq<string> {
    if values == [] then []
    else
      var init, last := DedupeStrings(values[..|values| - 1]), TrimSpace(values[|values| - 1]);
      if last == "" || last in init then init else init + [last]
  }

  function StringLine(key: string, value: string): seq<string> {
    if Blank(value) then [] else [key + ": " + Scalar(value)]
  }

  function ItemLines(items: seq<string>): seq<string> {
    if items == [] then [] else ItemLines(items[..|items| - 1]) + ["  - " + Scalar(items[|items| - 1])]
  }

  function ListLines(key: string, values: seq<string>): seq<string> {
    var items := DedupeStrings(values);
    if items == [] then [] else [key + ":"] + ItemLines(items)
  }

  // What is written of the properties that have no field of their own.
  function ItemsOf(p: Property): seq<string> {
    seq(|p.values|, i requires 0 <= i < |p.values| => p.name + ": " + p.values[i])
  }

  function AllItems(other: seq<Property>): seq<string> {
    if other == [] then [] else AllItems(other[..|other| - 1]) + ItemsOf(other[|other| - 1])
  }

  function ExtraLines(other: seq<Property>): seq<string> {
    if other == [] then [] else ["carrel_properties:"] + ItemLines(AllItems(other))
  }

  function FrontLines(note: Note, src: Source): seq<string> {
    StringLine("title", note.title) + StringLine("date", note.date) + ListLines("tags", note.categories)
    + StringLine("uid", note.uid) + ListLines("related", note.related) + ListLines("attachments", note.links)
    + StringLine("account", src.account) + StringLine("collection", src.collection) + ExtraLines(note.other)
  }

  function JoinLines(lines: seq<string>): string {
    if lines == [] then "" else JoinLines(lines[..|lines| - 1]) + lines[|lines| - 1] + "\n"
  }

  function TrimBreaks(s: string): string {
    if s != "" && s[|s| - 1] == '\n' then TrimBreaks(s[..|s| - 1]) else s
  }

  function BodyText(description: string): string {
    var body := TrimBreaks(description);
    if body == "" then "" else body + "\n"
  }

  function Rendered(note: Note, src: Source): string {
    FENCE + "\n" + JoinLines(FrontLines(note, src)) + FENCE + "\n\n" + BodyText(note.description)
  }

  method WriteString(buf: string, key: string, value: string) returns (out: string)
    ensures out == buf + JoinLines(StringLine(key, value))
  {
    hide Scalar, JoinLines, TrimSpace;
    LinesNone();
    if TrimSpace(value) == "" {
      return buf;
    }
    var line := key + ": " + Scalar(value);
    OneMoreLine(buf, [], line);
    out := buf + line + "\n";
  }

  lemma LinesNone()
    ensures JoinLines([]) == ""
  {
  }

  lemma OneMoreLine(buf: string, lines: seq<string>, line: string)
    ensures buf + JoinLines(lines + [line]) == buf + JoinLines(lines) + line + "\n"
    ensures lines == [] ==> lines + [line] == [line] && buf + JoinLines([line]) == buf + line + "\n"
  {
    hide JoinLines;
    LinesNone();
    LinesNext(lines, line);
  }

  method WriteItems(buf: string, items: seq<string>) returns (out: string)
    ensures out == buf + JoinLines(ItemLines(items))
  {
    hide Scalar, JoinLines;
    LinesNone();
    out := buf;
    for i := 0 to |items|
      invariant out == buf + JoinLines(ItemLines(items[..i]))
    {
      hide ItemLines;
      ItemsNext(items, i);
      OneMoreLine(buf, ItemLines(items[..i]), "  - " + Scalar(items[i]));
      out := out + ("  - " + Scalar(items[i]));
      out := out + "\n";
    }
    assert items[..|items|] == items;
  }

  lemma ItemsNext(items: seq<string>, i: nat)
    requires i < |items|
    ensures ItemLines(items[..i + 1]) == ItemLines(items[..i]) + ["  - " + Scalar(items[i])]
  {
    hide Scalar;
    assert items[..i + 1][..i] == items[..i];
  }

  lemma LinesNext(lines: seq<string>, line: string)
    ensures JoinLines(lines + [line]) == JoinLines(lines) + line + "\n"
  {
    assert (lines + [line])[..|lines|] == lines;
  }

  lemma {:induction false} LinesJoin(a: seq<string>, b: seq<string>)
    ensures JoinLines(a + b) == JoinLines(a) + JoinLines(b)
    decreases |b|
  {
    if b == [] {
      assert a + b == a;
    } else {
      var init, last := b[..|b| - 1], b[|b| - 1];
      LinesJoin(a, init);
      assert a + b == (a + init) + [last];
      LinesNext(a + init, last);
    }
  }

  lemma MoreLines(buf: string, a: seq<string>, b: seq<string>)
    ensures buf + JoinLines(a + b) == buf + JoinLines(a) + JoinLines(b)
  {
    hide JoinLines;
    LinesJoin(a, b);
  }

  method WriteList(buf: string, key: string, values: seq<string>) returns (out: string)
    ensures out == buf + JoinLines(ListLines(key, values))
  {
    hide DedupeStrings, ItemLines, JoinLines;
    var items := DedupeStrings(values);
    if |items| == 0 {
      LinesNone();
      return buf;
    }
    var head := key + ":";
    OneMoreLine(buf, [], head);
    MoreLines(buf, [head], ItemLines(items));
    out := WriteItems(buf + head + "\n", items);
  }

  method RenderMarkdown(note: Note, src: Source) returns (buf: string)
    ensures buf == Rendered(note, src)
  {
    hide StringLine, ListLines, ItemLines, AllItems, JoinLines, BodyText, TrimBreaks;
    ghost var start := FENCE + "\n";
    buf := FENCE + "\n";
    buf := WriteString(buf, "title", note.title);
    ghost var l1 := StringLine("title", note.title);
    buf := WriteString(buf, "date", note.date);
    ghost var l2 := l1 + StringLine("date", note.date);
    LinesJoin(l1, StringLine("date", note.date));
    assert buf == start + JoinLines(l2);
    buf := WriteList(buf, "tags", note.categories);
    ghost var l3 := l2 + ListLines("tags", note.categories);
    LinesJoin(l2, ListLines("tags", note.categories));
    assert buf == start + JoinLines(l3);
    buf := WriteString(buf, "uid", note.uid);
    ghost var l4 := l3 + StringLine("uid", note.uid);
    LinesJoin(l3, StringLine("uid", note.uid));
    assert buf == start + JoinLines(l4);
    buf := WriteList(buf, "related", note.related);
    ghost var l5 := l4 + ListLines("related", note.related);
    LinesJoin(l4, ListLines("related", note.related));
    assert buf == start + JoinLines(l5);
    buf := RenderRest(buf, start, l5, note, src);
  }

  method RenderRest(buf0: string, ghost start: string, ghost l5: seq<string>, note: Note, src: Source) returns (buf: string)
    requires buf0 == start + JoinLines(l5)
    ensures buf == start + JoinLines(l5 + ListLines("attachments", note.links) + StringLine("account", src.account)
                                     + StringLine("collection", src.collection) + ExtraLines(note.other))
                   + FENCE + "\n\n" + BodyText(note.description)
  {
    hide StringLine, ListLines, ItemLines, AllItems, JoinLines, TrimBreaks;
    buf := WriteList(buf0, "attachments", note.links);
    ghost var l6 := l5 + ListLines("attachments", note.links);
    LinesJoin(l5, ListLines("attachments", note.links));
    assert buf == start + JoinLines(l6);
    buf := WriteString(buf, "account", src.account);
    ghost var l7 := l6 + StringLine("account", src.account);
    LinesJoin(l6, StringLine("account", src.account));
    assert buf == start + JoinLines(l7);
    buf := WriteString(buf, "collection", src.collection);
    ghost var l8 := l7 + StringLine("collection", src.collection);
    LinesJoin(l7, StringLine("collection", src.collection));
    assert buf == start + JoinLines(l8);
    buf := WriteExtra(buf, note.other);
    LinesJoin(l8, ExtraLines(note.other));
    assert buf == start + JoinLines(l8 + ExtraLines(note.other));
    buf := buf + FENCE + "\n\n";
    var body := TrimBreaks(note.description);
    if body != "" {
      buf := buf + body + "\n";
    }
  }

  method WriteExtra(buf: string, other: seq<Property>) returns (out: string)
    ensures out == buf + JoinLines(ExtraLines(other))
  {
    hide JoinLines, ItemLines;
    LinesNone();
    if |other| == 0 {
      return buf;
    }
    OneMoreLine(buf, [], "carrel_properties:");
    MoreLines(buf, ["carrel_properties:"], ItemLines(AllItems(other)));
    out := WriteAll(buf + "carrel_properties:" + "\n", other);
  }

  method WriteAll(buf: string, other: seq<Property>) returns (out: string)
    ensures out == buf + JoinLines(ItemLines(AllItems(other)))
  {
    hide JoinLines, ItemsOf;
    LinesNone();
    out := buf;
    for i := 0 to |other|
      invariant out == buf + JoinLines(ItemLines(AllItems(other[..i])))
    {
      hide ItemLines, AllItems;
      AllItemsNext(buf, other, i);
      out := WriteItems(out, ItemsOf(other[i]));
    }
    assert other[..|other|] == other;
  }

  lemma AllItemsNext(buf: string, other: seq<Property>, i: nat)
    requires i < |other|
    ensures buf + JoinLines(ItemLines(AllItems(other[..i + 1]))) ==
            buf + JoinLines(ItemLines(AllItems(other[..i]))) + JoinLines(ItemLines(ItemsOf(other[i])))
  {
    hide JoinLines, ItemLines, ItemsOf;
    assert other[..i + 1][..i] == other[..i];
    ItemsJoin(AllItems(other[..i]), ItemsOf(other[i]));
    MoreLines(buf, ItemLines(AllItems(other[..i])), ItemLines(ItemsOf(other[i])));
  }

  lemma {:induction false} ItemsJoin(a: seq<string>, b: seq<string>)
    ensures ItemLines(a + b) == ItemLines(a) + ItemLines(b)
    decreases |b|
  {
    hide Scalar;
    if b == [] {
      assert a + b == a;
    } else {
      var init, last := b[..|b| - 1], b[|b| - 1];
      ItemsJoin(a, init);
      assert a + b == (a + init) + [last];
      assert (a + b)[..|a + b| - 1] == a + init;
    }
  }
}
