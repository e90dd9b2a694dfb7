// The fences, the body and the properties with no field: the rest of the round trip of
// a note through Markdown (internal/model/markdown.go).
module MarkdownFile {
  import opened GoText
  import opened Patches
  import opened YamlScalars
  import opened Markdown
  import opened MarkdownRoundTrip
  import F = FrontMatter

  /* ---- The fences ---- */

  // A line that is read as it was written, and is no fence.
  predicate SafeLine(line: string) {
    OneLine(line) && F.DropCR(line) == line && TrimSpace(line) != FENCE
  }

  ghost predicate AllSafe(lines: seq<string>) {
    forall i :: 0 <= i < |lines| ==> SafeLine(lines[i])
  }

  lemma {:induction false} IndexAt(a: string, c: char, b: string)
    requires c !in a
    ensures F.IndexOf(a + [c] + b, c) == |a|
  {
    var s := a + [c] + b;
    if a == "" {
      assert s[0] == c;
    } else {
      assert s[0] == a[0] && s[1..] == a[1..] + [c] + b;
      IndexAt(a[1..], c, b);
    }
  }

  lemma FirstLine(lines: seq<string>)
    requires lines != []
    ensures JoinLines(lines) == lines[0] + ['\n'] + JoinLines(lines[1..])
  {
    hide JoinLines;
    assert lines == [lines[0]] + lines[1..];
    LinesJoin([lines[0]], lines[1..]);
    OneMoreLine("", [], lines[0]);
    assert "" + JoinLines([lines[0]]) == JoinLines([lines[0]]);
    assert "" + lines[0] + "\n" == lines[0] + ['\n'];
  }

  lemma CloseStep(line: string, rest: string, consumed: nat, whole: nat, front: seq<string>)
    requires OneLine(line) && F.DropCR(line) == line
    ensures F.Close(line + ['\n'] + rest, consumed, whole, front) ==
            if TrimSpace(line) == FENCE
            then F.Some((front, if consumed + |line| + 1 > whole then whole else consumed + |line| + 1))
            else F.Close(rest, consumed + |line| + 1, whole, front + [line])
  {
    hide TrimSpace;
    IndexAt(line, '\n', rest);
    var s := line + ['\n'] + rest;
    assert s != "" && s[..|line|] == line && s[|line| + 1..] == rest;
  }

  // The closing fence is found after exactly the lines that were written.
  lemma {:induction false} CloseFinds(lines: seq<string>, tail: string, consumed: nat, whole: nat, front: seq<string>)
    requires AllSafe(lines) && consumed + |JoinLines(lines)| + 4 <= whole
    ensures F.Close(JoinLines(lines) + (FENCE + ['\n'] + tail), consumed, whole, front)
         == F.Some((front + lines, consumed + |JoinLines(lines)| + 4))
  {
    hide F.Close, JoinLines, TrimSpace, SafeLine;
    var end := FENCE + ['\n'] + tail;
    if lines == [] {
      LinesNone();
      FenceIsFence();
      CloseStep(FENCE, tail, consumed, whole, front);
      assert JoinLines(lines) + end == end && front + lines == front;
    } else {
      FirstLine(lines);
      SafeMeans(lines[0]);
      CloseStep(lines[0], JoinLines(lines[1..]) + end, consumed, whole, front);
      assert JoinLines(lines) + end == lines[0] + ['\n'] + (JoinLines(lines[1..]) + end);
      assert forall i :: 0 <= i < |lines[1..]| ==> lines[1..][i] == lines[i + 1];
      CloseFinds(lines[1..], tail, consumed + |lines[0]| + 1, whole, front + [lines[0]]);
      assert front + [lines[0]] + lines[1..] == front + lines;
    }
  }

  lemma SafeMeans(line: string)
    requires SafeLine(line)
    ensures OneLine(line) && F.DropCR(line) == line && TrimSpace(line) != FENCE
  {
  }

  lemma FenceIsFence()
    ensures OneLine(FENCE) && F.DropCR(FENCE) == FENCE && TrimSpace(FENCE) == FENCE
  {
    TrimmedStays(FENCE);
  }

  /* ---- Every line we write is safe ---- */

  lemma InkIsSafe(line: string)
    requires line != "" && OneLine(line) && !IsSpace(line[0]) && !IsSpace(line[|line| - 1]) && line[0] != '-'
    ensures SafeLine(line)
  {
    TrimmedStays(line);
    hide TrimSpace;
    assert FENCE[0] == '-';
  }

  lemma KeyedIsSafe(name: string, rest: string)
    requires PlainKey(name) && OneLine(rest) && (rest == "" || !IsSpace(rest[|rest| - 1]))
    ensures SafeLine(name + ":" + rest)
  {
    KeyIsInk(name);
    assert OneLine(name);
    hide TrimSpace, SafeLine, PlainKey, F.ToLower;
    var line := name + ":" + rest;
    assert line[0] == name[0] && line[|line| - 1] == if rest == "" then ':' else rest[|rest| - 1];
    InkIsSafe(line);
  }

  lemma StringIsSafe(name: string, value: string)
    requires PlainKey(name)
    ensures AllSafe(StringLine(name, value))
  {
    hide Scalar, Blank, SafeLine, PlainKey;
    ScalarIsNeat(value);
    var rest := " " + Scalar(value);
    assert rest[|rest| - 1] == Scalar(value)[|Scalar(value)| - 1];
    KeyedIsSafe(name, rest);
    assert name + ": " + Scalar(value) == name + ":" + rest;
  }

  lemma ItemIsSafe(value: string)
    ensures SafeLine("  - " + Scalar(value))
  {
    ScalarIsNeat(value);
    var s := Scalar(value);
    hide Scalar;
    var line := "  - " + s;
    TrimItem(line, "- " + s, s);
    assert line[|line| - 1] == s[|s| - 1];
    hide TrimSpace;
    assert FENCE[1] == '-' && ("- " + s)[1] == ' ';
  }

  lemma {:induction false} ItemsAreSafe(items: seq<string>)
    ensures AllSafe(ItemLines(items))
  {
    hide Scalar, SafeLine;
    if items != [] {
      ItemsAreSafe(items[..|items| - 1]);
      ItemIsSafe(items[|items| - 1]);
    }
  }

  lemma HeadIsSafe(name: string)
    requires PlainKey(name)
    ensures SafeLine(name + ":")
  {
    hide SafeLine, PlainKey;
    KeyedIsSafe(name, "");
    SeqOps(name);
  }

  lemma SafeJoin(a: seq<string>, b: seq<string>)
    requires AllSafe(a) && AllSafe(b)
    ensures AllSafe(a + b)
  {
    hide SafeLine;
  }

  lemma ListIsSafe(name: string, values: seq<string>)
    requires PlainKey(name)
    ensures AllSafe(ListLines(name, values))
  {
    hide SafeLine, ItemLines, DedupeStrings, PlainKey;
    HeadIsSafe(name);
    ItemsAreSafe(DedupeStrings(values));
    SafeJoin([name + ":"], ItemLines(DedupeStrings(values)));
  }

  lemma ExtraIsSafe(other: seq<Property>)
    ensures AllSafe(ExtraLines(other))
  {
    assert PlainKey("carrel_properties");
    hide SafeLine, ItemLines, PlainKey;
    HeadIsSafe("carrel_properties");
    assert "carrel_properties" + ":" == "carrel_properties:";
    ItemsAreSafe(AllItems(other));
    SafeJoin(["carrel_properties:"], ItemLines(AllItems(other)));
  }

  lemma FrontIsSafe(note: Note, src: Source)
    ensures AllSafe(FrontLines(note, src))
  {
    PlainKeys();
    hide AllSafe, StringLine, ListLines, ExtraLines, PlainKey;
    StringIsSafe("title", note.title);
    StringIsSafe("date", note.date);
    ListIsSafe("tags", note.categories);
    StringIsSafe("uid", note.uid);
    ListIsSafe("related", note.related);
    ListIsSafe("attachments", note.links);
    StringIsSafe("account", src.account);
    StringIsSafe("collection", src.collection);
    ExtraIsSafe(note.other);
    var l2 := StringLine("title", note.title) + StringLine("date", note.date);
    SafeJoin(StringLine("title", note.title), StringLine("date", note.date));
    var l3 := l2 + ListLines("tags", note.categories);
    SafeJoin(l2, ListLines("tags", note.categories));
    var l4 := l3 + StringLine("uid", note.uid);
    SafeJoin(l3, StringLine("uid", note.uid));
    var l5 := l4 + ListLines("related", note.related);
    SafeJoin(l4, ListLines("related", note.related));
    var l6 := l5 + ListLines("attachments", note.links);
    SafeJoin(l5, ListLines("attachments", note.links));
    var l7 := l6 + StringLine("account", src.account);
    SafeJoin(l6, StringLine("account", src.account));
    var l8 := l7 + StringLine("collection", src.collection);
    SafeJoin(l7, StringLine("collection", src.collection));
    SafeJoin(l8, ExtraLines(note.other));
  }

  lemma PlainKeys()
    ensures forall name :: name in {"title", "date", "tags", "uid", "related", "attachments", "account", "collection"} ==> PlainKey(name)
  {
  }

  /* ---- The body ---- */

  lemma {:induction false} TrimBreaksTrims(s: string)
    ensures TrimSpace(TrimBreaks(s)) == TrimSpace(s)
  {
    hide TrimSpace;
    if s != "" && s[|s| - 1] == '\n' {
      TrimBreaksTrims(s[..|s| - 1]);
      TrimEnd(s[..|s| - 1], '\n');
      assert s == s[..|s| - 1] + ['\n'];
    }
  }

  // The body comes back up to the white space around it.
  lemma BodyReads(description: string)
    ensures TrimSpace(['\n'] + BodyText(description)) == TrimSpace(description)
  {
    hide TrimSpace;
    TrimStart('\n', BodyText(description));
    TrimBreaksTrims(description);
    if TrimBreaks(description) != "" {
      TrimEnd(TrimBreaks(description), '\n');
    }
  }

  /* ---- Blank and not blank ---- */

  lemma {:induction false} ReplaceKeepsChar(s: string, was: string, now: string, c: char)
    requires was != "" && c in s && c !in was
    ensures c in ReplaceAll(s, was, now)
  {
    if was <= s {
      assert s == was + s[|was|..];
      ReplaceKeepsChar(s[|was|..], was, now, c);
    } else if s[0] != c {
      assert s == [s[0]] + s[1..];
      ReplaceKeepsChar(s[1..], was, now, c);
    }
  }

  lemma FlatKeepsTitle(value: string)
    requires !Blank(value)
    ensures !Blank(Flat(value))
  {
    hide ReplaceAll, TrimSpace;
    BlankMeans(value);
    var i :| 0 <= i < |value| && !IsSpace(value[i]);
    var c := value[i];
    assert "\r\n"[0] == '\r' && "\r\n"[1] == '\n' && "\n"[0] == '\n';
    ReplaceKeepsChar(value, "\r\n", " ", c);
    ReplaceKeepsChar(ReplaceAll(value, "\r\n", " "), "\n", " ", c);
    BlankMeans(Flat(value));
    var k :| 0 <= k < |Flat(value)| && Flat(value)[k] == c;
  }

  /* ---- The round trip ---- */

  lemma StartsWithInk(s: string)
    requires s != "" && !IsSpace(s[0])
    ensures TrimSpace(s) != ""
  {
    BlankMeans(s);
  }

  lemma SplitRendered(lines: seq<string>, tail: string)
    requires AllSafe(lines)
    ensures F.SplitFront(FENCE + ['\n'] + (JoinLines(lines) + (FENCE + ['\n'] + tail))) == (F.Some(lines), tail)
  {
    hide AllSafe, JoinLines, F.Close, TrimSpace;
    var rest := JoinLines(lines) + (FENCE + ['\n'] + tail);
    var after := ['\n'] + rest;
    var body := FENCE + ['\n'] + rest;
    assert body[0] == '-' && body[|FENCE|..] == after && body[..|FENCE|] == FENCE;
    assert F.TrimLeftSet(body, F.HEAD_SPACE) == body by {
      assert F.HEAD_SPACE == ['\U{FEFF}', ' ', '\t', '\r', '\n'];
    }
    assert after[0] == '\n' && F.IndexOf(after, '\n') == 0 && after[..0] == "" && after[1..] == rest;
    NothingTrims();
    CloseFinds(lines, tail, 0, |rest|, []);
    assert [] + lines == lines;
    TailOf(JoinLines(lines), tail);
  }

  lemma TailOf(text: string, tail: string)
    ensures |text| + 4 <= |text + (FENCE + ['\n'] + tail)|
    ensures (text + (FENCE + ['\n'] + tail))[|text| + 4..] == tail
  {
  }

  lemma RenderedIs(note: Note, src: Source)
    ensures Rendered(note, src) ==
            FENCE + ['\n'] + (JoinLines(FrontLines(note, src)) + (FENCE + ['\n'] + (['\n'] + BodyText(note.description))))
  {
    hide JoinLines, BodyText, FrontLines;
  }

  // Every note with a title to show comes back from its own file.
  lemma ParseOfRender(note: Note, src: Source)
    requires !Blank(note.title)
    ensures F.Outcomes(Rendered(note, src)) == F.Read(Expected(note, src))
  {
    hide FrontLines, JoinLines, BodyText, F.SplitFront, F.ReadLines, AllSafe, FlatAll, DedupeStrings, ExtraOf, AllItems, Flat, TrimSpace;
    var tail := ['\n'] + BodyText(note.description);
    FrontIsSafe(note, src);
    RenderedIs(note, src);
    SplitRendered(FrontLines(note, src), tail);
    assert Rendered(note, src)[0] == '-';
    StartsWithInk(Rendered(note, src));
    BodyReads(note.description);
    FrontRead(note, src, TrimSpace(note.description));
    FlatKeepsTitle(note.title);
  }

  /* ---- The properties with no field of their own ---- */

  lemma {:induction false} ReplaceSkipsPrefix(p: string, s: string, was: string, now: string)
    requires was != "" && was[0] !in p
    ensures ReplaceAll(p + s, was, now) == p + ReplaceAll(s, was, now)
  {
    if p == "" {
      assert p + s == s;
    } else {
      assert (p + s)[0] == p[0] && (p + s)[1..] == p[1..] + s;
      assert !(was <= p + s);
      ReplaceSkipsPrefix(p[1..], s, was, now);
    }
  }

  lemma FlatSkipsPrefix(p: string, s: string)
    requires '\r' !in p && '\n' !in p
    ensures Flat(p + s) == p + Flat(s)
  {
    hide ReplaceAll;
    ReplaceSkipsPrefix(p, s, "\r\n", " ");
    ReplaceSkipsPrefix(p, ReplaceAll(s, "\r\n", " "), "\n", " ");
  }

  lemma KeepableChars(name: string)
    requires CanonicalName(name) == Some(name)
    ensures '\r' !in name && '\n' !in name && ':' !in name
  {
  }

  lemma ExtraItem(extra: seq<Property>, name: string, value: string)
    requires CanonicalName(name) == Some(name)
    ensures F.WithExtra(extra, Flat(name + ": " + value)) ==
            if name in PROTECTED then extra else F.AddValue(extra, name, TrimSpace(Flat(value)))
  {
    KeepableChars(name);
    FlatSkipsPrefix(name + ": ", value);
    hide Flat, TrimSpace, CanonicalName, F.WithExtra, F.IndexOf;
    var item := name + ": " + Flat(value);
    assert item == name + [':'] + (" " + Flat(value));
    IndexAt(name, ':', " " + Flat(value));
    assert item[..|name|] == name && item[|name| + 1..] == [' '] + Flat(value);
    TrimStart(' ', Flat(value));
    ExtraAt(extra, item, |name|);
  }

  lemma ExtraAt(extra: seq<Property>, item: string, i: nat)
    requires i < |item| && F.IndexOf(item, ':') == i && CanonicalName(item[..i]) == Some(item[..i])
    ensures F.WithExtra(extra, item) ==
            if item[..i] in PROTECTED then extra else F.AddValue(extra, item[..i], TrimSpace(item[i + 1..]))
  {
    hide TrimSpace, CanonicalName, F.AddValue, F.IndexOf;
  }

  function TextsOf(values: seq<string>): seq<string> {
    if values == [] then [] else TextsOf(values[..|values| - 1]) + [TrimSpace(Flat(values[|values| - 1]))]
  }

  // What comes back of them: each with all its values, in order.
  function KeptOf(other: seq<Property>): seq<Property> {
    if other == [] then []
    else
      var last := other[|other| - 1];
      KeptOf(other[..|other| - 1])
      + if last.name in PROTECTED || last.values == [] then [] else [Property(last.name, TextsOf(last.values))]
  }

  ghost predicate OwnNames(other: seq<Property>) {
    && (forall i :: 0 <= i < |other| ==> CanonicalName(other[i].name) == Some(other[i].name))
    && (forall i, j :: 0 <= i < j < |other| ==> other[i].name != other[j].name)
  }

  lemma {:induction false} ExtraJoin(extra: seq<Property>, a: seq<string>, b: seq<string>)
    ensures ExtraOf(extra, a + b) == ExtraOf(ExtraOf(extra, a), b)
    decreases |b|
  {
    hide F.WithExtra, Flat;
    if b == [] {
      assert a + b == a;
    } else {
      assert (a + b)[..|a + b| - 1] == a + b[..|b| - 1];
      ExtraJoin(extra, a, b[..|b| - 1]);
    }
  }

  lemma {:induction false} OneProperty(extra: seq<Property>, p: Property)
    requires CanonicalName(p.name) == Some(p.name) && forall i :: 0 <= i < |extra| ==> extra[i].name != p.name
    ensures ExtraOf(extra, ItemsOf(p)) ==
            extra + if p.name in PROTECTED || p.values == [] then [] else [Property(p.name, TextsOf(p.values))]
    decreases |p.values|
  {
    hide F.WithExtra, Flat, TrimSpace, CanonicalName, F.AddValue;
    var items := ItemsOf(p);
    if p.values == [] {
      assert items == [];
    } else {
      var n := |p.values| - 1;
      var before := Property(p.name, p.values[..n]);
      assert items[..n] == ItemsOf(before);
      OneProperty(extra, before);
      var had := ExtraOf(extra, ItemsOf(before));
      assert |items| == n + 1 && items[n] == p.name + ": " + p.values[n];
      assert ExtraOf(extra, items) == F.WithExtra(had, Flat(items[n]));
      assert TextsOf(p.values) == TextsOf(p.values[..n]) + [TrimSpace(Flat(p.values[n]))];
      ExtraItem(had, p.name, p.values[n]);
      if p.name !in PROTECTED {
        var text := TrimSpace(Flat(p.values[n]));
        if n == 0 {
          assert p.values[..n] == [] && had == extra;
          F.AddValueNew(extra, p.name, text);
          assert TextsOf(p.values) == [text];
        } else {
          F.AddValueAt(had, p.name, text, |extra|);
        }
      }
    }
  }

  ghost predicate HasName(other: seq<Property>, name: string) {
    exists j :: 0 <= j < |other| && other[j].name == name
  }

  lemma {:induction false} KeptNames(other: seq<Property>)
    ensures forall p :: p in KeptOf(other) ==> HasName(other, p.name)
  {
    hide TextsOf;
    if other != [] {
      var init, last := other[..|other| - 1], other[|other| - 1];
      KeptNames(init);
      forall p | p in KeptOf(other)
        ensures HasName(other, p.name)
      {
        if p in KeptOf(init) {
          var j :| 0 <= j < |init| && init[j].name == p.name;
          assert other[j].name == p.name;
        } else {
          assert other[|other| - 1].name == p.name;
        }
      }
    }
  }

  // No unprotected property is lost, and none is confused with another.
  lemma {:induction false} ExtraIsKept(other: seq<Property>)
    requires OwnNames(other)
    ensures ExtraOf([], AllItems(other)) == KeptOf(other)
  {
    hide CanonicalName, TextsOf, ItemsOf;
    if other != [] {
      var init, last := other[..|other| - 1], other[|other| - 1];
      ExtraIsKept(init);
      ExtraJoin([], AllItems(init), ItemsOf(last));
      KeptNames(init);
      forall i | 0 <= i < |KeptOf(init)|
        ensures KeptOf(init)[i].name != last.name
      {
        assert KeptOf(init)[i] in KeptOf(init);
        var j :| 0 <= j < |init| && init[j].name == KeptOf(init)[i].name;
        assert other[j].name != last.name;
      }
      OneProperty(KeptOf(init), last);
    }
  }
}
