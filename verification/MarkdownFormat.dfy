// The form of a Markdown file, told apart from writing and reading it back: which values
// are quoted and how, what stands where, and what a reader takes from lines that others
// wrote (internal/model/markdown.go).
module MarkdownFormat {
  import opened GoText
  import opened YamlScalars
  import opened Markdown
  import opened MarkdownRoundTrip
  import F = FrontMatter

  /* ---- One value ---- */

  // A line break, of one character or two, is one space.
  function Flattened(s: string): string {
    if s == "" then ""
    else if s[0] == '\n' then [' '] + Flattened(s[1..])
    else if |s| >= 2 && s[0] == '\r' && s[1] == '\n' then [' '] + Flattened(s[2..])
    else [s[0]] + Flattened(s[1..])
  }

  lemma {:induction false} FlatExactly(s: string)
    ensures Flat(s) == Flattened(s)
    decreases |s|
  {
    if s != "" {
      StartsWithBreak(s);
      if "\r\n" <= s {
        FlatExactly(s[2..]);
        FlatCons(' ', ReplaceAll(s[2..], "\r\n", " "));
      } else {
        FlatExactly(s[1..]);
        FlatCons(s[0], ReplaceAll(s[1..], "\r\n", " "));
      }
    }
  }

  lemma StartsWithBreak(s: string)
    requires s != ""
    ensures "\r\n" <= s <==> |s| >= 2 && s[0] == '\r' && s[1] == '\n'
    ensures "\n" <= s <==> s[0] == '\n'
  {
    assert "\r\n" == ['\r', '\n'] && "\n" == ['\n'];
    if |s| >= 2 {
      assert s[..2] == [s[0], s[1]];
    }
    assert s[..1] == [s[0]];
  }

  lemma FlatCons(c: char, rest: string)
    ensures ReplaceAll([c] + rest, "\n", " ") == [if c == '\n' then ' ' else c] + ReplaceAll(rest, "\n", " ")
  {
    StartsWithBreak([c] + rest);
    assert ([c] + rest)[1..] == rest;
  }

  // What may stand without quotes: nothing that means something to a reader of YAML.
  predicate Bare(s: string) {
    && s != "" && !IsSpace(s[0]) && !IsSpace(s[|s| - 1]) && s[0] != '-' && s[0] != '?'
    && forall i :: 0 <= i < |s| ==>
         s[i] !in {':', '#', '"', '\'', '{', '}', '[', ']', '&', '*', '!', '|', '>', '%', '@', '`', ','}
  }

  // Anything else is quoted, each backslash and quote behind a backslash.
  lemma ScalarExactly(value: string)
    ensures Scalar(value) == if Bare(Flattened(value)) then Flattened(value) else "\"" + Escaped(Flattened(value)) + "\""
  {
    FlatExactly(value);
    var flat := Flat(value);
    QuotedExactly(flat);
    EscapeIs(flat);
    hide Flat, NeedsQuote, Bare, Escape;
  }

  lemma QuotedExactly(flat: string)
    ensures NeedsQuote(flat) <==> !Bare(flat)
  {
    TrimmedExactly(flat);
    IndicatorsAre();
    hide TrimSpace;
    assert flat != "" ==> ("-" <= flat <==> flat[0] == '-') && ("?" <= flat <==> flat[0] == '?') by {
      assert "-" == ['-'] && "?" == ['?'];
    }
  }

  lemma TrimmedExactly(s: string)
    ensures s == TrimSpace(s) <==> Trimmed(s)
  {
    TrimSpaceTrims(s);
    if Trimmed(s) {
      TrimmedStays(s);
    }
    hide TrimSpace, Trimmed;
  }

  lemma IndicatorsAre()
    ensures forall c :: c in INDICATORS <==>
              c in {':', '#', '"', '\'', '{', '}', '[', ']', '&', '*', '!', '|', '>', '%', '@', '`', ','}
  {
    assert INDICATORS == [':', '#', '"', '\'', '{', '}', '[', ']', '&', '*', '!', '|', '>', '%', '@', '`', ','];
  }

  lemma {:induction false} DedupedExactly(values: seq<string>) returns (at: seq<nat>)
    ensures |at| == |DedupeStrings(values)|
    ensures forall i :: 0 <= i < |at| ==> at[i] < |values| && DedupeStrings(values)[i] == TrimSpace(values[at[i]])
    ensures forall i, j :: 0 <= i < j < |at| ==> at[i] < at[j]
    ensures forall k :: 0 <= k < |values| ==>
              (k in at <==> TrimSpace(values[k]) != "" && forall j :: 0 <= j < k ==> TrimSpace(values[j]) != TrimSpace(values[k]))
  {
    hide TrimSpace;
    at := [];
    if values != [] {
      var n := |values| - 1;
      at := DedupedExactly(values[..n]);
      NewOne(values, n);
      DedupedNext(values);
      hide DedupeStrings;
      assert n !in at && forall k :: 0 <= k < n ==> values[..n][k] == values[k];
      if TrimSpace(values[n]) != "" && TrimSpace(values[n]) !in DedupeStrings(values[..n]) {
        at := at + [n];
      }
    }
  }

  lemma DedupedNext(values: seq<string>)
    requires values != []
    ensures var n := |values| - 1; var init, last := DedupeStrings(values[..n]), TrimSpace(values[n]);
            DedupeStrings(values) == if last == "" || last in init then init else init + [last]
  {
    hide TrimSpace;
  }

  lemma NewOne(values: seq<string>, n: nat)
    requires n < |values|
    ensures TrimSpace(values[n]) != "" ==>
              (TrimSpace(values[n]) !in DedupeStrings(values[..n]) <==> forall j :: 0 <= j < n ==> TrimSpace(values[j]) != TrimSpace(values[n]))
  {
    hide TrimSpace, DedupeStrings;
    DedupedMeans(values[..n], TrimSpace(values[n]));
    assert forall j :: 0 <= j < n ==> values[..n][j] == values[j];
  }

  /* ---- The file ---- */

  function Field(key: string, value: string): string {
    if TrimSpace(value) == "" then "" else key + ": " + Scalar(value) + "\n"
  }

  function Bullets(items: seq<string>): string {
    if items == [] then "" else Bullets(items[..|items| - 1]) + "  - " + Scalar(items[|items| - 1]) + "\n"
  }

  function List(key: string, values: seq<string>): string {
    if DedupeStrings(values) == [] then "" else key + ":\n" + Bullets(DedupeStrings(values))
  }

  // The fences, the fields in their order, a blank line, the body.
  lemma FileExactly(note: Note, src: Source)
    ensures Rendered(note, src) ==
            "---\n"
            + (Field("title", note.title) + Field("date", note.date) + List("tags", note.categories)
               + Field("uid", note.uid) + List("related", note.related) + List("attachments", note.links)
               + Field("account", src.account) + Field("collection", src.collection)
               + (if note.other == [] then "" else "carrel_properties:\n" + Bullets(AllItems(note.other))))
            + "---\n\n" + BodyText(note.description)
  {
    hide JoinLines, Scalar, DedupeStrings, TrimSpace, BodyText, Bullets, AllItems, ItemLines, List, Field, StringLine, ListLines, ExtraLines;
    FieldLine("title", note.title);
    FieldLine("date", note.date);
    FieldLine("uid", note.uid);
    FieldLine("account", src.account);
    FieldLine("collection", src.collection);
    ListLine("tags", note.categories);
    ListLine("related", note.related);
    ListLine("attachments", note.links);
    ExtraLine(note.other);
    JoinNine(StringLine("title", note.title), StringLine("date", note.date), ListLines("tags", note.categories),
             StringLine("uid", note.uid), ListLines("related", note.related), ListLines("attachments", note.links),
             StringLine("account", src.account), StringLine("collection", src.collection), ExtraLines(note.other));
    FencesAre(JoinLines(FrontLines(note, src)), BodyText(note.description));
  }

  lemma FencesAre(front: string, body: string)
    ensures FENCE + "\n" + front + FENCE + "\n\n" + body == "---\n" + front + "---\n\n" + body
  {
    assert FENCE + "\n" == "---\n" && FENCE + "\n\n" == "---\n\n";
    assert FENCE + "\n" + front + FENCE + "\n\n" == FENCE + "\n" + front + (FENCE + "\n\n");
  }

  lemma JoinNine(a: seq<string>, b: seq<string>, c: seq<string>, d: seq<string>, e: seq<string>, f: seq<string>, g: seq<string>,
                 h: seq<string>, i: seq<string>)
    ensures JoinLines(a + b + c + d + e + f + g + h + i) ==
            JoinLines(a) + JoinLines(b) + JoinLines(c) + JoinLines(d) + JoinLines(e) + JoinLines(f) + JoinLines(g) + JoinLines(h) + JoinLines(i)
  {
    hide JoinLines;
    LinesJoin(a, b);
    LinesJoin(a + b, c);
    LinesJoin(a + b + c, d);
    LinesJoin(a + b + c + d, e);
    LinesJoin(a + b + c + d + e, f);
    LinesJoin(a + b + c + d + e + f, g);
    LinesJoin(a + b + c + d + e + f + g, h);
    LinesJoin(a + b + c + d + e + f + g + h, i);
  }

  lemma OneLineIs(line: string)
    ensures JoinLines([line]) == line + "\n" && JoinLines([]) == ""
  {
    assert [line][..0] == [];
  }

  lemma FieldLine(key: string, value: string)
    ensures JoinLines(StringLine(key, value)) == Field(key, value)
  {
    hide Scalar, TrimSpace, JoinLines;
    OneLineIs(key + ": " + Scalar(value));
  }

  lemma {:induction false} BulletLines(items: seq<string>)
    ensures JoinLines(ItemLines(items)) == Bullets(items)
  {
    hide Scalar, JoinLines;
    OneLineIs("");
    if items != [] {
      BulletLines(items[..|items| - 1]);
      var line := "  - " + Scalar(items[|items| - 1]);
      LinesNext(ItemLines(items[..|items| - 1]), line);
    }
  }

  lemma HeadAndBullets(key: string, items: seq<string>)
    ensures JoinLines([key + ":"] + ItemLines(items)) == key + ":\n" + Bullets(items)
  {
    hide Scalar, JoinLines, Bullets, ItemLines;
    BulletLines(items);
    OneLineIs(key + ":");
    LinesJoin([key + ":"], ItemLines(items));
    assert key + ":" + "\n" == key + ":\n" by {
      assert ":" + "\n" == ":\n";
      assert key + ":" + "\n" == key + (":" + "\n");
    }
  }

  lemma ListLine(key: string, values: seq<string>)
    ensures JoinLines(ListLines(key, values)) == List(key, values)
  {
    hide DedupeStrings, JoinLines, Bullets, ItemLines;
    OneLineIs("");
    HeadAndBullets(key, DedupeStrings(values));
  }

  lemma ExtraLine(other: seq<Property>)
    ensures JoinLines(ExtraLines(other)) == if other == [] then "" else "carrel_properties:\n" + Bullets(AllItems(other))
  {
    hide AllItems, JoinLines, Bullets, ItemLines;
    OneLineIs("");
    HeadAndBullets("carrel_properties", AllItems(other));
    assert "carrel_properties" + ":" == "carrel_properties:" && "carrel_properties" + ":\n" == "carrel_properties:\n";
  }

  /* ---- What others wrote ---- */

  // Other names for a field fill the same field; a name nobody knows fills none.
  lemma NamesAreTaken(n: Parsed, value: string)
    ensures F.WithField(n, "summary", value) == F.WithField(n, "title", value) == n.(title := value)
    ensures F.WithField(n, "created", value) == F.WithField(n, "date", value) == if value == "" then n else n.(date := TrimSpace(value))
    ensures F.WithField(n, "uid", value) == n.(uid := value)
    ensures F.WithField(n, "account", value) == n.(account := value) && F.WithField(n, "collection", value) == n.(collection := value)
  {
    hide F.SplitList, TrimSpace, F.WithExtra;
  }

  lemma ListNamesAreTaken(n: Parsed, value: string)
    ensures F.WithField(n, "categories", value) == F.WithField(n, "keywords", value) == F.WithField(n, "tags", value)
            == n.(tags := n.tags + F.SplitList(value))
    ensures F.WithField(n, "related-to", value) == F.WithField(n, "related", value) == n.(related := n.related + F.SplitList(value))
    ensures F.WithField(n, "attach", value) == F.WithField(n, "attachments", value) == n.(attachments := n.attachments + F.SplitList(value))
  {
    hide F.SplitList, TrimSpace, F.WithExtra;
  }

  // A value within single quotes is what is between them.
  lemma SingleQuotes(s: string)
    ensures Unquote("'" + s + "'") == s
  {
    var q := "'" + s + "'";
    assert q[1..|q| - 1] == s && q[0] == '\'' && q[|q| - 1] == '\'';
  }

  // Blank lines and comments are passed over.
  lemma CommentsArePassedOver(line: string, key: string, n: Parsed)
    requires var t := TrimSpace(F.TrimRightSet(line, F.LINE_SPACE)); t == "" || t[0] == '#'
    ensures F.ReadLine(line, key, n) == (key, n)
  {
    hide TrimSpace, F.TrimRightSet;
    assert "#" == ['#'];
  }

  // A list may stand on one line, between brackets or not.
  function Commas(items: seq<string>): string {
    if items == [] then "" else if |items| == 1 then items[0] else items[0] + ", " + Commas(items[1..])
  }

  predicate ListWord(s: string) {
    && s != "" && !IsSpace(s[0]) && !IsSpace(s[|s| - 1]) && s[0] !in {'"', '\'', '['} && s[|s| - 1] != ']'
    && ',' !in s
  }

  lemma {:induction false} CommasSplit(items: seq<string>, lead: string)
    requires items != [] && (forall i :: 0 <= i < |items| ==> ListWord(items[i])) && (lead == "" || lead == " ")
    ensures F.Items(F.SplitCommas(lead + Commas(items))) == items
    decreases |items|
  {
    hide ListWord, F.Items, F.SplitCommas;
    var first := items[0];
    assert ListWord(first);
    WordIs(first, lead);
    if |items| == 1 {
      NoComma(lead + first);
      ItemsCons(lead + first, first, []);
      assert items == [first] && [lead + first] == [lead + first] + [];
      NoItems();
    } else {
      var rest := Commas(items[1..]);
      CommasSplit(items[1..], " ");
      CommasCons(lead, items);
      CommaAt(lead + first, " " + rest);
      ItemsCons(lead + first, first, F.SplitCommas(" " + rest));
      assert items == [first] + items[1..];
    }
  }

  lemma NoItems()
    ensures F.Items([]) == []
  {
  }

  lemma CommasCons(lead: string, items: seq<string>)
    requires |items| > 1
    ensures lead + Commas(items) == (lead + items[0]) + "," + (" " + Commas(items[1..]))
  {
    var rest := Commas(items[1..]);
    assert ", " == "," + " ";
    assert Commas(items) == items[0] + ("," + " ") + rest;
    hide Commas;
  }

  lemma ItemsCons(part: string, word: string, rest: seq<string>)
    requires Unquote(TrimSpace(part)) == word && word != ""
    ensures F.Items([part] + rest) == [word] + F.Items(rest)
  {
    hide Unquote, TrimSpace;
    assert ([part] + rest)[0] == part && ([part] + rest)[1..] == rest;
  }

  lemma WordIs(word: string, lead: string)
    requires ListWord(word) && (lead == "" || lead == " ")
    ensures Unquote(TrimSpace(lead + word)) == word && word != "" && ',' !in lead + word
  {
    TrimmedStays(word);
    if lead == " " {
      TrimStart(' ', word);
    } else {
      assert lead + word == word;
    }
    hide TrimSpace;
  }

  lemma {:induction false} NoComma(s: string)
    requires ',' !in s
    ensures F.SplitCommas(s) == [s]
  {
    CommaFree(s, "");
    assert s + "" == s;
  }

  lemma {:induction false} CommaFree(s: string, rest: string)
    requires ',' !in s && (rest == "" || rest[0] == ',')
    ensures F.IndexOf(s + rest, ',') == |s|
  {
    if s == "" {
      assert s + rest == rest;
    } else {
      assert (s + rest)[0] == s[0] && (s + rest)[1..] == s[1..] + rest;
      CommaFree(s[1..], rest);
    }
  }

  lemma CommaAt(s: string, rest: string)
    requires ',' !in s
    ensures F.SplitCommas(s + "," + rest) == [s] + F.SplitCommas(rest)
  {
    var all := s + ("," + rest);
    assert s + "," + rest == all && ("," + rest)[0] == ',';
    CommaFree(s, "," + rest);
    assert all[..|s|] == s && all[|s| + 1..] == rest;
  }

  // Words written in one line, between brackets, are the list of them.
  lemma BracketsAreTaken(items: seq<string>)
    requires items != [] && forall i :: 0 <= i < |items| ==> ListWord(items[i])
    ensures F.SplitList("[" + Commas(items) + "]") == items && F.SplitList(Commas(items)) == items
  {
    CommasSplit(items, "");
    assert "" + Commas(items) == Commas(items);
    EndsOfCommas(items);
    hide F.SplitList, F.Items, F.SplitCommas, Commas, ListWord;
    WithinBrackets(Commas(items));
    WithoutBrackets(Commas(items));
  }

  lemma WithinBrackets(inner: string)
    ensures F.SplitList("[" + inner + "]") == F.Items(F.SplitCommas(inner))
  {
    hide TrimSpace, F.Items, F.SplitCommas;
    var b := "[" + inner + "]";
    BracketsStay(inner);
    assert "[" <= b && b[1..] != "" && b[1..][|b[1..]| - 1] == ']' && b[1..][..|b[1..]| - 1] == inner;
  }

  lemma BracketsStay(inner: string)
    ensures var b := "[" + inner + "]";
            TrimSpace(b) == b && "[" <= b && b[1..] == inner + "]"
  {
    var b := "[" + inner + "]";
    assert b == ['['] + inner + [']'] && b[0] == '[' && b[|b| - 1] == ']';
    TrimmedStays(b);
    hide TrimSpace;
    assert b[..1] == "[";
  }

  lemma WithoutBrackets(inner: string)
    requires inner != "" && !IsSpace(inner[0]) && !IsSpace(inner[|inner| - 1]) && inner[0] != '[' && inner[|inner| - 1] != ']'
    ensures F.SplitList(inner) == F.Items(F.SplitCommas(inner))
  {
    TrimmedStays(inner);
    hide TrimSpace, F.Items, F.SplitCommas;
    assert "[" == ['['] && !("[" <= inner);
  }

  lemma {:induction false} EndsOfCommas(items: seq<string>)
    requires items != [] && forall i :: 0 <= i < |items| ==> ListWord(items[i])
    ensures var s := Commas(items); s != "" && !IsSpace(s[0]) && !IsSpace(s[|s| - 1]) && s[0] != '[' && s[|s| - 1] != ']'
  {
    assert ListWord(items[0]);
    if |items| > 1 {
      EndsOfCommas(items[1..]);
      var s := Commas(items);
      assert s[0] == items[0][0] && s[|s| - 1] == Commas(items[1..])[|Commas(items[1..])| - 1];
    }
  }
}
