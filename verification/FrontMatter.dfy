// Reading the front matter of a note back (internal/model/markdown.go).
module FrontMatter {
  import opened GoText
  import P = Patches
  import opened YamlScalars
  import opened Markdown

  datatype Option<T> = None | Some(value: T)

  /* ---- Lines ---- */

  // The place of the first `c`, or the length.
  function IndexOf(s: string, c: char): (i: nat)
    ensures i <= |s| && c !in s[..i] && (i < |s| ==> s[i] == c)
  {
    if s == "" || s[0] == c then 0
    else
      var n := IndexOf(s[1..], c);
      assert s[..n + 1] == [s[0]] + s[1..][..n];
      n + 1
  }

  function DropCR(s: string): string {
    if s != "" && s[|s| - 1] == '\r' then s[..|s| - 1] else s
  }

  function TrimLeftSet(s: string, chars: string): string {
    if s != "" && s[0] in chars then TrimLeftSet(s[1..], chars) else s
  }

  function TrimRightSet(s: string, chars: string): string {
    if s != "" && s[|s| - 1] in chars then TrimRightSet(s[..|s| - 1], chars) else s
  }

  const HEAD_SPACE := "\U{FEFF} \t\r\n"
  const LINE_SPACE := " \t"

  // The lines before the closing fence, and where the rest begins: each line is counted
  // as one longer than its text.
  function Close(rest: string, consumed: nat, whole: nat, front: seq<string>): Option<(seq<string>, nat)>
    decreases |rest|
  {
    if rest == "" then None
    else
      var i := IndexOf(rest, '\n');
      var line := DropCR(rest[..i]);
      var consumed' := consumed + |line| + 1;
      if TrimSpace(line) == FENCE then Some((front, if consumed' > whole then whole else consumed'))
      else if i == |rest| then None
      else Close(rest[i + 1..], consumed', whole, front + [line])
  }

  // splitFrontMatter: the front lines, when there is front matter, and the rest.
  function SplitFront(body: string): (Option<seq<string>>, string) {
    var trimmed := TrimLeftSet(body, HEAD_SPACE);
    if !(FENCE <= trimmed) then (None, body)
    else
      var after := trimmed[|FENCE|..];
      var i := IndexOf(after, '\n');
      if i == |after| || TrimSpace(after[..i]) != "" then (None, body)
      else
        var rest := after[i + 1..];
        match Close(rest, 0, |rest|, [])
        case None => (None, body)
        case Some((front, at)) => (Some(front), if at <= |rest| then rest[at..] else "")
  }

  /* ---- One line ---- */

  // strings.ToLower, on the characters whose lower case is an ASCII letter.
  function Lower(c: char): char {
    if 'A' <= c <= 'Z' then ((c as int) + 32) as char
    else if c == '\U{0130}' then 'i'
    else if c == '\U{212A}' then 'k'
    else c
  }

  function ToLower(s: string): string {
    if s == "" then "" else [Lower(s[0])] + ToLower(s[1..])
  }

  function ListItem(line: string): Option<string> {
    var trimmed := TrimLeftSet(line, LINE_SPACE);
    if !("- " <= trimmed) && trimmed != "-" then None
    else if |line| == |trimmed| && !("- " <= line) then None
    else Some(Unquote(TrimSpace(trimmed[1..])))
  }

  function SplitCommas(s: string): seq<string> {
    var i := IndexOf(s, ',');
    if i == |s| then [s] else [s[..i]] + SplitCommas(s[i + 1..])
  }

  function Items(parts: seq<string>): seq<string> {
    if parts == [] then []
    else
      var item := Unquote(TrimSpace(parts[0]));
      (if item == "" then [] else [item]) + Items(parts[1..])
  }

  function SplitList(value: string): seq<string> {
    var v := TrimSpace(value);
    var opened' := if "[" <= v then v[1..] else v;
    var closed := if opened' != "" && opened'[|opened'| - 1] == ']' then opened'[..|opened'| - 1] else opened';
    Items(SplitCommas(closed))
  }

  // appendExtra: a property nobody protects, under its canonical name.
  function WithExtra(extra: seq<Property>, item: string): seq<Property> {
    var i := IndexOf(item, ':');
    if i == |item| then extra
    else
      match P.CanonicalName(item[..i])
      case None => extra
      case Some(name) =>
        if name in P.PROTECTED then extra else AddValue(extra, name, TrimSpace(item[i + 1..]))
  }

  function AddValue(extra: seq<Property>, name: string, value: string): seq<Property> {
    if extra == [] then [Property(name, [value])]
    else if extra[0].name == name then [extra[0].(values := extra[0].values + [value])] + extra[1..]
    else [extra[0]] + AddValue(extra[1..], name, value)
  }

  function WithField(n: Parsed, key: string, value: string): Parsed {
    if key in {"title", "summary"} then n.(title := value)
    else if key in {"date", "created"} then (if value == "" then n else n.(date := TrimSpace(value)))
    else if key == "uid" then n.(uid := value)
    else if key in {"tags", "categories", "keywords"} then n.(tags := n.tags + SplitList(value))
    else if key in {"related", "related-to"} then n.(related := n.related + SplitList(value))
    else if key in {"attachments", "attach"} then n.(attachments := n.attachments + SplitList(value))
    else if key == "account" then n.(account := value)
    else if key == "collection" then n.(collection := value)
    else if key == "carrel_properties" && value != "" then n.(extra := WithExtra(n.extra, value))
    else n
  }

  function WithItem(n: Parsed, key: string, item: string): Parsed {
    if item == "" then n
    else if key in {"tags", "categories", "keywords"} then n.(tags := n.tags + [item])
    else if key in {"related", "related-to"} then n.(related := n.related + [item])
    else if key in {"attachments", "attach"} then n.(attachments := n.attachments + [item])
    else if key == "carrel_properties" then n.(extra := WithExtra(n.extra, item))
    else n
  }

  // One line of front matter, under the key in force; the key that is then in force.
  function ReadLine(raw: string, key: string, n: Parsed): (string, Parsed) {
    var line := TrimRightSet(raw, LINE_SPACE);
    if TrimSpace(line) == "" || "#" <= TrimSpace(line) then (key, n)
    else
      match ListItem(line)
      case Some(item) => (key, WithItem(n, key, item))
      case None =>
        var i := IndexOf(line, ':');
        if i == |line| then (key, n)
        else
          var name := ToLower(TrimSpace(line[..i]));
          (name, WithField(n, name, Unquote(TrimSpace(line[i + 1..]))))
  }

  function ReadLines(lines: seq<string>, key: string, n: Parsed): (string, Parsed) {
    if lines == [] then (key, n)
    else
      var before := ReadLines(lines[..|lines| - 1], key, n);
      ReadLine(lines[|lines| - 1], before.0, before.1)
  }

  const EMPTY := Parsed("", "", [], "", [], [], "", "", [], "")

  lemma {:induction false} AddValueAt(extra: seq<Property>, name: string, value: string, k: nat)
    requires k < |extra| && extra[k].name == name && forall j :: 0 <= j < k ==> extra[j].name != name
    ensures AddValue(extra, name, value) == extra[k := extra[k].(values := extra[k].values + [value])]
  {
    if k > 0 {
      AddValueAt(extra[1..], name, value, k - 1);
    }
  }

  lemma {:induction false} AddValueNew(extra: seq<Property>, name: string, value: string)
    requires forall j :: 0 <= j < |extra| ==> extra[j].name != name
    ensures AddValue(extra, name, value) == extra + [Property(name, [value])]
  {
    if extra != [] {
      AddValueNew(extra[1..], name, value);
      assert extra == [extra[0]] + extra[1..];
    }
  }

  // The fields of a note as they are filled in, line by line.
  class MarkdownNote {
    var note: Parsed

    constructor (body: string)
      ensures note == EMPTY.(body := body)
    {
      note := EMPTY.(body := body);
    }

    method AppendExtra(item: string)
      modifies this
      ensures note == old(note).(extra := WithExtra(old(note).extra, item))
    {
      hide AddValue, TrimSpace;
      var i := IndexOf(item, ':');
      if i == |item| {
        return;
      }
      var canonical := P.CanonicalName(item[..i]);
      if canonical == P.None || canonical.value in P.PROTECTED {
        return;
      }
      AppendValue(canonical.value, TrimSpace(item[i + 1..]));
    }

    // Another value of a property already there, or a property of its own.
    method AppendValue(name: string, value: string)
      modifies this
      ensures note == old(note).(extra := AddValue(old(note).extra, name, value))
    {
      for k := 0 to |note.extra|
        invariant note == old(note) && forall j :: 0 <= j < k ==> note.extra[j].name != name
      {
        if note.extra[k].name == name {
          AddValueAt(note.extra, name, value, k);
          note := note.(extra := note.extra[k := note.extra[k].(values := note.extra[k].values + [value])]);
          return;
        }
      }
      AddValueNew(note.extra, name, value);
      note := note.(extra := note.extra + [Property(name, [value])]);
    }

    method SetField(key: string, value: string)
      modifies this
      ensures note == WithField(old(note), key, value)
    {
      hide SplitList, TrimSpace, WithExtra;
      if key == "title" || key == "summary" {
        note := note.(title := value);
      } else if key == "date" || key == "created" {
        if value != "" {
          note := note.(date := TrimSpace(value));
        }
      } else if key == "uid" {
        note := note.(uid := value);
      } else if key == "tags" || key == "categories" || key == "keywords" {
        note := note.(tags := note.tags + SplitList(value));
      } else if key == "related" || key == "related-to" {
        note := note.(related := note.related + SplitList(value));
      } else if key == "attachments" || key == "attach" {
        note := note.(attachments := note.attachments + SplitList(value));
      } else if key == "account" {
        note := note.(account := value);
      } else if key == "collection" {
        note := note.(collection := value);
      } else if key == "carrel_properties" && value != "" {
        AppendExtra(value);
      }
    }

    method AppendListValue(key: string, item: string)
      modifies this
      ensures note == WithItem(old(note), key, item)
    {
      hide WithExtra;
      if item == "" {
        return;
      }
      if key == "tags" || key == "categories" || key == "keywords" {
        note := note.(tags := note.tags + [item]);
      } else if key == "related" || key == "related-to" {
        note := note.(related := note.related + [item]);
      } else if key == "attachments" || key == "attach" {
        note := note.(attachments := note.attachments + [item]);
      } else if key == "carrel_properties" {
        AppendExtra(item);
      }
    }

    method ReadFrontMatter(front: seq<string>)
      modifies this
      ensures note == ReadLines(front, "", old(note)).1
    {
      var key := "";
      for i := 0 to |front|
        invariant (key, note) == ReadLines(front[..i], "", old(note))
      {
        assert front[..i + 1][..i] == front[..i];
        key := ReadOne(front[i], key);
      }
      assert front[..|front|] == front;
    }

    method ReadOne(raw: string, key: string) returns (next: string)
      modifies this
      ensures (next, note) == ReadLine(raw, key, old(note))
    {
      hide WithField, WithItem, TrimSpace, Unquote, ListItem, ToLower, TrimRightSet;
      var line := TrimRightSet(raw, LINE_SPACE);
      if TrimSpace(line) == "" || "#" <= TrimSpace(line) {
        return key;
      }
      match ListItem(line)
      case Some(item) =>
        AppendListValue(key, item);
        return key;
      case None =>
        var i := IndexOf(line, ':');
        if i == |line| {
          return key;
        }
        next := ToLower(TrimSpace(line[..i]));
        SetField(next, Unquote(TrimSpace(line[i + 1..])));
    }
  }

  datatype Outcome = Empty | NoFront | Nothing | Read(note: Parsed)

  // A file that has front matter and names its title there; the other files, written by
  // hand, are not modelled.
  function Outcomes(body: string): Outcome {
    if TrimSpace(body) == "" then Empty
    else
      var (front, rest) := SplitFront(body);
      match front
      case None => NoFront
      case Some(lines) =>
        var note := ReadLines(lines, "", EMPTY.(body := TrimSpace(rest))).1;
        if TrimSpace(note.title) == "" && TrimSpace(note.body) == "" then Nothing else Read(note)
  }

  method ParseMarkdown(body: string) returns (r: Outcome)
    ensures r == Outcomes(body)
  {
    hide SplitFront, ReadLines, TrimSpace;
    if TrimSpace(body) == "" {
      return Empty;
    }
    var (front, rest) := SplitFront(body);
    if front == None {
      return NoFront;
    }
    var note := new MarkdownNote(TrimSpace(rest));
    note.ReadFrontMatter(front.value);
    if TrimSpace(note.note.title) == "" && TrimSpace(note.note.body) == "" {
      return Nothing;
    }
    return Read(note.note);
  }
}
