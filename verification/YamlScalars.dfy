// How a value is written on one line of front matter, and read back
// (internal/model/markdown.go, yamlScalar and unquote).
module YamlScalars {
  import opened GoText

  // strings.ReplaceAll
  function ReplaceAll(s: string, was: string, now: string): string
    requires was != ""
  {
    if s == "" then ""
    else if was <= s then now + ReplaceAll(s[|was|..], was, now)
    else [s[0]] + ReplaceAll(s[1..], was, now)
  }

  // Line breaks become spaces.
  function Flat(value: string): string {
    ReplaceAll(ReplaceAll(value, "\r\n", " "), "\n", " ")
  }

  function Escape(value: string): string {
    ReplaceAll(ReplaceAll(value, "\\", "\\\\"), "\"", "\\\"")
  }

  function Unescape(value: string): string {
    ReplaceAll(ReplaceAll(value, "\\\"", "\""), "\\\\", "\\")
  }

  const INDICATORS := ":#\"'{}[]&*!|>%@`,"

  predicate NeedsQuote(value: string) {
    || value == "" || value != TrimSpace(value) || (exists i :: 0 <= i < |value| && value[i] in INDICATORS)
    || "-" <= value || "?" <= value
  }

  function Scalar(value: string): string {
    var flat := Flat(value);
    if NeedsQuote(flat) then "\"" + Escape(flat) + "\"" else flat
  }

  function Unquote(value: string): string {
    if |value| >= 2 && value[0] == '"' && value[|value| - 1] == '"' then Unescape(value[1..|value| - 1])
    else if |value| >= 2 && value[0] == '\'' && value[|value| - 1] == '\'' then value[1..|value| - 1]
    else value
  }

  /* ---- Escaping, one character at a time ---- */

  function Escaped(s: string): string {
    if s == "" then ""
    else (if s[0] == '\\' then "\\\\" else if s[0] == '"' then "\\\"" else [s[0]]) + Escaped(s[1..])
  }

  function Doubled(s: string): string {
    if s == "" then "" else (if s[0] == '\\' then "\\\\" else [s[0]]) + Doubled(s[1..])
  }

  lemma ReplaceSkips(c: char, rest: string, was: string, now: string)
    requires was != "" && (c != was[0] || (|was| == 2 && (rest == "" || rest[0] != was[1])))
    ensures ReplaceAll([c] + rest, was, now) == [c] + ReplaceAll(rest, was, now)
  {
    assert ([c] + rest)[1..] == rest && ([c] + rest)[0] == c;
    assert |was| == 2 && rest != "" ==> ([c] + rest)[1] == rest[0];
  }

  lemma ReplaceHits(rest: string, was: string, now: string)
    requires was != ""
    ensures ReplaceAll(was + rest, was, now) == now + ReplaceAll(rest, was, now)
  {
    assert (was + rest)[|was|..] == rest;
  }

  lemma SkipsTwo(rest: string, was: string, now: string)
    requires was == "\"" || (was == "\\\"" && (rest == "" || rest[0] != '"'))
    ensures ReplaceAll("\\\\" + rest, was, now) == "\\\\" + ReplaceAll(rest, was, now)
  {
    hide ReplaceAll;
    ReplaceSkips('\\', ['\\'] + rest, was, now);
    ReplaceSkips('\\', rest, was, now);
    assert "\\\\" + rest == ['\\'] + (['\\'] + rest);
  }

  lemma {:induction false} DoublingIs(s: string)
    ensures ReplaceAll(s, "\\", "\\\\") == Doubled(s)
  {
    if s != "" {
      hide ReplaceAll;
      DoublingIs(s[1..]);
      assert s == [s[0]] + s[1..];
      if s[0] == '\\' {
        ReplaceHits(s[1..], "\\", "\\\\");
      } else {
        ReplaceSkips(s[0], s[1..], "\\", "\\\\");
      }
    }
  }

  lemma {:induction false} QuotingIs(s: string)
    ensures ReplaceAll(Doubled(s), "\"", "\\\"") == Escaped(s)
  {
    if s != "" {
      hide ReplaceAll;
      var d := Doubled(s[1..]);
      QuotingIs(s[1..]);
      if s[0] == '\\' {
        SkipsTwo(d, "\"", "\\\"");
      } else if s[0] == '"' {
        assert Doubled(s) == "\"" + d;
        ReplaceHits(d, "\"", "\\\"");
      } else {
        ReplaceSkips(s[0], d, "\"", "\\\"");
      }
    }
  }

  lemma EscapeIs(s: string)
    ensures Escape(s) == Escaped(s)
  {
    hide ReplaceAll;
    DoublingIs(s);
    QuotingIs(s);
  }

  lemma {:induction false} UnquotingIs(s: string)
    ensures ReplaceAll(Escaped(s), "\\\"", "\"") == Doubled(s)
  {
    if s != "" {
      hide ReplaceAll;
      var e := Escaped(s[1..]);
      UnquotingIs(s[1..]);
      assert e != "" ==> e[0] != '"';
      if s[0] == '\\' {
        SkipsTwo(e, "\\\"", "\"");
      } else if s[0] == '"' {
        ReplaceHits(e, "\\\"", "\"");
      } else {
        ReplaceSkips(s[0], e, "\\\"", "\"");
      }
    }
  }

  lemma {:induction false} HalvingIs(s: string)
    ensures ReplaceAll(Doubled(s), "\\\\", "\\") == s
  {
    if s != "" {
      hide ReplaceAll;
      var d := Doubled(s[1..]);
      HalvingIs(s[1..]);
      assert s == [s[0]] + s[1..];
      if s[0] == '\\' {
        ReplaceHits(d, "\\\\", "\\");
      } else {
        ReplaceSkips(s[0], d, "\\\\", "\\");
      }
    }
  }

  // Backslashes and quotes come back, in whatever company.
  lemma UnescapeUndoesEscape(s: string)
    ensures Unescape(Escape(s)) == s
  {
    EscapeIs(s);
    UnquotingIs(s);
    HalvingIs(s);
  }

  /* ---- A value and its scalar ---- */

  predicate OneLine(s: string) {
    '\n' !in s
  }

  lemma {:induction false} NoBreaksLeft(s: string, was: string, now: string)
    requires was != "" && OneLine(now)
    ensures OneLine(s) || was == "\n" ==> OneLine(ReplaceAll(s, was, now))
  {
    if s != "" {
      if was <= s {
        NoBreaksLeft(s[|was|..], was, now);
      } else {
        NoBreaksLeft(s[1..], was, now);
        assert s == [s[0]] + s[1..];
        assert was == "\n" ==> s[0] != '\n';
      }
    }
  }

  lemma FlatIsOneLine(value: string)
    ensures OneLine(Flat(value))
  {
    NoBreaksLeft(ReplaceAll(value, "\r\n", " "), "\n", " ");
  }

  lemma {:induction false} EscapedOneLine(s: string)
    requires OneLine(s)
    ensures OneLine(Escaped(s))
  {
    if s != "" {
      EscapedOneLine(s[1..]);
    }
  }

  // Something to stand on one line, with no space about it.
  predicate Neat(s: string) {
    s != "" && OneLine(s) && !IsSpace(s[0]) && !IsSpace(s[|s| - 1])
  }

  lemma ScalarIsNeat(value: string)
    ensures Neat(Scalar(value))
  {
    FlatIsOneLine(value);
    var flat := Flat(value);
    if NeedsQuote(flat) {
      EscapeIs(flat);
      EscapedOneLine(flat);
    } else {
      TrimSpaceTrims(flat);
    }
  }

  lemma BareHasNoQuote(flat: string)
    requires !NeedsQuote(flat)
    ensures flat != "" && flat[0] != '"' && flat[0] != '\''
  {
    hide TrimSpace;
    assert INDICATORS[2] == '"' && INDICATORS[3] == '\'';
    assert flat[0] !in INDICATORS;
  }

  lemma UnquoteOfQuoted(inner: string)
    ensures Unquote("\"" + inner + "\"") == Unescape(inner)
  {
    hide Unescape;
    var q := "\"" + inner + "\"";
    assert q[1..|q| - 1] == inner;
  }

  // What is read back is the value with its line breaks flattened.
  lemma UnquoteUndoesScalar(value: string)
    ensures Unquote(Scalar(value)) == Flat(value)
  {
    hide Flat, Escape, Unescape, NeedsQuote;
    var flat := Flat(value);
    if NeedsQuote(flat) {
      UnquoteOfQuoted(Escape(flat));
      UnescapeUndoesEscape(flat);
    } else {
      BareHasNoQuote(flat);
    }
  }

  lemma {:induction false} NothingToReplace(s: string, was: string, now: string)
    requires was != "" && was[|was| - 1] !in s
    ensures ReplaceAll(s, was, now) == s
  {
    if s != "" {
      assert s == [s[0]] + s[1..];
      assert |was| <= |s| ==> s[|was| - 1] in s;
      NothingToReplace(s[1..], was, now);
    }
  }

  // A value on one line comes back as it was.
  lemma FlatOfOneLine(value: string)
    requires OneLine(value)
    ensures Flat(value) == value
  {
    hide ReplaceAll;
    assert "\r\n"[1] == '\n' && "\n"[0] == '\n';
    NothingToReplace(value, "\r\n", " ");
    NothingToReplace(value, "\n", " ");
  }
}
