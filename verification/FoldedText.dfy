// What the folded lines look like: none is longer than 75 octets, and none begins or
// ends inside a UTF-8 sequence (internal/model/fold.go).
module FoldedText {
  import opened Fold

  /* ---- UTF-8, section 4 of RFC 3629 ---- */

  predicate Cont(b: Octet) {
    0x80 <= b < 0xC0
  }

  // The length of the sequence that starts `s`, or 0 when there is none.
  function RuneLen(s: Octets): (n: nat)
    ensures n <= 4 && n <= |s|
    ensures n > 0 ==> RuneStart(s[0]) && forall i :: 1 <= i < n ==> Cont(s[i])
  {
    if s == [] then 0
    else if s[0] < 0x80 then 1
    else if 0xC2 <= s[0] < 0xE0 && |s| >= 2 && Cont(s[1]) then 2
    else if 0xE0 <= s[0] < 0xF0 && |s| >= 3 && Cont(s[1]) && Cont(s[2])
            && (s[0] == 0xE0 ==> s[1] >= 0xA0) && (s[0] == 0xED ==> s[1] < 0xA0) then 3
    else if 0xF0 <= s[0] < 0xF5 && |s| >= 4 && Cont(s[1]) && Cont(s[2]) && Cont(s[3])
            && (s[0] == 0xF0 ==> s[1] >= 0x90) && (s[0] == 0xF4 ==> s[1] < 0x90) then 4
    else 0
  }

  predicate Valid(s: Octets) {
    s == [] || (RuneLen(s) > 0 && Valid(s[RuneLen(s)..]))
  }

  // A text can be cut wherever a sequence starts, and both parts are texts.
  lemma {:induction false} CutAtStart(s: Octets, cut: nat)
    requires Valid(s) && cut < |s| && RuneStart(s[cut])
    ensures Valid(s[..cut]) && Valid(s[cut..])
    decreases |s|
  {
    var n := RuneLen(s);
    if cut == 0 {
      assert s[0..] == s;
    } else {
      assert cut >= n;
      if cut < |s| {
        CutAtStart(s[n..], cut - n);
        assert s[..cut][n..] == s[n..][..cut - n] && s[cut..] == s[n..][cut - n..];
        assert forall i :: 0 <= i < n ==> s[..cut][i] == s[i];
        assert RuneLen(s[..cut]) == n;
      }
    }
  }

  lemma RuneLenStays(a: Octets, b: Octets)
    requires RuneLen(a) > 0
    ensures RuneLen(a + b) == RuneLen(a)
  {
    assert forall i :: 0 <= i < |a| ==> (a + b)[i] == a[i];
  }

  lemma {:induction false} JoinValid(a: Octets, b: Octets)
    requires Valid(a) && Valid(b)
    ensures Valid(a + b)
    decreases |a|
  {
    hide RuneLen;
    if a == [] {
      assert a + b == b;
    } else {
      var n := RuneLen(a);
      JoinValid(a[n..], b);
      assert (a + b)[n..] == a[n..] + b;
      RuneLenStays(a, b);
    }
  }

  // No place is more than three octets past a start.
  lemma {:induction false} StartNear(s: Octets, i: nat)
    requires Valid(s) && i < |s|
    ensures exists j :: 0 <= j <= i <= j + 3 && RuneStart(s[j])
    decreases |s|
  {
    var n := RuneLen(s);
    if i >= n {
      StartNear(s[n..], i - n);
      var j :| 0 <= j <= i - n <= j + 3 && RuneStart(s[n..][j]);
      assert RuneStart(s[j + n]);
    } else {
      assert RuneStart(s[0]);
    }
  }

  lemma CutIsClose(line: Octets, limit: nat)
    requires Valid(line) && 3 < limit < |line|
    ensures var cut := Boundary(line, limit);
            limit - 3 <= cut <= limit && RuneStart(line[cut]) && Valid(line[..cut]) && Valid(line[cut..])
  {
    var cut := Boundary(line, limit);
    StartNear(line, limit);
    var j :| 0 <= j <= limit <= j + 3 && RuneStart(line[j]);
    assert j <= cut;
    CutAtStart(line, cut);
  }

  /* ---- The physical lines ---- */

  ghost predicate Fine(lines: seq<Octets>) {
    forall i :: 0 <= i < |lines| ==> |lines[i]| <= FOLD_LIMIT && Valid(lines[i])
  }

  ghost predicate AllValid(lines: seq<Octets>) {
    forall i :: 0 <= i < |lines| ==> Valid(lines[i])
  }

  lemma SplitAfter(line: Octets, rest: Octets)
    requires OneLine(line)
    ensures Split(line + CRLF + rest) == [line] + Split(rest)
  {
    FirstCrlfOf(line, rest);
    var s := line + CRLF + rest;
    assert s[..|line|] == line && s[|line| + 2..] == rest;
  }

  lemma SpaceThen(line: Octets)
    requires OneLine(line) && Valid(line)
    ensures OneLine([SP] + line) && Valid([SP] + line)
  {
    assert forall i: nat :: CrlfAt([SP] + line, i) ==> i > 0 && CrlfAt(line, i - 1);
    assert [SP][1..] == [];
    assert Valid([SP]);
    JoinValid([SP], line);
  }

  lemma LedOneLine(lead: Octets, line: Octets)
    requires (lead == [] || lead == [SP]) && OneLine(line) && Valid(line)
    ensures OneLine(lead + line) && Valid(lead + line)
  {
    if lead == [SP] {
      SpaceThen(line);
    } else {
      assert lead + line == line;
    }
  }

  lemma OneMoreFine(line: Octets, rest: Octets)
    requires OneLine(line) && Valid(line) && |line| <= FOLD_LIMIT && Fine(Split(rest))
    ensures Fine(Split(line + CRLF + rest))
  {
    hide Valid;
    SplitAfter(line, rest);
  }

  // One logical line, after `lead` (nothing, or the space of a continuation).
  lemma {:induction false} LineIsFine(lead: Octets, line: Octets, limit: nat, rest: Octets)
    requires (lead == [] && limit == FOLD_LIMIT) || (lead == [SP] && limit == FOLD_LIMIT - 1)
    requires OneLine(line) && Valid(line) && Fine(Split(rest))
    ensures Fine(Split(lead + Folded(line, limit) + CRLF + rest))
    decreases |line|
  {
    hide Valid, OneLine, Fine, Split;
    if |line| <= limit {
      LedOneLine(lead, line);
      OneMoreFine(lead + line, rest);
    } else {
      CutIsClose(line, limit);
      var cut := Boundary(line, limit);
      PartOneLine(line, cut);
      var part, inner := line[..cut], Folded(line[cut..], FOLD_LIMIT - 1);
      LedOneLine(lead, part);
      LineIsFine([SP], line[cut..], FOLD_LIMIT - 1, rest);
      OneMoreFine(lead + part, [SP] + inner + CRLF + rest);
      Regroup(lead, part, inner, rest);
    }
  }

  lemma Regroup(lead: Octets, part: Octets, inner: Octets, rest: Octets)
    ensures lead + (part + CRLF + [SP] + inner) + CRLF + rest == lead + part + CRLF + ([SP] + inner + CRLF + rest)
  {
  }

  lemma Bare(a: Octets, rest: Octets)
    ensures [] + a + CRLF + rest == a + CRLF + rest && a + CRLF + [] == a + CRLF
  {
  }

  lemma NothingIsFine()
    ensures Fine(Split([]))
  {
  }

  lemma {:induction false} LinesAreFine(lines: seq<Octets>)
    requires lines != [] && AllOneLine(lines) && AllValid(lines)
    ensures Fine(Split(FoldedLines(lines)))
  {
    hide Valid, OneLine, Fine, Split, Folded;
    NothingIsFine();
    if |lines| > 1 {
      LinesAreFine(lines[1..]);
      LineIsFine([], lines[0], FOLD_LIMIT, FoldedLines(lines[1..]));
      Bare(Folded(lines[0], FOLD_LIMIT), FoldedLines(lines[1..]));
    } else if lines[0] != [] {
      LineIsFine([], lines[0], FOLD_LIMIT, []);
      Bare(Folded(lines[0], FOLD_LIMIT), []);
    }
  }

  lemma {:induction false} SplitValid(s: Octets)
    requires Valid(s)
    ensures AllValid(Split(s))
    decreases |s|
  {
    var i := FirstCrlf(s);
    if i < |s| {
      CutAtStart(s, i);
      if i + 2 < |s| {
        CutAtStart(s[i..], 1);
        CutAtStart(s[i..], 1);
        AfterCrlf(s[i..]);
        assert s[i..][2..] == s[i + 2..];
      } else {
        assert s[i + 2..] == [];
      }
      SplitValid(s[i + 2..]);
    }
  }

  lemma AfterCrlf(s: Octets)
    requires Valid(s) && CrlfAt(s, 0)
    ensures Valid(s[2..])
  {
    assert RuneLen(s) == 1 && RuneLen(s[1..]) == 1;
    assert s[1..][1..] == s[2..];
  }

  // The output of folding a text, line by line.
  lemma FoldedTextIsFine(src: Octets)
    requires Valid(src)
    ensures forall i :: 0 <= i < |Split(FoldedLines(Split(src)))| ==>
              |Split(FoldedLines(Split(src)))[i]| <= 75 && Valid(Split(FoldedLines(Split(src)))[i])
  {
    SplitOneLine(src);
    SplitValid(src);
    LinesAreFine(Split(src));
  }

  /* ---- No line is cut before it has to be ---- */

  // The physical lines of one logical line, each but the first behind one space.
  function Refold(parts: seq<Octets>): Octets {
    if parts == [] then []
    else if |parts| == 1 then parts[0]
    else parts[0] + CRLF + [SP] + Refold(parts[1..])
  }

  function Whole(parts: seq<Octets>): Octets {
    if parts == [] then [] else parts[0] + Whole(parts[1..])
  }

  // What fits into the first physical line is `limit` octets, into the others one less than
  // 75 for the space. A part that another follows has no room for three more, which is what
  // is left where a character does not fit.
  ghost predicate Tight(parts: seq<Octets>, limit: nat) {
    && parts != [] && |parts[0]| <= limit
    && (|parts| > 1 ==> limit <= |parts[0]| + 3 && Tight(parts[1..], 74))
  }

  // A line is folded into parts that are it again when put together, none longer than it
  // may be, and none but the last more than three octets short of that.
  lemma {:induction false} FoldedIsTight(line: Octets, limit: nat) returns (parts: seq<Octets>)
    requires Valid(line) && 3 < limit
    ensures Whole(parts) == line && Folded(line, limit) == Refold(parts) && Tight(parts, limit)
    decreases |line|
  {
    if |line| <= limit {
      parts := [line];
    } else {
      CutIsClose(line, limit);
      var cut := Boundary(line, limit);
      var rest := FoldedIsTight(line[cut..], 74);
      parts := [line[..cut]] + rest;
      assert parts[1..] == rest && line == line[..cut] + line[cut..];
    }
  }

  // In particular a line of at most 75 octets is left as it is.
  lemma LinesOfTextAreTight(line: Octets)
    requires Valid(line)
    ensures exists parts :: Whole(parts) == line && Folded(line, 75) == Refold(parts) && Tight(parts, 75)
    ensures |line| <= 75 ==> Folded(line, 75) == line
  {
    var parts := FoldedIsTight(line, 75);
  }
}
