// Line folding of section 3.2 of RFC 6350, over octets (internal/model/fold.go).
module Fold {

  newtype Octet = x: int | 0 <= x < 256

  type Octets = seq<Octet>

  const CR: Octet := 13
  const LF: Octet := 10
  const SP: Octet := 32
  const TAB: Octet := 9
  const CRLF: Octets := [CR, LF]
  const FOLD_LIMIT: nat := 75

  /* ---- Lines ---- */

  predicate CrlfAt(s: Octets, i: nat) {
    i + 1 < |s| && s[i] == CR && s[i + 1] == LF
  }

  ghost predicate OneLine(s: Octets) {
    forall i: nat :: !CrlfAt(s, i)
  }

  lemma OneLineCons(s: Octets, n: nat)
    requires s != [] && !CrlfAt(s, 0) && n < |s| && OneLine(s[1..][..n])
    ensures OneLine(s[..n + 1])
  {
    forall j: nat {:trigger CrlfAt(s[..n + 1], j)}
      ensures !CrlfAt(s[..n + 1], j)
    {
      if j > 0 {
        assert !CrlfAt(s[1..][..n], j - 1);
      } else {
        assert !CrlfAt(s, 0);
      }
    }
  }

  // The place of the first CRLF, or the length.
  function FirstCrlf(s: Octets): (i: nat)
    ensures i <= |s| && (i < |s| ==> CrlfAt(s, i)) && OneLine(s[..i])
  {
    if s == [] then 0
    else if CrlfAt(s, 0) then 0
    else
      var n := FirstCrlf(s[1..]);
      OneLineCons(s, n);
      n + 1
  }

  function Split(s: Octets): (lines: seq<Octets>)
    ensures lines != []
  {
    var i := FirstCrlf(s);
    if i == |s| then [s] else [s[..i]] + Split(s[i + 2..])
  }

  // The lines again, each ended by CRLF; an empty last line stands for the end.
  function Join(lines: seq<Octets>): Octets
    requires lines != []
  {
    if |lines| == 1 then (if lines[0] == [] then [] else lines[0] + CRLF)
    else lines[0] + CRLF + Join(lines[1..])
  }

  predicate Ended(s: Octets) {
    s == [] || (|s| >= 2 && s[|s| - 2..] == CRLF)
  }

  lemma FirstCrlfOf(line: Octets, rest: Octets)
    requires OneLine(line)
    ensures FirstCrlf(line + CRLF + rest) == |line|
  {
    var s := line + CRLF + rest;
    var i := FirstCrlf(s);
    assert CrlfAt(s, |line|);
    if i < |line| && i + 1 < |line| {
      assert CrlfAt(line, i);
    }
    if i > |line| + 1 {
      assert CrlfAt(s[..i], |line|);
    }
  }

  lemma {:induction false} JoinOfSplit(s: Octets)
    ensures Join(Split(s)) == if Ended(s) then s else s + CRLF
    decreases |s|
  {
    var i := FirstCrlf(s);
    if i < |s| {
      EndedTail(s, i);
      hide Ended, OneLine;
      JoinOfSplit(s[i + 2..]);
      assert s == s[..i] + CRLF + s[i + 2..];
    } else {
      assert s[..|s|] == s;
      assert Ended(s) && s != [] ==> CrlfAt(s, |s| - 2);
    }
  }

  lemma EndedTail(s: Octets, i: nat)
    requires CrlfAt(s, i) && OneLine(s[..i])
    ensures Ended(s[i + 2..]) <==> Ended(s)
  {
    var rest := s[i + 2..];
    if |rest| >= 2 {
      assert rest[|rest| - 2..] == s[|s| - 2..];
    } else if |rest| == 1 {
      assert s[|s| - 2] == LF;
    } else {
      assert s[|s| - 2..] == CRLF;
    }
  }

  /* ---- Folding ---- */

  predicate RuneStart(b: Octet) {
    b < 0x80 || b >= 0xC0
  }

  // The last place up to `limit` where a character starts.
  function Boundary(line: Octets, limit: nat): (cut: nat)
    requires limit < |line|
    ensures cut <= limit && (cut > 0 ==> RuneStart(line[cut]))
    ensures forall i :: cut < i <= limit ==> !RuneStart(line[i])
  {
    if limit == 0 || RuneStart(line[limit]) then limit else Boundary(line, limit - 1)
  }

  function Folded(line: Octets, limit: nat): Octets
    decreases |line|
  {
    if |line| <= limit then line
    else
      var cut := Boundary(line, limit);
      if cut == 0 then line
      else line[..cut] + CRLF + [SP] + Folded(line[cut..], FOLD_LIMIT - 1)
  }

  function FoldedLines(lines: seq<Octets>): Octets
    requires lines != []
  {
    if |lines| == 1 then (if lines[0] == [] then [] else Folded(lines[0], FOLD_LIMIT) + CRLF)
    else Folded(lines[0], FOLD_LIMIT) + CRLF + FoldedLines(lines[1..])
  }

  method RuneBoundary(line: Octets, limit: nat) returns (cut: nat)
    ensures cut == if limit >= |line| then |line| else Boundary(line, limit)
  {
    if limit >= |line| {
      return |line|;
    }
    cut := limit;
    while cut > 0 && !RuneStart(line[cut])
      invariant cut <= limit && Boundary(line, cut) == Boundary(line, limit)
    {
      cut := cut - 1;
    }
  }

  method WriteFolded(written: Octets, whole: Octets) returns (out: Octets)
    ensures out == written + Folded(whole, FOLD_LIMIT)
  {
    out := written;
    var line, limit: nat := whole, FOLD_LIMIT;
    while |line| > limit
      invariant limit > 0 && out + Folded(line, limit) == written + Folded(whole, FOLD_LIMIT)
      decreases |line|
    {
      var cut := RuneBoundary(line, limit);
      if cut == 0 {
        break;
      }
      assert out + Folded(line, limit) == out + line[..cut] + CRLF + [SP] + Folded(line[cut..], FOLD_LIMIT - 1);
      out := out + line[..cut];
      out := out + CRLF;
      out := out + [SP];
      line := line[cut..];
      limit := FOLD_LIMIT - 1;
    }
    out := out + line;
  }

  method FoldLines(src: Octets) returns (out: Octets)
    ensures out == FoldedLines(Split(src))
  {
    var lines := Split(src);
    out := [];
    var i := 0;
    while i < |lines|
      invariant 0 <= i <= |lines|
      invariant if i < |lines| then out + FoldedLines(lines[i..]) == FoldedLines(lines) else out == FoldedLines(lines)
    {
      if i == |lines| - 1 && |lines[i]| == 0 {
        break;
      }
      var before := out;
      out := WriteFolded(out, lines[i]);
      out := out + CRLF;
      assert lines[i..][1..] == lines[i + 1..];
      i := i + 1;
      if i < |lines| {
        assert before + FoldedLines(lines[i - 1..]) == out + FoldedLines(lines[i..]);
      }
    }
  }

  /* ---- Unfolding undoes it ---- */

  predicate White(b: Octet) {
    b == SP || b == TAB
  }

  // Every CRLF followed by a space or a tab goes, with that one character.
  function Unfold(s: Octets): Octets {
    if |s| >= 3 && CrlfAt(s, 0) && White(s[2]) then Unfold(s[3..])
    else if s == [] then []
    else [s[0]] + Unfold(s[1..])
  }

  lemma {:induction false} UnfoldPlain(line: Octets, rest: Octets)
    requires OneLine(line) && (rest == [] || rest[0] == CR)
    ensures Unfold(line + rest) == line + Unfold(rest)
  {
    if line == [] {
      assert line + rest == rest;
    } else {
      var s := line + rest;
      assert !CrlfAt(line, 0);
      assert !CrlfAt(s, 0);
      assert s[1..] == line[1..] + rest;
      assert forall i: nat :: CrlfAt(line[1..], i) ==> CrlfAt(line, i + 1);
      UnfoldPlain(line[1..], rest);
    }
  }

  lemma PartOneLine(line: Octets, cut: nat)
    requires OneLine(line) && cut <= |line|
    ensures OneLine(line[..cut]) && OneLine(line[cut..])
  {
    assert forall i: nat :: CrlfAt(line[..cut], i) ==> CrlfAt(line, i);
    assert forall i: nat :: CrlfAt(line[cut..], i) ==> CrlfAt(line, i + cut);
  }

  lemma UnfoldOneFold(part: Octets, inner: Octets)
    requires OneLine(part)
    ensures Unfold(part + CRLF + [SP] + inner) == part + Unfold(inner)
  {
    var tail := CRLF + [SP] + inner;
    UnfoldPlain(part, tail);
    assert part + CRLF + [SP] + inner == part + tail && tail[3..] == inner;
  }

  lemma Regroup(part: Octets, inner: Octets, rest: Octets)
    ensures part + CRLF + [SP] + inner + rest == part + CRLF + [SP] + (inner + rest)
  {
  }

  lemma {:induction false} UnfoldFolded(line: Octets, limit: nat, rest: Octets)
    requires OneLine(line) && (rest == [] || rest[0] == CR)
    ensures Unfold(Folded(line, limit) + rest) == line + Unfold(rest)
    decreases |line|
  {
    if |line| <= limit || Boundary(line, limit) == 0 {
      UnfoldPlain(line, rest);
    } else {
      var cut := Boundary(line, limit);
      PartOneLine(line, cut);
      var part, inner := line[..cut], Folded(line[cut..], FOLD_LIMIT - 1);
      hide Unfold, Boundary, OneLine, CrlfAt;
      UnfoldOneFold(part, inner + rest);
      UnfoldFolded(line[cut..], FOLD_LIMIT - 1, rest);
      Regroup(part, inner, rest);
      Rejoin(line, 0, cut, Unfold(rest));
      assert part[0..] == part && line[0..] == line;
    }
  }

  lemma FoldedStarts(line: Octets, limit: nat)
    requires line != []
    ensures Folded(line, limit) != [] && Folded(line, limit)[0] == line[0]
  {
  }

  // The same, for what is left once the first character is gone.
  lemma UnfoldFoldedTail(line: Octets, limit: nat, rest: Octets)
    requires OneLine(line) && line != [] && (rest == [] || rest[0] == CR)
    ensures Folded(line, limit) != []
    ensures Unfold(Folded(line, limit)[1..] + rest) == line[1..] + Unfold(rest)
  {
    FoldedStarts(line, limit);
    PartOneLine(line, 1);
    if |line| <= limit || Boundary(line, limit) == 0 {
      UnfoldPlain(line[1..], rest);
    } else {
      TailOfFold(line, Boundary(line, limit), limit, rest);
    }
  }

  lemma ShiftFold(part: Octets, inner: Octets, rest: Octets)
    requires part != []
    ensures (part + CRLF + [SP] + inner)[1..] + rest == part[1..] + CRLF + [SP] + (inner + rest)
  {
  }

  lemma Rejoin(line: Octets, from: nat, cut: nat, rest: Octets)
    requires from <= cut <= |line|
    ensures line[..cut][from..] + (line[cut..] + rest) == line[from..] + rest
  {
  }

  lemma TailOfFold(line: Octets, cut: nat, limit: nat, rest: Octets)
    requires OneLine(line) && |line| > limit && cut == Boundary(line, limit) > 0 && (rest == [] || rest[0] == CR)
    ensures Folded(line, limit) != []
    ensures Unfold(Folded(line, limit)[1..] + rest) == line[1..] + Unfold(rest)
  {
    PartOneLine(line, cut);
    PartOneLine(line[..cut], 1);
    hide Unfold, Boundary, OneLine, CrlfAt;
    ShiftFold(line[..cut], Folded(line[cut..], FOLD_LIMIT - 1), rest);
    UnfoldOneFold(line[..cut][1..], Folded(line[cut..], FOLD_LIMIT - 1) + rest);
    UnfoldFolded(line[cut..], FOLD_LIMIT - 1, rest);
    Rejoin(line, 1, cut, Unfold(rest));
  }

  ghost predicate AllOneLine(lines: seq<Octets>) {
    forall i :: 0 <= i < |lines| ==> OneLine(lines[i])
  }

  lemma {:induction false} SplitOneLine(s: Octets)
    ensures AllOneLine(Split(s))
    decreases |s|
  {
    var i := FirstCrlf(s);
    if i < |s| {
      SplitOneLine(s[i + 2..]);
    } else {
      assert s[..i] == s;
    }
  }

  // Lines after the first that start with white space: each is taken for a continuation.
  function Indented(lines: seq<Octets>): nat
    requires lines != []
  {
    if |lines| == 1 then 0
    else (if lines[1] != [] && White(lines[1][0]) then 1 else 0) + Indented(lines[1..])
  }

  // One line of the output, from `skip` on, in front of what follows it.
  lemma UnfoldHead(line: Octets, skip: nat, rest: Octets)
    requires OneLine(line) && skip <= 1 && skip <= |line| && (rest == [] || rest[0] == CR)
    ensures skip <= |Folded(line, FOLD_LIMIT)|
    ensures Unfold((Folded(line, FOLD_LIMIT) + rest)[skip..]) == line[skip..] + Unfold(rest)
  {
    hide Unfold, Folded, OneLine;
    var head := Folded(line, FOLD_LIMIT);
    if skip == 0 {
      UnfoldFolded(line, FOLD_LIMIT, rest);
      assert (head + rest)[0..] == head + rest && line[0..] == line;
    } else {
      UnfoldFoldedTail(line, FOLD_LIMIT, rest);
      assert (head + rest)[1..] == head[1..] + rest;
    }
  }

  lemma UnfoldEnd()
    ensures Unfold(CRLF) == CRLF
  {
    assert CRLF[1..] == [LF] && [LF][1..] == [];
    assert Unfold([LF]) == [LF] + Unfold([]);
  }

  lemma DropHead(head: Octets, rest: Octets, skip: nat)
    requires skip <= |head|
    ensures (head + CRLF + rest)[skip..] == head[skip..] + (CRLF + rest)
    ensures head + CRLF + rest == head + (CRLF + rest)
  {
  }

  lemma {:induction false} UnfoldLines(lines: seq<Octets>, skip: nat)
    requires lines != [] && AllOneLine(lines) && skip <= 1 && skip <= |lines[0]|
    ensures skip <= |FoldedLines(lines)| && skip <= |Join(lines)|
    ensures |Unfold(FoldedLines(lines)[skip..])| == |Join(lines)| - skip - 3 * Indented(lines)
    ensures Indented(lines) == 0 ==> Unfold(FoldedLines(lines)[skip..]) == Join(lines)[skip..]
    decreases |lines|, 1
  {
    var line := lines[0];
    if |lines| == 1 {
      UnfoldLast(lines, skip);
    } else {
      hide Unfold, Folded;
      var tail := FoldedLines(lines[1..]);
      UnfoldHead(line, skip, CRLF + tail);
      DropHead(Folded(line, FOLD_LIMIT), tail, skip);
      UnfoldRest(lines, CRLF + tail);
      DropHead(line, Join(lines[1..]), skip);
    }
  }

  lemma DropLast(head: Octets, skip: nat)
    requires skip <= |head|
    ensures (head + CRLF)[skip..] == head[skip..] + CRLF
  {
  }

  lemma UnfoldLastLine(line: Octets, skip: nat)
    requires OneLine(line) && skip <= 1 && skip <= |line| && line != []
    ensures skip <= |Folded(line, FOLD_LIMIT)|
    ensures Unfold((Folded(line, FOLD_LIMIT) + CRLF)[skip..]) == (line + CRLF)[skip..]
  {
    hide Unfold, Folded, OneLine;
    UnfoldHead(line, skip, CRLF);
    UnfoldEnd();
    DropLast(line, skip);
  }

  lemma UnfoldLast(lines: seq<Octets>, skip: nat)
    requires |lines| == 1 && OneLine(lines[0]) && skip <= 1 && skip <= |lines[0]|
    ensures skip <= |FoldedLines(lines)| && skip <= |Join(lines)|
    ensures Unfold(FoldedLines(lines)[skip..]) == Join(lines)[skip..]
  {
    hide Unfold, Folded, OneLine;
    if lines[0] == [] {
      UnfoldNothing(FoldedLines(lines)[skip..]);
    } else {
      UnfoldLastLine(lines[0], skip);
    }
  }

  lemma UnfoldNothing(s: Octets)
    requires s == []
    ensures Unfold(s) == []
  {
  }

  lemma {:induction false} UnfoldRest(lines: seq<Octets>, rest: Octets)
    requires |lines| > 1 && AllOneLine(lines) && rest == CRLF + FoldedLines(lines[1..])
    ensures |Unfold(rest)| == 2 + |Join(lines[1..])| - 3 * Indented(lines)
    ensures Indented(lines) == 0 ==> Unfold(rest) == CRLF + Join(lines[1..])
    decreases |lines|, 0
  {
    var next := lines[1..];
    FoldedHead(next);
    if lines[1] != [] && White(lines[1][0]) {
      UnfoldLines(next, 1);
      assert rest[3..] == FoldedLines(next)[1..];
    } else {
      UnfoldLines(next, 0);
      assert rest[1..] == [LF] + FoldedLines(next) && rest[1..][1..] == FoldedLines(next)[0..];
      assert Unfold(rest) == [CR] + Unfold(rest[1..]);
      assert Unfold(rest[1..]) == [LF] + Unfold(FoldedLines(next)[0..]);
    }
  }

  lemma FoldedHead(lines: seq<Octets>)
    requires lines != [] && AllOneLine(lines)
    ensures lines[0] != [] ==> FoldedLines(lines) != [] && FoldedLines(lines)[0] == lines[0][0]
    ensures lines[0] == [] ==> FoldedLines(lines) == [] || FoldedLines(lines)[0] == CR
  {
    if lines[0] != [] {
      FoldedStarts(lines[0], FOLD_LIMIT);
    } else {
      assert Folded(lines[0], FOLD_LIMIT) == [];
    }
  }

  // Unfolding gives the input back exactly when no line but the first starts with
  // white space; a missing last CRLF is added.
  lemma UnfoldUndoesFold(src: Octets)
    ensures Unfold(FoldedLines(Split(src))) == (if Ended(src) then src else src + CRLF)
            <==> Indented(Split(src)) == 0
  {
    var lines := Split(src);
    SplitOneLine(src);
    JoinOfSplit(src);
    UnfoldLines(lines, 0);
    assert FoldedLines(lines)[0..] == FoldedLines(lines);
    assert Join(lines)[0..] == Join(lines);
  }
}
