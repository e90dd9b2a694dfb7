// Name similarity of duplicate detection: the edit distance over two rows and
// the percentage built on it (internal/merge/normalize.go).
//
// `Distance` is the textbook recursion on prefixes. It is tied to an independent
// reading, the least number of single-character edits, in both directions; the
// two-row loop is then proved to compute it.
module EditDistance {
  import opened Quotients

  function Min3(a: int, b: int, c: int): (m: int)
    ensures m <= a && m <= b && m <= c && (m == a || m == b || m == c)
  {
    var ab := if b < a then b else a;
    if c < ab then c else ab
  }

  function Init(s: string): string
    requires s != []
  {
    s[..|s| - 1]
  }

  function Last(s: string): char
    requires s != []
  {
    s[|s| - 1]
  }

  function Cost(a: char, b: char): nat {
    if a == b then 0 else 1
  }

  function Distance(a: string, b: string): nat
    decreases |a| + |b|
  {
    if a == [] then |b|
    else if b == [] then |a|
    else Min3(Distance(a, Init(b)) + 1, Distance(Init(a), b) + 1,
              Distance(Init(a), Init(b)) + Cost(Last(a), Last(b)))
  }

  /* ---- The reference reading: edit scripts ---- */

  datatype Edit = Insert(at: nat, c: char) | Delete(at: nat) | Replace(at: nat, c: char)

  predicate Fits(s: string, e: Edit) {
    match e
    case Insert(at, _) => at <= |s|
    case Delete(at) => at < |s|
    case Replace(at, _) => at < |s|
  }

  function Perform(s: string, e: Edit): string
    requires Fits(s, e)
  {
    match e
    case Insert(at, c) => s[..at] + [c] + s[at..]
    case Delete(at) => s[..at] + s[at + 1..]
    case Replace(at, c) => s[..at] + [c] + s[at + 1..]
  }

  // Whether `script` is a sequence of edits that turns `a` into `b`.
  predicate Turns(a: string, script: seq<Edit>, b: string)
    decreases |script|
  {
    if script == [] then a == b
    else Fits(a, script[0]) && Turns(Perform(a, script[0]), script[1..], b)
  }

  lemma {:induction false} TurnsThen(a: string, s: seq<Edit>, b: string, t: seq<Edit>, c: string)
    requires Turns(a, s, b) && Turns(b, t, c)
    ensures Turns(a, s + t, c)
    decreases |s|
  {
    if s == [] {
      assert s + t == t;
    } else {
      TurnsThen(Perform(a, s[0]), s[1..], b, t, c);
      assert (s + t)[1..] == s[1..] + t;
    }
  }

  // Edits of a prefix do not see what follows it.
  lemma {:induction false} TurnsUnderSuffix(a: string, s: seq<Edit>, b: string, c: char)
    requires Turns(a, s, b)
    ensures Turns(a + [c], s, b + [c])
    decreases |s|
  {
    if s != [] {
      assert Perform(a + [c], s[0]) == Perform(a, s[0]) + [c];
      TurnsUnderSuffix(Perform(a, s[0]), s[1..], b, c);
    }
  }

  lemma EditAtEnd(s: string, c: char)
    requires s != []
    ensures Perform(Init(s), Insert(|s| - 1, Last(s))) == s
    ensures Perform(s, Delete(|s| - 1)) == Init(s)
    ensures Perform(Init(s) + [c], Replace(|s| - 1, Last(s))) == s
    ensures Init(s) + [Last(s)] == s
  {
  }

  lemma OneEdit(a: string, e: Edit, b: string)
    requires Fits(a, e) && Perform(a, e) == b
    ensures Turns(a, [e], b)
  {
    assert [e][1..] == [];
  }

  // Completeness: some script is exactly as long as the distance.
  lemma {:induction false} ShortestScript(a: string, b: string) returns (script: seq<Edit>)
    ensures Turns(a, script, b) && |script| == Distance(a, b)
    decreases |a| + |b|
  {
    if a == [] && b == [] {
      script := [];
    } else if a == [] || (b != [] && Distance(a, b) == Distance(a, Init(b)) + 1) {
      script := ScriptByInsert(a, b);
    } else if b == [] || Distance(a, b) == Distance(Init(a), b) + 1 {
      var s := ShortestScript(Init(a), b);
      var e := Delete(|a| - 1);
      EditAtEnd(a, Last(a));
      script := [e] + s;
      assert script[1..] == s;
    } else {
      script := ScriptByReplace(a, b);
    }
  }

  lemma {:induction false} ScriptByInsert(a: string, b: string) returns (script: seq<Edit>)
    requires b != []
    ensures Turns(a, script, b) && |script| == Distance(a, Init(b)) + 1
    decreases |a| + |b|, 0
  {
    var s := ShortestScript(a, Init(b));
    var e := Insert(|b| - 1, Last(b));
    EditAtEnd(b, Last(b));
    OneEdit(Init(b), e, b);
    TurnsThen(a, s, Init(b), [e], b);
    script := s + [e];
  }

  lemma {:induction false} ScriptByReplace(a: string, b: string) returns (script: seq<Edit>)
    requires a != [] && b != []
    ensures Turns(a, script, b) && |script| == Distance(Init(a), Init(b)) + Cost(Last(a), Last(b))
    decreases |a| + |b|, 0
  {
    script := ShortestScript(Init(a), Init(b));
    TurnsUnderSuffix(Init(a), script, Init(b), Last(a));
    EditAtEnd(a, Last(a));
    EditAtEnd(b, Last(a));
    var mid := Init(b) + [Last(a)];
    if Last(a) != Last(b) {
      var e := Replace(|b| - 1, Last(b));
      OneEdit(mid, e, b);
      TurnsThen(a, script, mid, [e], b);
      script := script + [e];
    }
  }

  lemma {:induction false} DistanceToSelf(a: string)
    ensures Distance(a, a) == 0
    decreases |a|
  {
    if a != [] {
      DistanceToSelf(Init(a));
    }
  }

  lemma {:induction false} CommonSuffix(a: string, b: string, t: string)
    ensures Distance(a + t, b + t) <= Distance(a, b)
    decreases |t|
  {
    if t == [] {
      assert a + t == a && b + t == b;
    } else {
      CommonSuffix(a, b, Init(t));
      assert Init(a + t) == a + Init(t) && Init(b + t) == b + Init(t);
    }
  }

  predicate Near(a: string, b: string) {
    Distance(a, b) <= 1
  }

  // The three shapes of an edit right after a common prefix.
  lemma NearAtEnd(p: string, c: char, d: char)
    ensures Near(p, p + [c]) && Near(p + [c], p) && Near(p + [c], p + [d])
  {
    DistanceToSelf(p);
    assert Init(p + [c]) == p && Init(p + [d]) == p;
  }

  lemma NearBefore(a: string, b: string, t: string, at: string, bt: string)
    requires Near(a, b) && at == a + t && bt == b + t
    ensures Near(at, bt)
  {
    CommonSuffix(a, b, t);
  }

  lemma OneEditIsNear(s: string, e: Edit)
    requires Fits(s, e)
    ensures Near(s, Perform(s, e))
  {
    var p := s[..e.at];
    match e {
      case Insert(at, c) =>
        NearAtEnd(p, c, c);
        NearBefore(p, p + [c], s[at..], s, Perform(s, e));
      case Delete(at) =>
        NearAtEnd(p, s[at], s[at]);
        NearBefore(p + [s[at]], p, s[at + 1..], s, Perform(s, e));
      case Replace(at, c) =>
        NearAtEnd(p, s[at], c);
        NearBefore(p + [s[at]], p + [c], s[at + 1..], s, Perform(s, e));
    }
  }

  lemma {:induction false} Symmetric(a: string, b: string)
    ensures Distance(a, b) == Distance(b, a)
    decreases |a| + |b|
  {
    if a != [] && b != [] {
      Symmetric(a, Init(b));
      Symmetric(Init(a), b);
      Symmetric(Init(a), Init(b));
    }
  }

  lemma {:induction false} EmptyFirst(a: string, b: string)
    ensures Distance(a, []) == |a| && |b| <= Distance(a, b) + |a|
    decreases |a| + |b|
  {
    if a != [] && b != [] {
      EmptyFirst(a, Init(b));
      EmptyFirst(Init(a), b);
      EmptyFirst(Init(a), Init(b));
    }
  }

  lemma {:induction false} Triangle(a: string, b: string, c: string)
    ensures Distance(a, c) <= Distance(a, b) + Distance(b, c)
    decreases |a| + |b| + |c|
  {
    if a == [] {
      EmptyFirst(b, c);
    } else if c == [] {
      EmptyFirst(b, a);
      Symmetric(a, b);
    } else if b == [] {
      EmptyFirst(a, c);
      AtMostLonger(a, c);
    } else if Distance(a, b) == Distance(Init(a), b) + 1 {
      Triangle(Init(a), b, c);
    } else if Distance(b, c) == Distance(b, Init(c)) + 1 {
      Triangle(a, b, Init(c));
    } else if Distance(a, b) == Distance(a, Init(b)) + 1 {
      if Distance(b, c) == Distance(Init(b), c) + 1 {
        Triangle(a, Init(b), c);
      } else {
        Triangle(a, Init(b), Init(c));
      }
    } else if Distance(b, c) == Distance(Init(b), c) + 1 {
      Triangle(Init(a), Init(b), c);
    } else {
      Triangle(Init(a), Init(b), Init(c));
    }
  }

  lemma {:induction false} AtMostLonger(a: string, b: string)
    ensures Distance(a, b) <= if |a| < |b| then |b| else |a|
    decreases |a| + |b|
  {
    if a != [] && b != [] {
      AtMostLonger(Init(a), Init(b));
    }
  }

  lemma {:induction false} ZeroOnlyOnEqual(a: string, b: string)
    ensures Distance(a, b) == 0 <==> a == b
    decreases |a| + |b|
  {
    if a == b {
      DistanceToSelf(a);
    } else if a != [] && b != [] && Distance(a, b) == 0 {
      ZeroOnlyOnEqual(Init(a), Init(b));
      EditAtEnd(a, Last(b));
      EditAtEnd(b, Last(a));
    }
  }

  // Soundness: no script is shorter than the distance.
  lemma {:induction false} NoShorterScript(a: string, script: seq<Edit>, b: string)
    requires Turns(a, script, b)
    ensures Distance(a, b) <= |script|
    decreases |script|
  {
    if script == [] {
      DistanceToSelf(a);
    } else {
      var next := Perform(a, script[0]);
      OneEditIsNear(a, script[0]);
      NoShorterScript(next, script[1..], b);
      Triangle(a, next, b);
    }
  }

  // The distance is the least number of single-character edits.
  lemma DistanceIsLeastEdits(a: string, b: string)
    ensures exists script :: Turns(a, script, b) && |script| == Distance(a, b)
    ensures forall script :: Turns(a, script, b) ==> Distance(a, b) <= |script|
  {
    var s := ShortestScript(a, b);
    forall script | Turns(a, script, b)
      ensures Distance(a, b) <= |script|
    {
      NoShorterScript(a, script, b);
    }
  }

  /* ---- The two-row loop ---- */

  // One cell of the table: the distance of two prefixes.
  function Cell(a: string, b: string, i: nat, j: nat): nat
    requires i <= |a| && j <= |b|
  {
    Distance(a[..i], b[..j])
  }

  lemma CellStep(a: string, b: string, i: nat, j: nat)
    requires 0 < i <= |a| && 0 < j <= |b|
    ensures Cell(a, b, i, j) == Min3(Cell(a, b, i, j - 1) + 1, Cell(a, b, i - 1, j) + 1,
                                     Cell(a, b, i - 1, j - 1) + Cost(a[i - 1], b[j - 1]))
  {
    assert Init(a[..i]) == a[..i - 1] && Init(b[..j]) == b[..j - 1];
  }

  lemma RowStart(a: string, b: string, i: nat)
    requires i <= |a|
    ensures Cell(a, b, i, 0) == i
  {
    EmptyFirst(a[..i], []);
    assert b[..0] == [];
  }

  method Levenshtein(a: string, b: string) returns (d: nat)
    ensures d == Distance(a, b)
  {
    EmptyFirst(a, b);
    if |a| == 0 {
      return |b|;
    }
    if |b| == 0 {
      return |a|;
    }
    var previous := new int[|b| + 1](j => j);
    var current := new int[|b| + 1](_ => 0);
    forall j | 0 <= j <= |b|
      ensures previous[j] == Cell(a, b, 0, j)
    {
      assert a[..0] == [];
    }
    for i := 1 to |a| + 1
      invariant fresh(previous) && fresh(current) && previous != current
      invariant previous.Length == |b| + 1 && current.Length == |b| + 1
      invariant forall j :: 0 <= j <= |b| ==> previous[j] == Cell(a, b, i - 1, j)
    {
      current[0] := i;
      RowStart(a, b, i);
      for j := 1 to |b| + 1
        invariant forall k :: 0 <= k <= |b| ==> previous[k] == Cell(a, b, i - 1, k)
        invariant forall k :: 0 <= k < j ==> current[k] == Cell(a, b, i, k)
      {
        var cost := 1;
        if a[i - 1] == b[j - 1] {
          cost := 0;
        }
        CellStep(a, b, i, j);
        current[j] := Min3(current[j - 1] + 1, previous[j] + 1, previous[j - 1] + cost);
      }
      previous, current := current, previous;
    }
    assert a[..|a|] == a && b[..|b|] == b;
    d := previous[|b|];
  }

  /* ---- The percentage ---- */

  function Longest(a: string, b: string): nat {
    if |b| > |a| then |b| else |a|
  }

  // Integer division rounds the lost share down, as the source does.
  function SimilarityOf(a: string, b: string): int {
    if a == [] || b == [] then 0
    else if a == b then 100
    else 100 - Distance(a, b) * 100 / Longest(a, b)
  }

  method Similarity(a: string, b: string) returns (ratio: int)
    ensures ratio == SimilarityOf(a, b)
  {
    if a == "" || b == "" {
      return 0;
    }
    if a == b {
      return 100;
    }
    var distance := Levenshtein(a, b);
    var longest := |a|;
    if |b| > longest {
      longest := |b|;
    }
    return 100 - distance * 100 / longest;
  }

  lemma SimilaritySymmetricAndBounded(a: string, b: string)
    ensures SimilarityOf(a, b) == SimilarityOf(b, a)
    ensures 0 <= SimilarityOf(a, b) <= 100
  {
    Symmetric(a, b);
    AtMostLonger(a, b);
    if a != [] && b != [] {
      QuotientBelow(Distance(a, b) * 100, Longest(a, b), 101);
    }
  }

  // 100 does not mean equal: it means non-empty and closer than one percent of
  // the longer name, which any single edit is once a name passes 100 characters.
  lemma FullScoreExactly(a: string, b: string)
    ensures SimilarityOf(a, b) == 100 <==> a != [] && b != [] && Distance(a, b) * 100 < Longest(a, b)
  {
    DistanceToSelf(a);
    if a != [] && b != [] {
      QuotientBelow(Distance(a, b) * 100, Longest(a, b), 1);
    }
  }

  // Up to 100 characters the documented meaning, an exact match, does hold.
  lemma FullScoreMeansEqualWhenShort(a: string, b: string)
    requires a != [] && b != [] && Longest(a, b) <= 100
    ensures SimilarityOf(a, b) == 100 <==> a == b
  {
    FullScoreExactly(a, b);
    ZeroOnlyOnEqual(a, b);
  }

  // Two names of 101 characters that differ in the first one only.
  lemma FullScoreOnUnequalNames(tail: string)
    requires |tail| >= 100
    ensures ['a'] + tail != ['b'] + tail && SimilarityOf(['a'] + tail, ['b'] + tail) == 100
  {
    var a, b := ['a'] + tail, ['b'] + tail;
    assert a[0] != b[0];
    var e := Replace(0, 'b');
    assert Perform(a, e) == b;
    OneEditIsNear(a, e);
    FullScoreExactly(a, b);
  }
}
