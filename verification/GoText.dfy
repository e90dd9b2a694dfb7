// The string functions the source takes from the Go standard library.
module GoText {

  // unicode.IsSpace
  predicate IsSpace(c: char) {
    || '\t' <= c <= '\r' || c == ' ' || c == '\U{0085}' || c == '\U{00A0}' || c == '\U{1680}'
    || '\U{2000}' <= c <= '\U{200A}' || c == '\U{2028}' || c == '\U{2029}' || c == '\U{202F}' || c == '\U{205F}'
    || c == '\U{3000}'
  }

  // Where the text begins from `i` on.
  function Start(s: string, i: nat): (r: nat)
    requires i <= |s|
    ensures i <= r <= |s| && (r < |s| ==> !IsSpace(s[r]))
    decreases |s| - i
  {
    if i < |s| && IsSpace(s[i]) then Start(s, i + 1) else i
  }

  // Where the text below `i` ends.
  function Stop(s: string, i: nat): (r: nat)
    requires i <= |s|
    ensures r <= i && (0 < r ==> !IsSpace(s[r - 1]))
  {
    if i > 0 && IsSpace(s[i - 1]) then Stop(s, i - 1) else i
  }

  function TrimLeft(s: string): (t: string)
    ensures t != [] ==> !IsSpace(t[0])
    ensures |t| <= |s| && t == s[|s| - |t|..]
  {
    s[Start(s, 0)..]
  }

  function TrimRight(s: string): (t: string)
    ensures t != [] ==> !IsSpace(t[|t| - 1])
    ensures |t| <= |s| && t == s[..|t|]
  {
    s[..Stop(s, |s|)]
  }

  function TrimSpace(s: string): string {
    TrimRight(TrimLeft(s))
  }

  lemma {:induction false} StartIs(s: string, i: nat, k: nat)
    requires i <= |s|
    ensures k == Start(s, i) <==>
              i <= k <= |s| && (forall j :: i <= j < k ==> IsSpace(s[j])) && (k < |s| ==> !IsSpace(s[k]))
    decreases |s| - i
  {
    hide IsSpace;
    if i < |s| && IsSpace(s[i]) {
      StartIs(s, i + 1, k);
    }
  }

  lemma {:induction false} StopIs(s: string, i: nat, k: nat)
    requires i <= |s|
    ensures k == Stop(s, i) <==>
              k <= i && (forall j :: k <= j < i ==> IsSpace(s[j])) && (0 < k ==> !IsSpace(s[k - 1]))
  {
    hide IsSpace;
    if 0 < i && IsSpace(s[i - 1]) {
      StopIs(s, i - 1, k);
    }
  }

  // Space before or after does not matter.
  lemma TrimStart(c: char, s: string)
    requires IsSpace(c)
    ensures TrimLeft([c] + s) == TrimLeft(s) && TrimSpace([c] + s) == TrimSpace(s)
  {
    hide IsSpace;
    var k := Start(s, 0);
    StartIs(s, 0, k);
    StartIs([c] + s, 0, k + 1);
    assert ([c] + s)[k + 1..] == s[k..];
  }

  lemma TrimLeftSnoc(s: string, c: char)
    requires IsSpace(c)
    ensures TrimLeft(s + [c]) == if TrimLeft(s) == "" then "" else TrimLeft(s) + [c]
  {
    hide IsSpace;
    var k := Start(s, 0);
    StartIs(s, 0, k);
    if k < |s| {
      StartIs(s + [c], 0, k);
    } else {
      StartIs(s + [c], 0, |s| + 1);
    }
  }

  lemma TrimRightSnoc(s: string, c: char)
    requires IsSpace(c)
    ensures TrimRight(s + [c]) == TrimRight(s)
  {
    hide IsSpace;
    var k := Stop(s, |s|);
    StopIs(s, |s|, k);
    StopIs(s + [c], |s| + 1, k);
    assert (s + [c])[..k] == s[..k];
  }

  lemma TrimEnd(s: string, c: char)
    requires IsSpace(c)
    ensures TrimSpace(s + [c]) == TrimSpace(s)
  {
    hide TrimLeft, TrimRight, IsSpace;
    TrimLeftSnoc(s, c);
    TrimRightSnoc(TrimLeft(s), c);
  }

  lemma BlankMeans(s: string)
    ensures TrimSpace(s) == "" <==> forall i :: 0 <= i < |s| ==> IsSpace(s[i])
  {
    hide IsSpace;
    StartIs(s, 0, Start(s, 0));
    StartIs(s, 0, |s|);
    var l := TrimLeft(s);
    StopIs(l, |l|, 0);
    assert l != "" ==> !IsSpace(l[0]);
  }

  predicate Trimmed(s: string) {
    s == [] || (!IsSpace(s[0]) && !IsSpace(s[|s| - 1]))
  }

  lemma TrimSpaceTrims(s: string)
    ensures Trimmed(TrimSpace(s)) && TrimSpace(TrimSpace(s)) == TrimSpace(s)
  {
    var l := TrimLeft(s);
    var t := TrimRight(l);
    if t != [] {
      assert t[0] == l[0];
    }
  }

  lemma TrimmedStays(s: string)
    requires Trimmed(s)
    ensures TrimSpace(s) == s
  {
  }

  // strings.ToUpper, on the characters whose upper case is an ASCII letter; the rest
  // stay outside ASCII either way.
  function Upper(c: char): char {
    if 'a' <= c <= 'z' then ((c as int) - 32) as char
    else if c == '\U{0131}' then 'I'
    else if c == '\U{017F}' then 'S'
    else c
  }

  function ToUpper(s: string): string {
    if s == [] then [] else [Upper(s[0])] + ToUpper(s[1..])
  }

}
