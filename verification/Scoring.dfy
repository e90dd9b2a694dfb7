// What two records score, and the bucket keys that decide whether they are
// scored at all (internal/merge/score.go and internal/merge/fingerprint.go).
module Scoring {
  import opened Ordering
  import opened EditDistance
  import opened Quotients

  datatype Kind = KindContact | KindEvent | KindTodo | KindNote

  // Start is an instant in nanoseconds, absent for the zero time.
  datatype Option<T> = None | Some(value: T)

  datatype Fingerprint = Fingerprint(
    kind: Kind, uid: string, name: string, emails: seq<string>, phones: seq<string>,
    birthday: string, start: Option<int>)

  // The bucket keys keep the prefix that separates them in the source as the
  // constructor; StartKey is the whole second RFC 3339 prints.
  datatype BucketKey = UidKey(uid: string) | EmailKey(email: string) | PhoneKey(phone: string)
                     | NameKey(prefix: string) | StartKey(second: int)

  const WeightEmail := 60
  const WeightPhone := 60
  const WeightUid := 60
  const WeightName := 30
  const WeightNameClose := 20
  const WeightNameLoose := 10
  const WeightBirthday := 20
  const WeightStartSummary := 60
  const SimilarityClose := 90
  const SimilarityLoose := 80
  const DefaultThreshold := 60

  datatype Scored = Scored(points: nat, signals: set<string>)

  predicate Empty(f: Fingerprint) {
    f.uid == "" && f.name == "" && f.emails == [] && f.phones == [] && f.start == None
  }

  ghost predicate Shares(a: seq<string>, b: seq<string>) {
    exists x :: x in a && x in b && x != ""
  }

  method SharesAny(a: seq<string>, b: seq<string>) returns (yes: bool)
    ensures yes <==> Shares(a, b)
  {
    if |a| == 0 || |b| == 0 {
      return false;
    }
    for i := 0 to |a|
      invariant forall x :: x in a[..i] && x in b ==> x == ""
    {
      for j := 0 to |b|
        invariant forall x :: x in a[..i] && x in b ==> x == ""
        invariant a[i] in b[..j] ==> a[i] == ""
      {
        if a[i] != "" && a[i] == b[j] {
          assert a[i] in a && a[i] in b;
          return true;
        }
      }
    }
    assert a[..|a|] == a;
    return false;
  }

  predicate HasSuffix(s: string, t: string) {
    |t| <= |s| && s[|s| - |t|..] == t
  }

  predicate BirthdayMatch(a: string, b: string) {
    if |a| < 4 || |b| < 4 then false
    else if a == b then true
    else if |a| > |b| then HasSuffix(a, b)
    else HasSuffix(b, a)
  }

  function NameWeight(a: string, b: string): (w: nat)
    ensures w <= WeightName
  {
    if a == "" || b == "" then 0
    else
      var ratio := SimilarityOf(a, b);
      if ratio >= 100 then WeightName
      else if ratio >= SimilarityClose then WeightNameClose
      else if ratio >= SimilarityLoose then WeightNameLoose
      else 0
  }

  ghost function ContactScore(a: Fingerprint, b: Fingerprint): Scored {
    var uid := a.uid != "" && a.uid == b.uid;
    var email := Shares(a.emails, b.emails);
    var phone := Shares(a.phones, b.phones);
    var weight := NameWeight(a.name, b.name);
    var points := (if uid then WeightUid else 0) + (if email then WeightEmail else 0)
                  + (if phone then WeightPhone else 0) + weight;
    var birthday := points > 0 && BirthdayMatch(a.birthday, b.birthday);
    Scored(points + (if birthday then WeightBirthday else 0),
           (if uid then {"uid"} else {}) + (if email then {"address"} else {}) + (if phone then {"phone"} else {})
           + (if weight > 0 then {"name"} else {}) + (if birthday then {"birthday"} else {}))
  }

  function EventScore(a: Fingerprint, b: Fingerprint): Scored {
    if a.uid != "" && a.uid == b.uid then Scored(WeightUid, {"uid"})
    else if a.start != None && a.start == b.start && a.name != "" && a.name == b.name then
      Scored(WeightStartSummary, {"start", "name"})
    else Scored(0, {})
  }

  ghost function ScoreOf(a: Fingerprint, b: Fingerprint): Scored {
    if a.kind != b.kind || Empty(a) || Empty(b) then Scored(0, {})
    else if a.kind == KindEvent then EventScore(a, b)
    else ContactScore(a, b)
  }

  method Score(a: Fingerprint, b: Fingerprint) returns (points: nat, signals: set<string>)
    ensures ScoreOf(a, b) == Scored(points, signals)
  {
    if a.kind != b.kind || Empty(a) || Empty(b) {
      return 0, {};
    }
    if a.kind == KindEvent {
      var scored := EventScore(a, b);
      return scored.points, scored.signals;
    }
    points, signals := ScoreContact(a, b);
  }

  method ScoreContact(a: Fingerprint, b: Fingerprint) returns (points: nat, signals: set<string>)
    ensures ContactScore(a, b) == Scored(points, signals)
  {
    points, signals := 0, {};
    if a.uid != "" && a.uid == b.uid {
      points := points + WeightUid;
      signals := signals + {"uid"};
    }
    var email := SharesAny(a.emails, b.emails);
    if email {
      points := points + WeightEmail;
      signals := signals + {"address"};
    }
    var phone := SharesAny(a.phones, b.phones);
    if phone {
      points := points + WeightPhone;
      signals := signals + {"phone"};
    }
    var weight := NameWeight(a.name, b.name);
    if weight > 0 {
      points := points + weight;
      signals := signals + {"name"};
    }
    // Nothing scores on the day alone.
    if points > 0 && BirthdayMatch(a.birthday, b.birthday) {
      points := points + WeightBirthday;
      signals := signals + {"birthday"};
    }
  }

  // Which of the two records comes first makes no difference.
  lemma ScoreSymmetric(a: Fingerprint, b: Fingerprint)
    ensures ScoreOf(a, b) == ScoreOf(b, a)
  {
    SimilaritySymmetricAndBounded(a.name, b.name);
    assert Shares(a.emails, b.emails) <==> Shares(b.emails, a.emails);
    assert Shares(a.phones, b.phones) <==> Shares(b.phones, a.phones);
    assert BirthdayMatch(a.birthday, b.birthday) <==> BirthdayMatch(b.birthday, a.birthday);
  }

  /* ---- What it takes to score ---- */

  // Only records of one kind that hold anything are compared.
  predicate Comparable(a: Fingerprint, b: Fingerprint) {
    a.kind == b.kind && HoldsSomething(a) && HoldsSomething(b)
  }

  predicate HoldsSomething(f: Fingerprint) {
    f.uid != "" || f.name != "" || f.emails != [] || f.phones != [] || f.start.Some?
  }

  predicate SameUid(a: Fingerprint, b: Fingerprint) {
    a.uid == b.uid && a.uid != ""
  }

  predicate SameMoment(a: Fingerprint, b: Fingerprint) {
    a.start.Some? && b.start.Some? && a.start.value == b.start.value
  }

  predicate SameTitle(a: Fingerprint, b: Fingerprint) {
    a.name == b.name && a.name != ""
  }

  // One day, written with or without its year: the longer text ends with the shorter.
  predicate SameDay(a: string, b: string) {
    |a| >= 4 && |b| >= 4 && (if |a| <= |b| then b[|b| - |a|..] == a else a[|a| - |b|..] == b)
  }

  // What names are worth, by the number of edits between them: under one in a hundred
  // letters, under eleven, under twenty-one.
  function NamePoints(a: string, b: string): nat {
    var edits := Distance(a, b);
    if a == "" || b == "" then 0
    else if 100 * edits < Longest(a, b) then 30
    else if 100 * edits < 11 * Longest(a, b) then 20
    else if 100 * edits < 21 * Longest(a, b) then 10
    else 0
  }

  lemma NameWeightMeans(a: string, b: string)
    ensures NameWeight(a, b) == NamePoints(a, b)
  {
    if a != "" && b != "" {
      DistanceToSelf(a);
      var scaled, longest := Distance(a, b) * 100, Longest(a, b);
      QuotientBelow(scaled, longest, 1);
      QuotientBelow(scaled, longest, 11);
      QuotientBelow(scaled, longest, 21);
    }
  }

  // They have one thing in common that identifies: a UID; for events, the moment together
  // with the title; for everything else, an address or a number.
  ghost predicate Identified(a: Fingerprint, b: Fingerprint) {
    || SameUid(a, b)
    || (a.kind == KindEvent && SameMoment(a, b) && SameTitle(a, b))
    || (a.kind != KindEvent && exists x :: x in a.emails && x in b.emails && x != "")
    || (a.kind != KindEvent && exists x :: x in a.phones && x in b.phones && x != "")
  }

  // A pair reaches the default threshold exactly when it is identified. A name and a day
  // are not enough.
  lemma ReachesDefaultExactly(a: Fingerprint, b: Fingerprint)
    ensures ScoreOf(a, b).points >= 60 <==> Comparable(a, b) && Identified(a, b)
  {
  }

  // Each signal is there exactly when its evidence is.
  lemma SignalsExactly(a: Fingerprint, b: Fingerprint)
    ensures var s := ScoreOf(a, b).signals; var event := a.kind == KindEvent;
            && ("uid" in s <==> Comparable(a, b) && SameUid(a, b))
            && ("start" in s <==> Comparable(a, b) && event && !SameUid(a, b) && SameMoment(a, b) && SameTitle(a, b))
            && ("address" in s <==> Comparable(a, b) && !event && exists x :: x in a.emails && x in b.emails && x != "")
            && ("phone" in s <==> Comparable(a, b) && !event && exists x :: x in a.phones && x in b.phones && x != "")
            && ("name" in s <==> if event then "start" in s else Comparable(a, b) && NamePoints(a.name, b.name) > 0)
            && ("birthday" in s <==> !event && SameDay(a.birthday, b.birthday) && s - {"birthday"} != {})
            && s <= {"uid", "start", "address", "phone", "name", "birthday"}
  {
    hide NameWeight, NamePoints;
    NameWeightMeans(a.name, b.name);
    DayMeans(a.birthday, b.birthday);
    hide BirthdayMatch, SameDay, Shares;
    assert Shares(a.emails, b.emails) <==> exists x :: x in a.emails && x in b.emails && x != "" by { SharesMeans(a.emails, b.emails); }
    assert Shares(a.phones, b.phones) <==> exists x :: x in a.phones && x in b.phones && x != "" by { SharesMeans(a.phones, b.phones); }
  }

  lemma SharesMeans(a: seq<string>, b: seq<string>)
    ensures Shares(a, b) <==> exists x :: x in a && x in b && x != ""
  {
  }

  lemma DayMeans(a: string, b: string)
    ensures BirthdayMatch(a, b) <==> SameDay(a, b)
  {
  }

  // And the points are those of the signals: sixty for each that identifies, what the
  // names are worth, and twenty for the day.
  lemma PointsOfSignals(a: Fingerprint, b: Fingerprint)
    ensures var s := ScoreOf(a, b).signals;
            ScoreOf(a, b).points ==
            if a.kind == KindEvent then (if s == {} then 0 else 60)
            else (if "uid" in s then 60 else 0) + (if "address" in s then 60 else 0) + (if "phone" in s then 60 else 0)
                 + (if "name" in s then NamePoints(a.name, b.name) else 0) + (if "birthday" in s then 20 else 0)
  {
    hide NameWeight, NamePoints, Shares, BirthdayMatch;
    NameWeightMeans(a.name, b.name);
  }

  /* ---- Buckets ---- */

  const NamePrefixLen := 4

  function WithoutSpaces(s: string): string {
    if s == "" then "" else (if s[0] == ' ' then "" else [s[0]]) + WithoutSpaces(s[1..])
  }

  function NamePrefix(name: string): string {
    var letters := WithoutSpaces(name);
    if |letters| <= NamePrefixLen then letters else letters[..NamePrefixLen]
  }

  lemma {:induction false} WithoutSpacesSplit(s: string, t: string)
    ensures WithoutSpaces(s + t) == WithoutSpaces(s) + WithoutSpaces(t)
  {
    if s == "" {
      assert s + t == t;
    } else {
      var head := if s[0] == ' ' then "" else [s[0]];
      assert (s + t)[1..] == s[1..] + t && (s + t)[0] == s[0];
      calc {
        WithoutSpaces(s + t);
        head + WithoutSpaces(s[1..] + t);
        { WithoutSpacesSplit(s[1..], t); }
        head + (WithoutSpaces(s[1..]) + WithoutSpaces(t));
        (head + WithoutSpaces(s[1..])) + WithoutSpaces(t);
        WithoutSpaces(s) + WithoutSpaces(t);
      }
    }
  }

  method TakeNamePrefix(name: string) returns (letters: string)
    ensures letters == NamePrefix(name)
  {
    letters := "";
    for i := 0 to |name|
      invariant letters == WithoutSpaces(name[..i]) && |letters| < NamePrefixLen
    {
      WithoutSpacesSplit(name[..i], [name[i]]);
      assert name[..i + 1] == name[..i] + [name[i]];
      if name[i] != ' ' {
        letters := letters + [name[i]];
        if |letters| == NamePrefixLen {
          WithoutSpacesSplit(name[..i + 1], name[i + 1..]);
          assert name == name[..i + 1] + name[i + 1..];
          return;
        }
      }
    }
    assert name[..|name|] == name;
  }

  function SecondOf(instant: int): int {
    instant / 1_000_000_000
  }

  function Prefixed(keys: seq<string>, wrap: string -> BucketKey): (r: seq<BucketKey>)
    ensures |r| == |keys| && forall k :: 0 <= k < |r| ==> r[k] == wrap(keys[k])
  {
    seq(|keys|, k requires 0 <= k < |keys| => wrap(keys[k]))
  }

  function BucketsOf(f: Fingerprint): seq<BucketKey> {
    (if f.uid != "" then [UidKey(f.uid)] else [])
    + Prefixed(f.emails, e => EmailKey(e))
    + Prefixed(f.phones, p => PhoneKey(p))
    + (if NamePrefix(f.name) != "" then [NameKey(NamePrefix(f.name))] else [])
    + (if f.start != None then [StartKey(SecondOf(f.start.value))] else [])
  }

  method Buckets(f: Fingerprint) returns (keys: seq<BucketKey>)
    ensures keys == BucketsOf(f)
  {
    hide NamePrefix, SecondOf, Prefixed;
    keys := [];
    if f.uid != "" {
      keys := keys + [UidKey(f.uid)];
    }
    keys := AddEmails(keys, f.emails);
    keys := AddPhones(keys, f.phones);
    var prefix := TakeNamePrefix(f.name);
    if prefix != "" {
      keys := keys + [NameKey(prefix)];
    }
    if f.start != None {
      keys := keys + [StartKey(SecondOf(f.start.value))];
    }
  }

  method AddEmails(keys0: seq<BucketKey>, emails: seq<string>) returns (keys: seq<BucketKey>)
    ensures keys == keys0 + Prefixed(emails, e => EmailKey(e))
  {
    keys := keys0;
    for k := 0 to |emails|
      invariant keys == keys0 + Prefixed(emails, e => EmailKey(e))[..k]
    {
      keys := keys + [EmailKey(emails[k])];
    }
  }

  method AddPhones(keys0: seq<BucketKey>, phones: seq<string>) returns (keys: seq<BucketKey>)
    ensures keys == keys0 + Prefixed(phones, p => PhoneKey(p))
  {
    keys := keys0;
    for k := 0 to |phones|
      invariant keys == keys0 + Prefixed(phones, p => PhoneKey(p))[..k]
    {
      keys := keys + [PhoneKey(phones[k])];
    }
  }

  // What a record is filed under, key by key; a start by the second it falls in.
  lemma BucketsExactly(f: Fingerprint, key: BucketKey)
    ensures key in BucketsOf(f) <==>
            match key
            case UidKey(uid) => uid == f.uid && uid != ""
            case EmailKey(email) => email in f.emails
            case PhoneKey(phone) => phone in f.phones
            case NameKey(prefix) => prefix == NamePrefix(f.name) && prefix != ""
            case StartKey(t) => f.start.Some? && t * 1_000_000_000 <= f.start.value < (t + 1) * 1_000_000_000
  {
    hide NamePrefix;
    var emails, phones := Prefixed(f.emails, e => EmailKey(e)), Prefixed(f.phones, p => PhoneKey(p));
    if key.EmailKey? && key.email in f.emails {
      var k :| 0 <= k < |f.emails| && f.emails[k] == key.email;
      assert emails[k] == key;
    }
    if key.PhoneKey? && key.phone in f.phones {
      var k :| 0 <= k < |f.phones| && f.phones[k] == key.phone;
      assert phones[k] == key;
    }
    assert key in BucketsOf(f) <==>
      || (f.uid != "" && key == UidKey(f.uid)) || key in emails || key in phones
      || (NamePrefix(f.name) != "" && key == NameKey(NamePrefix(f.name)))
      || (f.start.Some? && key == StartKey(SecondOf(f.start.value)));
  }

  // The prefix of a name: its letters, read from the left, until there are four.
  lemma NamePrefixMeans(name: string)
    ensures exists n :: 0 <= n <= |name| && Lettered(name[..n], NamePrefix(name)) && (n == |name| || |NamePrefix(name)| == 4)
    ensures |NamePrefix(name)| <= 4
  {
    var n := PrefixEnd(name);
  }

  // The same characters in the same order, the spaces left out.
  ghost predicate Lettered(s: string, letters: string) {
    if s == "" then letters == ""
    else if s[|s| - 1] == ' ' then Lettered(s[..|s| - 1], letters)
    else letters != "" && letters[|letters| - 1] == s[|s| - 1] && Lettered(s[..|s| - 1], letters[..|letters| - 1])
  }

  lemma {:induction false} LetteredAre(s: string)
    ensures Lettered(s, WithoutSpaces(s))
  {
    if s != "" {
      var init, last := s[..|s| - 1], s[|s| - 1];
      LetteredAre(init);
      assert s == init + [last];
      WithoutSpacesSplit(init, [last]);
      assert [last][1..] == "" && WithoutSpaces([last]) == if last == ' ' then "" else [last];
      var letters := WithoutSpaces(s);
      if last == ' ' {
        assert letters == WithoutSpaces(init);
      } else {
        assert letters[..|letters| - 1] == WithoutSpaces(init);
      }
    }
  }

  lemma {:induction false} PrefixEnd(name: string) returns (n: nat)
    ensures n <= |name| && Lettered(name[..n], NamePrefix(name)) && (n == |name| || |NamePrefix(name)| == 4)
  {
    if |WithoutSpaces(name)| <= 4 {
      n := |name|;
      assert name[..n] == name;
      LetteredAre(name);
    } else {
      var init, last := name[..|name| - 1], name[|name| - 1];
      assert name == init + [last];
      WithoutSpacesSplit(init, [last]);
      assert [last][1..] == "" && |WithoutSpaces([last])| <= 1;
      assert NamePrefix(name) == NamePrefix(init);
      n := PrefixEnd(init);
      assert init[..n] == name[..n];
      if n == |init| {
        assert |NamePrefix(init)| == 4;
      }
    }
  }

  ghost predicate SharesBucket(a: Fingerprint, b: Fingerprint) {
    exists key :: key in BucketsOf(a) && key in BucketsOf(b)
  }

  // What FingerprintContact builds: no address and no number twice.
  ghost predicate WellFormed(f: Fingerprint) {
    Distinct(f.emails) && Distinct(f.phones)
  }

  lemma BucketsDistinct(f: Fingerprint)
    requires WellFormed(f)
    ensures Distinct(BucketsOf(f))
  {
    hide NamePrefix, SecondOf;
    var keys := BucketsOf(f);
    var u := if f.uid != "" then 1 else 0;
    forall i, j | 0 <= i < j < |keys|
      ensures keys[i] != keys[j]
    {
      if keys[i].EmailKey? && keys[j].EmailKey? {
        assert keys[i] == EmailKey(f.emails[i - u]) && keys[j] == EmailKey(f.emails[j - u]);
      } else if keys[i].PhoneKey? && keys[j].PhoneKey? {
        var v := u + |f.emails|;
        assert keys[i] == PhoneKey(f.phones[i - v]) && keys[j] == PhoneKey(f.phones[j - v]);
      }
    }
  }

  lemma SharedValueSharesBucket(a: Fingerprint, b: Fingerprint)
    ensures a.uid != "" && a.uid == b.uid ==> SharesBucket(a, b)
    ensures Shares(a.emails, b.emails) ==> SharesBucket(a, b)
    ensures Shares(a.phones, b.phones) ==> SharesBucket(a, b)
    ensures a.start != None && a.start == b.start ==> SharesBucket(a, b)
  {
    if a.uid != "" && a.uid == b.uid {
      assert UidKey(a.uid) in BucketsOf(a) && UidKey(a.uid) in BucketsOf(b);
    }
    if Shares(a.emails, b.emails) {
      var x :| x in a.emails && x in b.emails && x != "";
      EmailInBuckets(a, x);
      EmailInBuckets(b, x);
    }
    if Shares(a.phones, b.phones) {
      var x :| x in a.phones && x in b.phones && x != "";
      PhoneInBuckets(a, x);
      PhoneInBuckets(b, x);
    }
    if a.start != None && a.start == b.start {
      var key := StartKey(SecondOf(a.start.value));
      assert key in BucketsOf(a) && key in BucketsOf(b);
    }
  }

  lemma EmailInBuckets(f: Fingerprint, x: string)
    requires x in f.emails
    ensures EmailKey(x) in BucketsOf(f)
  {
    var k :| 0 <= k < |f.emails| && f.emails[k] == x;
    var keys := Prefixed(f.emails, e => EmailKey(e));
    assert keys[k] == EmailKey(x);
    assert EmailKey(x) in keys;
  }

  lemma PhoneInBuckets(f: Fingerprint, x: string)
    requires x in f.phones
    ensures PhoneKey(x) in BucketsOf(f)
  {
    var k :| 0 <= k < |f.phones| && f.phones[k] == x;
    var keys := Prefixed(f.phones, p => PhoneKey(p));
    assert keys[k] == PhoneKey(x);
    assert PhoneKey(x) in keys;
  }

  // A name and a birthday together stop at 50 points, so a pair above that has
  // something in common that is itself a bucket.
  lemma AboveFiftySharesBucket(a: Fingerprint, b: Fingerprint)
    requires ScoreOf(a, b).points > 50
    ensures SharesBucket(a, b)
  {
    SharedValueSharesBucket(a, b);
  }

  // Two 101-letter names that differ in the first letter score as equal
  // (EditDistance.FullScoreOnUnequalNames), and share a birthday: 50 points and
  // no bucket in common.
  lemma MissedAtFifty() returns (a: Fingerprint, b: Fingerprint)
    ensures WellFormed(a) && WellFormed(b)
    ensures ScoreOf(a, b).points == 50 && !SharesBucket(a, b)
  {
    var tail := seq(100, _ => 'x');
    var left, right := ['a'] + tail, ['b'] + tail;
    a := Fingerprint(KindContact, "", left, [], [], "0510", None);
    b := Fingerprint(KindContact, "", right, [], [], "0510", None);
    NearNamesScoreFifty(a, b, tail);
    hide ScoreOf;
    PrefixStarts(left);
    PrefixStarts(right);
    OnlyNameBucket(a);
    OnlyNameBucket(b);
    hide BucketsOf, NamePrefix;
  }

  lemma NearNamesScoreFifty(a: Fingerprint, b: Fingerprint, tail: string)
    requires |tail| >= 100
    requires a == Fingerprint(KindContact, "", ['a'] + tail, [], [], "0510", None)
    requires b == Fingerprint(KindContact, "", ['b'] + tail, [], [], "0510", None)
    ensures ScoreOf(a, b).points == 50
  {
    FullScoreOnUnequalNames(tail);
    hide SimilarityOf;
  }

  lemma OnlyNameBucket(f: Fingerprint)
    requires f.uid == "" && f.emails == [] && f.phones == [] && f.start == None && NamePrefix(f.name) != ""
    ensures BucketsOf(f) == [NameKey(NamePrefix(f.name))]
  {
    hide NamePrefix;
  }

  lemma PrefixStarts(name: string)
    requires name != "" && name[0] != ' '
    ensures NamePrefix(name) != "" && NamePrefix(name)[0] == name[0]
  {
  }

  // Scoring only within buckets misses no pair exactly when the threshold is
  // above 50.
  lemma BucketsLoseNothingExactly(threshold: int)
    ensures (forall a, b :: ScoreOf(a, b).points >= threshold ==> SharesBucket(a, b)) <==> threshold > 50
  {
    if threshold > 50 {
      forall a, b | ScoreOf(a, b).points >= threshold
        ensures SharesBucket(a, b)
      {
        AboveFiftySharesBucket(a, b);
      }
    } else {
      var a, b := MissedAtFifty();
    }
  }
}
