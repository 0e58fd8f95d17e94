/**
 How head violations are matched against base violations: exact identities
 first, then the same place on the page with occurrence indexes dropped. This
 module gives the closed form of that two-phase greedy matching and proves what
 it comes to, class by class and in total.
 */
module A11yMatch {
  import opened Prelude

  const BAR := '|'

  /** A number by the text it prints as, which tells numbers apart and has no bar in it. */
  type NumberText = s: string | BAR !in s witness ""

  datatype AuditKey = AuditKey(point: NumberText, width: NumberText, theme: string)

  /** The exact identity of a violation on an element. */
  datatype Identity = Identity(audit: AuditKey, rule: string, path: Option<string>, target: string)

  /** What two violations must share to excuse one another: the place, or the very element when it has no place. */
  datatype Class =
    | AtPlace(audit: AuditKey, rule: string, place: string)
    | AtElement(identity: Identity)

  predicate IsDigit(c: char) {
    '0' <= c <= '9'
  }

  /** The length of an occurrence index `[digits]` opening `s` that ends a path segment; 0 when there is none. */
  function IndexLength(s: string): (n: nat)
    ensures n <= |s|
  {
    if |s| < 3 || s[0] != '[' then 0
    else
      var k := 1 + DigitsFrom(s[1..]);
      if 1 < k < |s| && s[k] == ']' && (k + 1 == |s| || s[k + 1] == '/') then k + 1 else 0
  }

  function DigitsFrom(s: string): (n: nat)
    ensures n <= |s|
  {
    if s == "" || !IsDigit(s[0]) then 0 else 1 + DigitsFrom(s[1..])
  }

  /** A path without the `[digits]` that end its segments. */
  function LoosePath(path: string): string {
    if path == "" then ""
    else
      var n := IndexLength(path);
      if n > 0 then LoosePath(path[n..]) else [path[0]] + LoosePath(path[1..])
  }

  predicate AllDigits(s: string) {
    forall i :: 0 <= i < |s| ==> IsDigit(s[i])
  }

  predicate IsIndex(s: string) {
    |s| >= 3 && s[0] == '[' && s[|s| - 1] == ']' && AllDigits(s[1..|s| - 1])
  }

  lemma {:induction false} DigitsBeforeSlash(s: string, rest: string)
    ensures DigitsFrom(s + "/" + rest) == DigitsFrom(s)
  {
    if s != "" {
      assert (s + "/" + rest)[1..] == s[1..] + "/" + rest;
      DigitsBeforeSlash(s[1..], rest);
    }
  }

  lemma {:induction false} DigitsAreDigits(s: string)
    ensures AllDigits(s[..DigitsFrom(s)])
    ensures DigitsFrom(s) < |s| ==> !IsDigit(s[DigitsFrom(s)])
  {
    if s != "" && IsDigit(s[0]) {
      DigitsAreDigits(s[1..]);
      var n := DigitsFrom(s[1..]);
      assert s[..n + 1] == [s[0]] + s[1..][..n];
    }
  }

  lemma {:induction false} IndexBeforeSlash(s: string, rest: string)
    requires s != ""
    ensures IndexLength(s + "/" + rest) == IndexLength(s)
  {
    var all := s + "/" + rest;
    assert all[1..] == s[1..] + "/" + rest;
    DigitsBeforeSlash(s[1..], rest);
    if s[0] == '[' {
      var k := 1 + DigitsFrom(s[1..]);
      assert k == |s| ==> all[k] == '/';
      assert |s| == 2 && k == 1 ==> IndexLength(all) == 0;
    }
  }

  /** A path's segments lose their indexes each on its own. */
  lemma {:induction false} SegmentsAreApart(segment: string, rest: string)
    ensures LoosePath(segment + "/" + rest) == LoosePath(segment) + "/" + LoosePath(rest)
    decreases |segment|
  {
    var all := segment + "/" + rest;
    if segment == "" {
      assert all[1..] == rest;
    } else {
      IndexBeforeSlash(segment, rest);
      var n := IndexLength(segment);
      if n > 0 {
        assert all[n..] == segment[n..] + "/" + rest;
        SegmentsAreApart(segment[n..], rest);
      } else {
        assert all[1..] == segment[1..] + "/" + rest;
        SegmentsAreApart(segment[1..], rest);
      }
    }
  }

  lemma {:induction false} IndexIsWhole(s: string)
    requires '/' !in s
    ensures IndexLength(s) == if IsIndex(s) then |s| else 0
  {
    if |s| >= 3 && s[0] == '[' {
      DigitsAreDigits(s[1..]);
      var d := DigitsFrom(s[1..]);
      assert s[1..][..d] == s[1..1 + d];
      if IsIndex(s) {
        assert forall i :: 0 <= i < |s| - 2 ==> s[1..][i] == s[1..|s| - 1][i];
        assert d == |s| - 2;
      }
    }
  }

  lemma {:induction false} IndexIsNoTail(stem: string, index: string)
    requires stem != "" && IsIndex(index)
    ensures !IsIndex(stem + index)
  {
    var all := stem + index;
    assert all[1..|all| - 1][|stem| - 1] == all[|stem|] == index[0] && !IsDigit('[');
  }

  /** A segment loses the `[digits]` it ends with, and no other part of it. */
  lemma {:induction false} SegmentLosesItsIndex(stem: string, index: string)
    requires '/' !in stem + index && IsIndex(index)
    ensures LoosePath(stem + index) == stem
    decreases |stem|
  {
    var all := stem + index;
    IndexIsWhole(all);
    if stem == "" {
      assert all == index && all[|all|..] == "";
    } else {
      IndexIsNoTail(stem, index);
      assert all[1..] == stem[1..] + index && [stem[0]] + stem[1..] == stem;
      hide IsIndex;
      SegmentLosesItsIndex(stem[1..], index);
    }
  }

  lemma {:induction false} SegmentWithoutIndexStays(segment: string)
    requires '/' !in segment && forall k :: 0 <= k < |segment| ==> !IsIndex(segment[k..])
    ensures LoosePath(segment) == segment
  {
    if segment != "" {
      IndexIsWhole(segment);
      assert segment[0..] == segment;
      forall k | 0 <= k < |segment| - 1 ensures !IsIndex(segment[1..][k..]) {
        assert segment[1..][k..] == segment[k + 1..];
      }
      SegmentWithoutIndexStays(segment[1..]);
    }
  }

  function ClassOf(id: Identity): Class {
    if id.path.Some? then AtPlace(id.audit, id.rule, LoosePath(id.path.value)) else AtElement(id)
  }

  // ------------------------------------------------------------- closed forms

  /** How many of `s` fall in a class. */
  function CountIn(s: seq<Identity>, c: Class): nat {
    if s == [] then 0 else CountIn(s[..|s| - 1], c) + if ClassOf(s[|s| - 1]) == c then 1 else 0
  }

  /** First phase: the head's violation finds an exact counterpart not yet used up by an earlier one. */
  predicate Hit(head: seq<Identity>, base: seq<Identity>, i: nat)
    requires i < |head|
  {
    multiset(head[..i])[head[i]] < multiset(base)[head[i]]
  }

  function HitsIn(head: seq<Identity>, base: seq<Identity>, n: nat, c: Class): nat
    requires n <= |head|
  {
    if n == 0 then 0 else HitsIn(head, base, n - 1, c) + if ClassOf(head[n - 1]) == c && Hit(head, base, n - 1) then 1
    else 0
  }

  function MissesIn(head: seq<Identity>, base: seq<Identity>, n: nat, c: Class): nat
    requires n <= |head|
  {
    if n == 0 then 0
    else MissesIn(head, base, n - 1, c) + if ClassOf(head[n - 1]) == c && !Hit(head, base, n - 1) then 1 else 0
  }

  /** What the first phase leaves in the base for the second to match by place. */
  function LeftOver(head: seq<Identity>, base: seq<Identity>, c: Class): int {
    CountIn(base, c) - HitsIn(head, base, |head|, c)
  }

  /** Second phase: a violation with no exact counterpart left finds one at its place. */
  predicate SecondHit(head: seq<Identity>, base: seq<Identity>, i: nat)
    requires i < |head|
  {
    var c := ClassOf(head[i]);
    !Hit(head, base, i) && c.AtPlace? && MissesIn(head, base, i, c) < LeftOver(head, base, c)
  }

  predicate Excused(head: seq<Identity>, base: seq<Identity>, i: nat)
    requires i < |head|
  {
    Hit(head, base, i) || SecondHit(head, base, i)
  }

  function ExcusedIn(head: seq<Identity>, base: seq<Identity>, n: nat, c: Class): nat
    requires n <= |head|
  {
    if n == 0 then 0
    else ExcusedIn(head, base, n - 1, c) + if ClassOf(head[n - 1]) == c && Excused(head, base, n - 1) then 1 else 0
  }

  ghost function ExcusedSet(head: seq<Identity>, base: seq<Identity>): set<nat> {
    set i: nat | i < |head| && Excused(head, base, i)
  }

  // --------------------------------------------------------- counting in classes

  lemma {:induction false} CountAppend(s: seq<Identity>, t: seq<Identity>, c: Class)
    ensures CountIn(s + t, c) == CountIn(s, c) + CountIn(t, c)
    decreases |t|
  {
    if t == [] {
      assert s + t == s;
    } else {
      assert (s + t)[..|s + t| - 1] == s + t[..|t| - 1];
      CountAppend(s, t[..|t| - 1], c);
    }
  }

  lemma {:induction false} CountSnoc(s: seq<Identity>, id: Identity, c: Class)
    ensures CountIn(s + [id], c) == CountIn(s, c) + if ClassOf(id) == c then 1 else 0
  {
    assert (s + [id])[..|s|] == s;
  }

  lemma {:induction false} CountRemove(t: seq<Identity>, k: nat, c: Class)
    requires k < |t|
    ensures CountIn(t, c) == CountIn(t[..k] + t[k + 1..], c) + if ClassOf(t[k]) == c then 1 else 0
    ensures multiset(t) == multiset(t[..k] + t[k + 1..]) + multiset{t[k]}
  {
    assert t == t[..k] + ([t[k]] + t[k + 1..]);
    CountAppend(t[..k], [t[k]] + t[k + 1..], c);
    CountAppend([t[k]], t[k + 1..], c);
    CountAppend(t[..k], t[k + 1..], c);
  }

  lemma {:induction false} WithoutOne(rest: seq<Identity>, x: Identity, others: seq<Identity>, t: seq<Identity>)
    requires multiset(rest + [x]) <= multiset(t) && multiset(t) == multiset(others) + multiset{x}
    ensures multiset(rest) <= multiset(others)
  {
    forall y ensures multiset(rest)[y] <= multiset(others)[y] {
      OneMoreCounts(rest, x, y);
      assert multiset(t)[y] == multiset(others)[y] + if x == y then 1 else 0;
    }
  }

  lemma {:induction false} HeldByLarger(rest: seq<Identity>, x: Identity, t: seq<Identity>) returns (k: nat)
    requires multiset(rest + [x]) <= multiset(t)
    ensures k < |t| && t[k] == x
  {
    assert multiset(rest + [x])[x] > 0;
    assert x in t;
    k :| k < |t| && t[k] == x;
  }

  lemma {:induction false} CountWithin(s: seq<Identity>, t: seq<Identity>, c: Class)
    requires multiset(s) <= multiset(t)
    ensures CountIn(s, c) <= CountIn(t, c)
    decreases |s|
  {
    hide ClassOf;
    if s != [] {
      var rest, x := s[..|s| - 1], s[|s| - 1];
      assert s == rest + [x];
      var k := HeldByLarger(rest, x, t);
      CountRemove(t, k, c);
      WithoutOne(rest, x, t[..k] + t[k + 1..], t);
      CountWithin(rest, t[..k] + t[k + 1..], c);
    }
  }

  lemma {:induction false} CountOfElement(s: seq<Identity>, id: Identity)
    requires id.path.None?
    ensures CountIn(s, AtElement(id)) == multiset(s)[id]
  {
    if s != [] {
      assert s == s[..|s| - 1] + [s[|s| - 1]];
      CountOfElement(s[..|s| - 1], id);
    }
  }

  ghost function HitSeq(head: seq<Identity>, base: seq<Identity>, n: nat): seq<Identity>
    requires n <= |head|
  {
    if n == 0 then []
    else if Hit(head, base, n - 1) then HitSeq(head, base, n - 1) + [head[n - 1]]
    else HitSeq(head, base, n - 1)
  }

  /** How often an exact identity stands among the first `n` of the head, and among their hits. */
  function Seen(head: seq<Identity>, n: nat, id: Identity): nat
    requires n <= |head|
  {
    multiset(head[..n])[id]
  }

  ghost function HitTimes(head: seq<Identity>, base: seq<Identity>, n: nat, id: Identity): nat
    requires n <= |head|
  {
    multiset(HitSeq(head, base, n))[id]
  }

  lemma {:induction false} OneViolationMore(head: seq<Identity>, base: seq<Identity>, n: nat, id: Identity)
    requires n < |head|
    ensures Seen(head, n + 1, id) == Seen(head, n, id) + if head[n] == id then 1 else 0
    ensures HitTimes(head, base, n + 1, id) == HitTimes(head, base, n, id)
      + if head[n] == id && Seen(head, n, id) < multiset(base)[id] then 1 else 0
  {
    assert head[..n + 1] == head[..n] + [head[n]];
    OneMoreCounts(head[..n], head[n], id);
    OneMoreCounts(HitSeq(head, base, n), head[n], id);
  }

  /** For each exact identity the first phase excuses as many as both sides have. */
  lemma {:induction false} HitsByIdentity(head: seq<Identity>, base: seq<Identity>, n: nat, id: Identity)
    requires n <= |head|
    ensures HitTimes(head, base, n, id) == Min(Seen(head, n, id), multiset(base)[id])
  {
    if n > 0 {
      HitsByIdentity(head, base, n - 1, id);
      OneViolationMore(head, base, n - 1, id);
      hide Seen, HitTimes;
    }
  }

  lemma {:induction false} HitsAreCounted(head: seq<Identity>, base: seq<Identity>, n: nat, c: Class)
    requires n <= |head|
    ensures HitsIn(head, base, n, c) == CountIn(HitSeq(head, base, n), c)
  {
    if n > 0 {
      HitsAreCounted(head, base, n - 1, c);
      if Hit(head, base, n - 1) {
        var hits := HitSeq(head, base, n - 1);
        assert (hits + [head[n - 1]])[..|hits|] == hits;
      }
    }
  }

  /** The two counter maps stay coupled: the first phase never takes more from a place than the base has there. */
  lemma {:induction false} HitsWithinBase(head: seq<Identity>, base: seq<Identity>, n: nat, c: Class)
    requires n <= |head|
    ensures HitsIn(head, base, n, c) <= CountIn(base, c)
  {
    forall id | id in multiset(HitSeq(head, base, n)) ensures multiset(HitSeq(head, base, n))[id] <= multiset(base)[id]
    {
      HitsByIdentity(head, base, n, id);
    }
    CountWithin(HitSeq(head, base, n), base, c);
    HitsAreCounted(head, base, n, c);
  }

  lemma {:induction false} HitsAndMissesAreAll(head: seq<Identity>, base: seq<Identity>, n: nat, c: Class)
    requires n <= |head|
    ensures HitsIn(head, base, n, c) + MissesIn(head, base, n, c) == CountIn(head[..n], c)
  {
    if n > 0 {
      HitsAndMissesAreAll(head, base, n - 1, c);
      assert head[..n][..n - 1] == head[..n - 1];
    }
  }

  lemma {:induction false} ExcusedSplits(head: seq<Identity>, base: seq<Identity>, n: nat, c: Class)
    requires n <= |head|
    ensures ExcusedIn(head, base, n, c)
      == HitsIn(head, base, n, c) + if c.AtPlace? then Min(MissesIn(head, base, n, c), LeftOver(head, base, c)) else 0
  {
    if n == 0 {
      HitsWithinBase(head, base, |head|, c);
    } else {
      ExcusedSplits(head, base, n - 1, c);
      if ClassOf(head[n - 1]) == c && !Hit(head, base, n - 1) {
        assert Excused(head, base, n - 1) <==> c.AtPlace? && MissesIn(head, base, n - 1, c) < LeftOver(head, base, c);
      }
    }
  }

  /**
   In every class, the number of head violations excused is exactly the smaller of
   the head's and the base's number in it: none is called new that the base could
   still excuse, and no base violation excuses two.
   */
  lemma {:induction false} ExcusedAreTheSmallerCount(head: seq<Identity>, base: seq<Identity>, c: Class)
    ensures ExcusedIn(head, base, |head|, c) == Min(CountIn(head, c), CountIn(base, c))
  {
    ExcusedSplits(head, base, |head|, c);
    HitsAndMissesAreAll(head, base, |head|, c);
    HitsWithinBase(head, base, |head|, c);
    assert head[..|head|] == head;
    if c.AtElement? {
      if c.identity.path.None? {
        CountOfElement(head, c.identity);
        CountOfElement(base, c.identity);
        CountOfElement(HitSeq(head, base, |head|), c.identity);
        HitsByIdentity(head, base, |head|, c.identity);
        HitsAreCounted(head, base, |head|, c);
      } else {
        NoSuchClass(head, c);
      }
    }
  }

  lemma {:induction false} NoSuchClass(s: seq<Identity>, c: Class)
    requires c.AtElement? && c.identity.path.Some?
    ensures CountIn(s, c) == 0
  {
    if s != [] {
      NoSuchClass(s[..|s| - 1], c);
    }
  }

  /** A violation whose exact identity the base has at least as often as the head is never new. */
  lemma {:induction false} KnownIdentityIsExcused(head: seq<Identity>, base: seq<Identity>, i: nat)
    requires i < |head| && multiset(head)[head[i]] <= multiset(base)[head[i]]
    ensures Hit(head, base, i)
  {
    assert head == head[..i] + [head[i]] + head[i + 1..];
  }

  /** What is known about an identity the base never audited: it has no counterpart in either phase. */
  lemma {:induction false} NothingInBase(base: seq<Identity>, id: Identity)
    requires forall k :: 0 <= k < |base| ==> base[k].audit != id.audit
    ensures multiset(base)[id] == 0 && CountIn(base, ClassOf(id)) == 0
  {
    if base != [] {
      NothingInBase(base[..|base| - 1], id);
      assert base == base[..|base| - 1] + [base[|base| - 1]];
    }
  }

  // --------------------------------------------------------------- the whole

  ghost function InClasses(s: seq<Identity>, among: set<nat>, cs: set<Class>): set<nat>
    requires forall i :: i in among ==> i < |s|
  {
    set i | i in among && ClassOf(s[i]) in cs
  }

  ghost function Indexes(s: seq<Identity>, n: nat, c: Class): set<nat>
    requires n <= |s|
  {
    set i: nat | i < n && ClassOf(s[i]) == c
  }

  lemma {:induction false} IndexesOneMore(s: seq<Identity>, n: nat, c: Class)
    requires n < |s|
    ensures |Indexes(s, n + 1, c)| == |Indexes(s, n, c)| + if ClassOf(s[n]) == c then 1 else 0
  {
    var before, one := Indexes(s, n, c), if ClassOf(s[n]) == c then {n} else {};
    assert n !in before;
    assert Indexes(s, n + 1, c) == before + one;
  }

  lemma {:induction false} IndexesAreCounted(s: seq<Identity>, n: nat, c: Class)
    requires n <= |s|
    ensures |Indexes(s, n, c)| == CountIn(s[..n], c)
  {
    hide ClassOf;
    if n == 0 {
      assert Indexes(s, 0, c) == {};
    } else {
      hide Indexes;
      IndexesAreCounted(s, n - 1, c);
      IndexesOneMore(s, n - 1, c);
      assert s[..n][..n - 1] == s[..n - 1];
    }
  }

  ghost function ExcusedUpTo(head: seq<Identity>, base: seq<Identity>, n: nat, c: Class): set<nat>
    requires n <= |head|
  {
    set i: nat | i < n && ClassOf(head[i]) == c && Excused(head, base, i)
  }

  lemma {:induction false} ExcusedOneMore(head: seq<Identity>, base: seq<Identity>, n: nat, c: Class)
    requires n < |head|
    ensures n !in ExcusedUpTo(head, base, n, c)
    ensures ExcusedUpTo(head, base, n + 1, c)
      == ExcusedUpTo(head, base, n, c) + if ClassOf(head[n]) == c && Excused(head, base, n) then {n} else {}
  {
    var one := if ClassOf(head[n]) == c && Excused(head, base, n) then {n} else {};
    forall i: nat ensures i in ExcusedUpTo(head, base, n + 1, c) <==> i in ExcusedUpTo(head, base, n, c) + one {
    }
  }

  lemma {:induction false} ExcusedAreCounted(head: seq<Identity>, base: seq<Identity>, n: nat, c: Class)
    requires n <= |head|
    ensures |ExcusedUpTo(head, base, n, c)| == ExcusedIn(head, base, n, c)
  {
    hide ClassOf, Excused;
    if n == 0 {
      assert ExcusedUpTo(head, base, 0, c) == {};
    } else {
      hide ExcusedUpTo;
      ExcusedAreCounted(head, base, n - 1, c);
      ExcusedOneMore(head, base, n - 1, c);
    }
  }

  /** The smaller counts, summed over classes. */
  ghost function SmallerCounts(head: seq<Identity>, base: seq<Identity>, cs: set<Class>): nat {
    if cs == {} then 0
    else Min(CountIn(head, Pick(cs)), CountIn(base, Pick(cs))) + SmallerCounts(head, base, cs - {Pick(cs)})
  }

  ghost function Pick(cs: set<Class>): (c: Class)
    requires cs != {}
    ensures c in cs
  {
    var c :| c in cs; c
  }

  lemma {:induction false} SplitByClass(s: seq<Identity>, among: set<nat>, cs: set<Class>, c: Class)
    requires forall i :: i in among ==> i < |s|
    requires c in cs
    ensures |InClasses(s, among, cs)| == |InClasses(s, among, {c})| + |InClasses(s, among, cs - {c})|
  {
    assert InClasses(s, among, cs) == InClasses(s, among, {c}) + InClasses(s, among, cs - {c});
    assert InClasses(s, among, {c}) !! InClasses(s, among, cs - {c});
  }

  lemma {:induction false} ExcusedInClasses(head: seq<Identity>, base: seq<Identity>, cs: set<Class>)
    ensures |InClasses(head, ExcusedSet(head, base), cs)| == SmallerCounts(head, base, cs)
    decreases |cs|
  {
    if cs != {} {
      var c := Pick(cs);
      SplitByClass(head, ExcusedSet(head, base), cs, c);
      ExcusedInClasses(head, base, cs - {c});
      assert InClasses(head, ExcusedSet(head, base), {c}) == ExcusedUpTo(head, base, |head|, c);
      ExcusedAreCounted(head, base, |head|, c);
      ExcusedAreTheSmallerCount(head, base, c);
    } else {
      assert InClasses(head, ExcusedSet(head, base), cs) == {};
    }
  }

  ghost function Classes(s: seq<Identity>): set<Class> {
    set i | 0 <= i < |s| :: ClassOf(s[i])
  }

  lemma {:induction false} AllExcused(head: seq<Identity>, base: seq<Identity>)
    ensures |ExcusedSet(head, base)| == SmallerCounts(head, base, Classes(head))
  {
    assert InClasses(head, ExcusedSet(head, base), Classes(head)) == ExcusedSet(head, base);
    ExcusedInClasses(head, base, Classes(head));
  }

  /**
   Two violations in the same place: of one rule in one audit, at paths that differ in their
   indexes alone; or, without a path, the same altogether.
   */
  predicate Alike(a: Identity, b: Identity) {
    if a.path.Some? && b.path.Some?
      then a.audit == b.audit && a.rule == b.rule && LoosePath(a.path.value) == LoosePath(b.path.value)
    else a == b
  }

  lemma {:induction false} AlikeIsOneClass(a: Identity, b: Identity)
    ensures Alike(a, b) <==> ClassOf(a) == ClassOf(b)
  {
    hide LoosePath;
  }

  /** A way of excusing head violations by base violations in the same place, each base violation used once at most. */
  ghost predicate IsMatching(head: seq<Identity>, base: seq<Identity>, m: map<nat, nat>) {
    && (forall i :: i in m ==> i < |head| && m[i] < |base| && Alike(head[i], base[m[i]]))
    && (forall i, j :: i in m && j in m && m[i] == m[j] ==> i == j)
  }

  lemma {:induction false} ImageSize(keys: set<nat>, m: map<nat, nat>, image: set<nat>)
    requires forall i :: i in keys ==> i in m && m[i] in image
    requires forall i, j :: i in keys && j in keys && m[i] == m[j] ==> i == j
    ensures |keys| <= |image|
    decreases |keys|
  {
    if keys != {} {
      var i :| i in keys;
      ImageSize(keys - {i}, m, image - {m[i]});
    }
  }

  lemma {:induction false} WithinSize(a: set<nat>, b: set<nat>)
    requires a <= b
    ensures |a| <= |b|
    decreases |a|
  {
    if a != {} {
      var x :| x in a;
      WithinSize(a - {x}, b - {x});
    }
  }

  lemma {:induction false} MatchingInClass(head: seq<Identity>, base: seq<Identity>, m: map<nat, nat>, c: Class)
    requires IsMatching(head, base, m)
    ensures |InClasses(head, m.Keys, {c})| <= Min(CountIn(head, c), CountIn(base, c))
  {
    var keys := InClasses(head, m.Keys, {c});
    forall i | i in keys ensures m[i] in Indexes(base, |base|, c) {
      AlikeIsOneClass(head[i], base[m[i]]);
    }
    WithinSize(keys, Indexes(head, |head|, c));
    ImageSize(keys, m, Indexes(base, |base|, c));
    IndexesAreCounted(head, |head|, c);
    IndexesAreCounted(base, |base|, c);
    assert head[..|head|] == head && base[..|base|] == base;
  }

  lemma {:induction false} MatchingInClasses(head: seq<Identity>, base: seq<Identity>, m: map<nat, nat>, cs: set<Class>)
    requires IsMatching(head, base, m)
    ensures |InClasses(head, m.Keys, cs)| <= SmallerCounts(head, base, cs)
    decreases |cs|
  {
    if cs != {} {
      SplitByClass(head, m.Keys, cs, Pick(cs));
      MatchingInClass(head, base, m, Pick(cs));
      MatchingInClasses(head, base, m, cs - {Pick(cs)});
    } else {
      assert InClasses(head, m.Keys, cs) == {};
    }
  }

  /** The two-phase greedy matching is optimal: no assignment of base violations to head violations excuses more. */
  lemma {:induction false} NoMatchingExcusesMore(head: seq<Identity>, base: seq<Identity>, m: map<nat, nat>)
    requires IsMatching(head, base, m)
    ensures |m| <= |ExcusedSet(head, base)|
  {
    AllExcused(head, base);
    MatchingInClasses(head, base, m, Classes(head));
    assert InClasses(head, m.Keys, Classes(head)) == m.Keys;
  }

  lemma {:induction false} SmallerCountsMonotone(head: seq<Identity>, head': seq<Identity>,
      base: seq<Identity>, base': seq<Identity>, cs: set<Class>)
    requires multiset(head) <= multiset(head') && multiset(base) <= multiset(base')
    ensures SmallerCounts(head, base, cs) <= SmallerCounts(head', base', cs)
    decreases |cs|
  {
    if cs != {} {
      var c := Pick(cs);
      CountWithin(head, head', c);
      CountWithin(base, base', c);
      SmallerCountsMonotone(head, head', base, base', cs - {c});
    }
  }

  lemma {:induction false} ClassesOfPermutation(s: seq<Identity>, t: seq<Identity>)
    requires multiset(s) == multiset(t)
    ensures Classes(s) <= Classes(t)
  {
    forall c | c in Classes(s) ensures c in Classes(t) {
      var i :| 0 <= i < |s| && ClassOf(s[i]) == c;
      assert s[i] in multiset(t);
    }
  }

  /** The order in which audits report violations changes neither side's count of excused ones. */
  lemma {:induction false} OrderDoesNotMatter(head: seq<Identity>, head': seq<Identity>, base: seq<Identity>,
      base': seq<Identity>)
    requires multiset(head) == multiset(head') && multiset(base) == multiset(base')
    ensures |ExcusedSet(head, base)| == |ExcusedSet(head', base')|
  {
    AllExcused(head, base);
    AllExcused(head', base');
    ClassesOfPermutation(head, head');
    ClassesOfPermutation(head', head);
    assert Classes(head) == Classes(head');
    SmallerCountsMonotone(head, head', base, base', Classes(head));
    SmallerCountsMonotone(head', head, base', base, Classes(head));
  }

  /** A base with more violations never excuses fewer. */
  lemma {:induction false} LargerBaseExcusesNoFewer(head: seq<Identity>, base: seq<Identity>, base': seq<Identity>)
    requires multiset(base) <= multiset(base')
    ensures |ExcusedSet(head, base)| <= |ExcusedSet(head, base')|
  {
    AllExcused(head, base);
    AllExcused(head, base');
    SmallerCountsMonotone(head, head, base, base', Classes(head));
  }

  /** Each violation's own fate, and not only the counts, depends on the base as a multiset alone. */
  lemma {:induction false} BaseOrderDoesNotMatter(head: seq<Identity>, base: seq<Identity>, base': seq<Identity>,
      i: nat)
    requires i < |head| && multiset(base) == multiset(base')
    ensures Excused(head, base, i) == Excused(head, base', i)
  {
    var c := ClassOf(head[i]);
    CountWithin(base, base', c);
    CountWithin(base', base, c);
    SameHits(head, base, base', |head|, c);
    SameHits(head, base, base', i, c);
  }

  lemma {:induction false} SameHits(head: seq<Identity>, base: seq<Identity>, base': seq<Identity>, n: nat, c: Class)
    requires n <= |head| && multiset(base) == multiset(base')
    ensures HitsIn(head, base, n, c) == HitsIn(head, base', n, c)
    ensures MissesIn(head, base, n, c) == MissesIn(head, base', n, c)
  {
    if n > 0 {
      SameHits(head, base, base', n - 1, c);
    }
  }
}
