// Types and byte arithmetic shared by the modules of the model.

module Prelude {

  datatype Option<+T> = None | Some(value: T)

  datatype Result<+T, +E> = Ok(value: T) | Err(error: E)

  function Min(a: int, b: int): int {
    if a <= b then a else b
  }

  function Max(a: int, b: int): int {
    if a >= b then a else b
  }

  type Byte = x: int | 0 <= x < 256

  type Bytes = seq<Byte>

  /** Big-endian numbers, as every format here writes them. */
  function U16(n: nat): (b: Bytes)
    requires n < 0x1_0000
    ensures |b| == 2 && ReadU16(b, 0) == n
  {
    [n / 0x100, n % 0x100]
  }

  function ReadU16(b: Bytes, at: nat): (n: nat)
    requires at + 2 <= |b|
    ensures n < 0x1_0000
  {
    0x100 * (b[at] as int) + (b[at + 1] as int)
  }

  function U32(n: nat): (b: Bytes)
    requires n < 0x1_0000_0000
    ensures |b| == 4 && ReadU32(b, 0) == n
  {
    U16(n / 0x1_0000) + U16(n % 0x1_0000)
  }

  function ReadU32(b: Bytes, at: nat): (n: nat)
    requires at + 4 <= |b|
    ensures n < 0x1_0000_0000
  {
    0x1_0000 * ReadU16(b, at) + ReadU16(b, at + 2)
  }

  lemma {:induction false} TakeOneMore<T>(s: seq<T>, n: nat)
    requires n < |s|
    ensures s[..n + 1] == s[..n] + [s[n]]
  {
  }

  lemma {:induction false} OneMoreCounts<T>(s: seq<T>, x: T, y: T)
    ensures multiset(s + [x])[y] == multiset(s)[y] + if x == y then 1 else 0
  {
  }

  lemma {:induction false} Associates<T>(a: seq<T>, b: seq<T>, c: seq<T>)
    ensures a + (b + c) == (a + b) + c
  {
  }

  /** Places in rising order, each of them once. */
  ghost predicate InOrder(places: seq<nat>, all: set<nat>) {
    && (forall a, b :: 0 <= a < b < |places| ==> places[a] < places[b])
    && forall j: nat :: j in places <==> j in all
  }

  lemma {:induction false} OnePlaceMore(places: seq<nat>, all: set<nat>, n: nat)
    requires InOrder(places, all) && forall j :: j in all ==> j < n
    ensures InOrder(places + [n], all + {n})
  {
    assert forall a :: 0 <= a < |places| ==> places[a] in places;
  }

  function Flatten<T>(lists: seq<seq<T>>): seq<T> {
    if lists == [] then [] else Flatten(lists[..|lists| - 1]) + lists[|lists| - 1]
  }

  lemma {:induction false} FlattenOneMore<T>(lists: seq<seq<T>>, last: seq<T>)
    ensures Flatten(lists + [last]) == Flatten(lists) + last
  {
    assert (lists + [last])[..|lists|] == lists;
  }

  predicate MatchAt<T(==)>(text: seq<T>, pattern: seq<T>, at: nat) {
    at + |pattern| <= |text| && text[at..at + |pattern|] == pattern
  }

  /** Where a pattern first stands at or after a position. */
  function Find<T(==)>(text: seq<T>, pattern: seq<T>, start: nat): (r: Option<nat>)
    ensures r.Some? ==> start <= r.value && MatchAt(text, pattern, r.value)
    ensures forall k :: start <= k && (r.Some? ==> k < r.value) ==> !MatchAt(text, pattern, k)
    decreases |text| - start
  {
    if start + |pattern| > |text| then None
    else if MatchAt(text, pattern, start) then Some(start)
    else Find(text, pattern, start + 1)
  }
}
