/**
 The newest commits of a range, read from a listing that is served oldest first, a
 hundred to a page: at most three pages are read however long the range is.
 */
module CommitPaging {
  import opened Prelude

  const PAGE := 100

  /** Page `k` of a listing, the first being page 1. */
  function PageOf<T>(all: seq<T>, k: nat): seq<T>
    requires k > 0
  {
    all[Min(|all|, PAGE * (k - 1))..Min(|all|, PAGE * k)]
  }

  function Reversed<T>(s: seq<T>): (r: seq<T>)
    ensures |r| == |s| && forall i :: 0 <= i < |s| ==> r[i] == s[|s| - 1 - i]
  {
    if s == [] then [] else [s[|s| - 1]] + Reversed(s[..|s| - 1])
  }

  /** The newest commits, newest first: what is asked for. */
  function Newest<T>(all: seq<T>, limit: nat): (r: seq<T>)
    ensures |r| == Min(limit, |all|) && forall i :: 0 <= i < |r| ==> r[i] == all[|all| - 1 - i]
  {
    Reversed(all)[..Min(limit, |all|)]
  }

  function LastPage(total: nat): nat {
    (total + (PAGE - 1)) / PAGE
  }

  /** How many commits stand on the last page of a listing. */
  function OnLastPage(total: nat): (n: int)
    ensures total > 0 ==> 0 < n <= PAGE
  {
    total - PAGE * (LastPage(total) - 1)
  }

  /** When the pages read hold all that is asked for. */
  predicate Suffices(total: nat, limit: nat) {
    total <= 2 * PAGE || limit <= PAGE + OnLastPage(total)
  }

  /** What the pages read hold: the range whole where it is short, its last pages where it is not. */
  ghost function Seen<T>(all: seq<T>, limit: nat): (r: seq<T>) {
    var total := |all|;
    if total <= PAGE then all
    else if limit == 0 then PageOf(all, 1)
    else
      var last := LastPage(total);
      var tail := PageOf(all, last);
      if |tail| < Min(limit, total) && last - 1 > 1 then PageOf(all, last - 1) + tail
      else if last - 1 == 1 then PageOf(all, 1) + tail
      else tail
  }

  /** Where the last two pages of a listing longer than a page stand. */
  lemma {:induction false} LastPages<T>(all: seq<T>)
    requires |all| > PAGE
    ensures var last := LastPage(|all|);
      && last >= 2 && PAGE * (last - 1) < |all| <= PAGE * last
      && PageOf(all, last) == all[PAGE * (last - 1)..]
      && PageOf(all, last - 1) == all[PAGE * (last - 2)..PAGE * (last - 1)]
  {
    var last := LastPage(|all|);
    assert PAGE * (last - 1) < |all| <= PAGE * last;
  }

  lemma {:induction false} SlicesJoin<T>(all: seq<T>, i: nat, j: nat)
    requires i <= j <= |all|
    ensures all[i..j] + all[j..] == all[i..]
  {
  }

  /**
   What was read is the end of the range, as long as it needs to be unless the range
   and the limit are both too long.
   */
  lemma {:induction false} SeenIsTheEnd<T>(all: seq<T>, limit: nat)
    requires limit > 0
    ensures |Seen(all, limit)| <= |all| && Seen(all, limit) == all[|all| - |Seen(all, limit)|..]
    ensures Min(limit, |all|) <= |Seen(all, limit)| <==> Suffices(|all|, limit)
  {
    if |all| > PAGE {
      hide LastPage, PageOf;
      LastPages(all);
      var last := LastPage(|all|);
      SlicesJoin(all, PAGE * (last - 2), PAGE * (last - 1));
    }
  }

  /** The newest of a range are the newest of any end of it that is long enough. */
  lemma {:induction false} NewestOfTheEnd<T>(all: seq<T>, end: seq<T>, limit: nat)
    requires |end| <= |all| && end == all[|all| - |end|..]
    ensures Newest(end, limit) == Newest(all, limit) <==> Min(limit, |all|) <= |end|
  {
    if Newest(end, limit) == Newest(all, limit) {
      assert |Newest(end, limit)| == |Newest(all, limit)|;
    }
  }

  lemma {:induction false} NewestOfSeen<T>(all: seq<T>, limit: nat)
    ensures Newest(Seen(all, limit), limit) == Newest(all, limit) <==> limit == 0 || Suffices(|all|, limit)
  {
    hide Seen, Suffices, Newest;
    if limit > 0 {
      SeenIsTheEnd(all, limit);
      NewestOfTheEnd(all, Seen(all, limit), limit);
    } else {
      NoneAreNewest(all);
      NoneAreNewest(Seen(all, 0));
    }
  }

  lemma {:induction false} NoneAreNewest<T>(all: seq<T>)
    ensures Newest(all, 0) == []
  {
  }

  /**
   Reads the newest commits of a range. The listing is told the size of the whole
   range with its first page.
   */
  method ListCommitsBetween<T>(all: seq<T>, limit: nat) returns (commits: seq<T>, truncated: bool, pages: nat)
    ensures commits == Newest(Seen(all, limit), limit)
    ensures commits == Newest(all, limit) <==> limit == 0 || Suffices(|all|, limit)
    ensures pages <= 3
    ensures truncated <==> limit > 0 && |all| > |commits|
  {
    var first := PageOf(all, 1);
    pages := 1;
    var total := |all|;
    var oldestFirst := first;
    if total > PAGE && limit > 0 {
      var last := LastPage(total);
      var tail := PageOf(all, last);
      pages := pages + 1;
      var before: seq<T> := [];
      if |tail| < Min(limit, total) && last - 1 > 1 {
        before := PageOf(all, last - 1);
        pages := pages + 1;
      } else if last - 1 == 1 {
        before := oldestFirst;
      }
      oldestFirst := before + tail;
    }
    assert oldestFirst == Seen(all, limit);
    hide Seen, PageOf, LastPage, Suffices, Reversed;
    commits := Reversed(oldestFirst);
    commits := commits[..Min(limit, |commits|)];
    truncated := limit > 0 && total > |commits|;
    NewestOfSeen(all, limit);
  }

  /**
   Up to a page of commits is always given exactly, and then `truncated` says exactly
   that the range is longer than what was asked for.
   */
  lemma {:induction false} APageAlwaysSuffices(total: nat, limit: nat)
    requires limit <= PAGE
    ensures Suffices(total, limit)
  {
  }

  /**
   Where more than that is asked of a long range, the oldest of what was asked for are
   missing, however long it is.
   */
  lemma {:induction false} LongRangesFallShort<T>(all: seq<T>, limit: nat)
    requires |all| > 2 * PAGE && limit > PAGE + OnLastPage(|all|)
    ensures Newest(Seen(all, limit), limit) != Newest(all, limit)
    ensures |Newest(Seen(all, limit), limit)| == PAGE + OnLastPage(|all|)
  {
    SeenIsTheEnd(all, limit);
    NewestOfTheEnd(all, Seen(all, limit), limit);
    var last := LastPage(|all|);
    assert PAGE * (last - 1) < |all| <= PAGE * last;
  }
}
