/** Sort mode: every thread sorts and truncates its own records, the master sorts what it got. */
module SortMode {
  import opened Ordering
  import opened Interleaving

  function Truncated<T>(lists: seq<seq<T>>, limit: nat): (r: seq<seq<T>>)
    ensures |r| == |lists|
  {
    seq(|lists|, i requires 0 <= i < |lists| => Cut(lists[i], limit))
  }

  function Remainders<T>(lists: seq<seq<T>>, limit: nat): (r: seq<seq<T>>)
    ensures |r| == |lists|
  {
    seq(|lists|, i requires 0 <= i < |lists| => lists[i][|Cut(lists[i], limit)|..])
  }

  lemma {:induction false} TruncatedAndRemainders<T>(lists: seq<seq<T>>, limit: nat)
    ensures multiset(Flatten(lists)) ==
      multiset(Flatten(Truncated(lists, limit))) + multiset(Flatten(Remainders(lists, limit)))
  {
    if |lists| > 0 {
      var cut := Cut(lists[0], limit);
      assert Truncated(lists, limit)[1..] == Truncated(lists[1..], limit);
      assert Remainders(lists, limit)[1..] == Remainders(lists[1..], limit);
      TruncatedAndRemainders(lists[1..], limit);
      PartsTogether(lists[0], |cut|, Flatten(lists[1..]), Flatten(Truncated(lists[1..], limit)),
        Flatten(Remainders(lists[1..], limit)));
    }
  }

  lemma PartsTogether<T>(s: seq<T>, n: nat, all: seq<T>, kept: seq<T>, unsent: seq<T>)
    requires n <= |s| && multiset(all) == multiset(kept) + multiset(unsent)
    ensures multiset(s + all) == multiset(s[..n] + kept) + multiset(s[n..] + unsent)
  {
    assert s == s[..n] + s[n..];
    assert multiset(s) == multiset(s[..n]) + multiset(s[n..]);
  }

  lemma {:induction false} PartOfFlatten<T>(ss: seq<seq<T>>, i: nat)
    requires i < |ss|
    ensures multiset(ss[i]) <= multiset(Flatten(ss))
  {
    if i > 0 {
      PartOfFlatten(ss[1..], i - 1);
    }
  }

  lemma CutBeforeRest<T>(le: (T, T) -> bool, s: seq<T>, limit: nat, d: T)
    requires SortedBy(le, s) && d in s[|Cut(s, limit)|..]
    ensures limit > 0 && |Cut(s, limit)| == limit && AllBefore(le, multiset(Cut(s, limit)), d)
  {
    var cut := Cut(s, limit);
    var j :| 0 <= j < |s| - |cut| && s[|cut|..][j] == d;
    forall x | x in multiset(cut)
      ensures le(x, d)
    {
      var k :| 0 <= k < |cut| && cut[k] == x;
      assert s[k] == x && s[|cut| + j] == d;
    }
  }

  /** A record a thread did not send comes after the records it sent instead. */
  lemma UnsentOutranked<T(!new)>(le: (T, T) -> bool, lists: seq<seq<T>>, limit: nat, kept: multiset<T>, d: T)
    requires forall i | 0 <= i < |lists| :: SortedBy(le, lists[i])
    requires kept == multiset(Flatten(Truncated(lists, limit))) && d in Flatten(Remainders(lists, limit))
    ensures limit > 0 && Outranked(le, limit, kept, d)
  {
    FlattenMember(Remainders(lists, limit), d);
    var i :| 0 <= i < |lists| && d in Remainders(lists, limit)[i];
    CutBeforeRest(le, lists[i], limit, d);
    PartOfFlatten(Truncated(lists, limit), i);
    var e := multiset(Truncated(lists, limit)[i]);
    assert AllBefore(le, e, d) && e <= kept && |e| == limit;
  }

  /** Refinement of sorting on one machine: for any split of the records over threads, any arrival
      order and any way ties come out, what the master prints is the top of a sorted list of all. */
  lemma SortModeRefines<T(!new)>(le: (T, T) -> bool, lists: seq<seq<T>>, limit: nat, order: seq<(nat, T)>,
                                 sorted: seq<T>)
    returns (l: seq<T>)
    requires TotalPreorder(le) && forall i | 0 <= i < |lists| :: SortedBy(le, lists[i])
    requires Interleaves(order, Truncated(lists, limit))
    requires Listing(le, sorted, multiset(Untag(order)))
    ensures Listing(le, l, multiset(Flatten(lists))) && Cut(l, limit) == Cut(sorted, limit)
  {
    var unsent := Flatten(Remainders(lists, limit));
    InterleavesContents(order, Truncated(lists, limit));
    forall d | d in unsent
      ensures limit > 0 && Outranked(le, limit, multiset(sorted), d)
    {
      UnsentOutranked(le, lists, limit, multiset(sorted), d);
    }
    if limit == 0 && unsent != [] {
      UnsentOutranked(le, lists, limit, multiset(sorted), unsent[0]);
    }
    l := CutStable(le, limit, sorted, unsent);
    TruncatedAndRemainders(lists, limit);
  }

  /** With a total order there is only one answer. */
  lemma SortModeExact<T(!new)>(le: (T, T) -> bool, lists: seq<seq<T>>, limit: nat, order: seq<(nat, T)>, all: seq<T>)
    requires TotalPreorder(le) && Antisymmetric(le) && forall i | 0 <= i < |lists| :: SortedBy(le, lists[i])
    requires Interleaves(order, Truncated(lists, limit))
    requires multiset(all) == multiset(Flatten(lists))
    ensures Cut(Sort(le, Untag(order)), limit) == Cut(Sort(le, all), limit)
  {
    SortListing(le, Untag(order));
    SortListing(le, all);
    var l := SortModeRefines(le, lists, limit, order, Sort(le, Untag(order)));
    ListingUnique(le, l, Sort(le, all));
  }
}
