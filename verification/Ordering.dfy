/** Records listed in a sort order, the record limit, and when a limited list is unaffected by
    records that were left behind. */
module Ordering {

  datatype Direction = Desc | Asc

  ghost predicate TotalPreorder<T(!new)>(le: (T, T) -> bool) {
    && (forall x, y :: le(x, y) || le(y, x))
    && (forall x, y, z :: le(x, y) && le(y, z) ==> le(x, z))
  }

  ghost predicate Antisymmetric<T(!new)>(le: (T, T) -> bool) {
    forall x, y :: le(x, y) && le(y, x) ==> x == y
  }

  ghost predicate SortedBy<T>(le: (T, T) -> bool, s: seq<T>) {
    forall i, j | 0 <= i < j < |s| :: le(s[i], s[j])
  }

  /** `s` is an order in which a cursor may walk through a memory with these contents. */
  ghost predicate Listing<T>(le: (T, T) -> bool, s: seq<T>, contents: multiset<T>) {
    multiset(s) == contents && SortedBy(le, s)
  }

  /** The record limit: zero means no limit. */
  function Cut<T>(s: seq<T>, limit: nat): (r: seq<T>)
    ensures r <= s
    ensures |r| == if limit == 0 || |s| < limit then |s| else limit
  {
    if limit == 0 || |s| <= limit then s else s[..limit]
  }

  function Flatten<T>(ss: seq<seq<T>>): seq<T> {
    if |ss| == 0 then [] else ss[0] + Flatten(ss[1..])
  }

  lemma AppendAssociates<T>(a: seq<T>, b: seq<T>, c: seq<T>)
    ensures (a + b) + c == a + (b + c)
  {
  }

  lemma {:induction false} FlattenAppend<T>(a: seq<seq<T>>, b: seq<seq<T>>)
    ensures Flatten(a + b) == Flatten(a) + Flatten(b)
  {
    if |a| == 0 {
      assert a + b == b;
    } else {
      assert (a + b)[1..] == a[1..] + b;
      FlattenAppend(a[1..], b);
    }
  }

  lemma FlattenOne<T>(a: seq<T>)
    ensures Flatten([a]) == a
  {
    assert [a][1..] == [];
    assert a + Flatten([]) == a;
  }

  lemma FlattenTwo<T>(a: seq<T>, b: seq<T>)
    ensures Flatten([a, b]) == a + b
  {
    assert [a, b][1..] == [b];
    FlattenOne(b);
  }

  lemma FlattenGrows<T>(ss: seq<seq<T>>, n: nat)
    requires n < |ss|
    ensures Flatten(ss[..n + 1]) == Flatten(ss[..n]) + ss[n]
  {
    assert ss[..n + 1] == ss[..n] + [ss[n]];
    FlattenAppend(ss[..n], [ss[n]]);
    FlattenOne(ss[n]);
  }

  lemma OneMore(n: nat, c: nat)
    ensures (n + 1) * c == c + n * c
  {
  }

  lemma {:induction false} SameFlattened<T>(a: seq<seq<T>>, b: seq<seq<T>>)
    requires |a| == |b| && forall i | 0 <= i < |a| :: multiset(a[i]) == multiset(b[i])
    ensures multiset(Flatten(a)) == multiset(Flatten(b))
  {
    if |a| > 0 {
      SameFlattened(a[1..], b[1..]);
    }
  }

  lemma {:induction false} FlattenEmpty<T>(ss: seq<seq<T>>)
    requires forall i | 0 <= i < |ss| :: ss[i] == []
    ensures Flatten(ss) == []
  {
    if |ss| > 0 {
      FlattenEmpty(ss[1..]);
    }
  }

  lemma {:induction false} FlattenMember<T>(ss: seq<seq<T>>, x: T)
    ensures x in Flatten(ss) <==> exists i | 0 <= i < |ss| :: x in ss[i]
  {
    if |ss| > 0 {
      FlattenMember(ss[1..], x);
      if x in Flatten(ss[1..]) {
        var i :| 0 <= i < |ss[1..]| && x in ss[1..][i];
        assert x in ss[i + 1];
      }
      if i :| 0 <= i < |ss| && x in ss[i] {
        assert i == 0 || x in ss[1..][i - 1];
      }
    }
  }

  lemma RemoveAt<T>(s: seq<T>, i: nat)
    requires i < |s|
    ensures multiset(s) == multiset(s[..i] + s[i + 1..]) + multiset{s[i]}
  {
    assert s == s[..i] + ([s[i]] + s[i + 1..]);
  }

  lemma CancelOne<T>(a: multiset<T>, b: multiset<T>, x: T)
    requires a + multiset{x} == b + multiset{x}
    ensures a == b
  {
    assert a == a + multiset{x} - multiset{x};
    assert b == b + multiset{x} - multiset{x};
  }

  lemma PermutationHead<T>(s: seq<T>, t: seq<T>) returns (i: nat)
    requires multiset(s) == multiset(t) && |s| > 0
    ensures i < |t| && t[i] == s[0]
    ensures multiset(s[1..]) == multiset(t[..i] + t[i + 1..])
  {
    assert s[0] in multiset(t);
    i :| 0 <= i < |t| && t[i] == s[0];
    RemoveAt(t, i);
    assert s == [s[0]] + s[1..];
    CancelOne(multiset(s[1..]), multiset(t[..i] + t[i + 1..]), s[0]);
  }

  function Insert<T>(le: (T, T) -> bool, x: T, s: seq<T>): (r: seq<T>)
    ensures multiset(r) == multiset(s) + multiset{x}
  {
    if |s| == 0 then [x]
    else if le(x, s[0]) then [x] + s
    else
      assert s == [s[0]] + s[1..];
      [s[0]] + Insert(le, x, s[1..])
  }

  lemma {:induction false} InsertSorted<T(!new)>(le: (T, T) -> bool, x: T, s: seq<T>)
    requires TotalPreorder(le) && SortedBy(le, s)
    ensures SortedBy(le, Insert(le, x, s))
  {
    if |s| > 0 && !le(x, s[0]) {
      InsertSorted(le, x, s[1..]);
      var r := Insert(le, x, s[1..]);
      forall j | 0 <= j < |r|
        ensures le(s[0], r[j])
      {
        assert r[j] in multiset(r);
        assert r[j] == x || r[j] in multiset(s[1..]);
      }
    }
  }

  function Sort<T>(le: (T, T) -> bool, s: seq<T>): (r: seq<T>)
    ensures multiset(r) == multiset(s)
  {
    if |s| == 0 then []
    else
      assert s == [s[0]] + s[1..];
      Insert(le, s[0], Sort(le, s[1..]))
  }

  lemma {:induction false} SortListing<T(!new)>(le: (T, T) -> bool, s: seq<T>)
    requires TotalPreorder(le)
    ensures Listing(le, Sort(le, s), multiset(s))
  {
    if |s| > 0 {
      SortListing(le, s[1..]);
      InsertSorted(le, s[0], Sort(le, s[1..]));
    }
  }

  lemma HeadAndTail<T>(s: seq<T>)
    requires |s| > 0
    ensures multiset(s) == multiset(s[1..]) + multiset{s[0]}
  {
    assert s == [s[0]] + s[1..];
  }

  lemma SameHead<T(!new)>(le: (T, T) -> bool, s: seq<T>, t: seq<T>)
    requires Antisymmetric(le) && |s| > 0
    requires SortedBy(le, s) && SortedBy(le, t) && multiset(s) == multiset(t)
    ensures |t| > 0 && t[0] == s[0]
  {
    assert |multiset(s)| == |multiset(t)|;
    assert s[0] in multiset(t) && t[0] in multiset(s);
    var i :| 0 <= i < |t| && t[i] == s[0];
    var j :| 0 <= j < |s| && s[j] == t[0];
    assert i == 0 || le(t[0], t[i]);
    assert j == 0 || le(s[0], s[j]);
  }

  /** A total order leaves no freedom: the listing of a memory is unique. */
  lemma {:induction false} ListingUnique<T(!new)>(le: (T, T) -> bool, s: seq<T>, t: seq<T>)
    requires Antisymmetric(le)
    requires SortedBy(le, s) && SortedBy(le, t) && multiset(s) == multiset(t)
    ensures s == t
  {
    if |s| == 0 {
      assert |multiset(t)| == 0;
    } else {
      SameHead(le, s, t);
      HeadAndTail(s);
      HeadAndTail(t);
      CancelOne(multiset(s[1..]), multiset(t[1..]), s[0]);
      ListingUnique(le, s[1..], t[1..]);
    }
  }

  /** `d` comes after at least `n` of the kept records. */
  ghost predicate Outranked<T(!new)>(le: (T, T) -> bool, n: nat, kept: multiset<T>, d: T) {
    exists e: multiset<T> :: AllBefore(le, e, d) && e <= kept && |e| == n
  }

  ghost predicate AllBefore<T>(le: (T, T) -> bool, e: multiset<T>, d: T) {
    forall x | x in e :: le(x, d)
  }

  lemma SubMultisetSize<T>(a: multiset<T>, b: multiset<T>)
    requires a <= b
    ensures |a| <= |b|
  {
    assert b == a + (b - a);
  }

  lemma SubsetSize<T>(a: set<T>, b: set<T>)
    requires a <= b
    ensures |a| <= |b|
  {
    SubMultisetSize(multiset(a), multiset(b));
  }

  /** Whatever comes before `d` stands, in a sorted list, in front of any entry that does not. */
  lemma BeforeMeansEarly<T(!new)>(le: (T, T) -> bool, f: seq<T>, e: multiset<T>, d: T, j: nat)
    requires TotalPreorder(le) && SortedBy(le, f) && j < |f|
    requires AllBefore(le, e, d) && e <= multiset(f) && !le(f[j], d)
    ensures e <= multiset(f[..j])
  {
    forall i | j <= i < |f|
      ensures f[i] !in e
    {
      assert le(f[j], f[i]);
    }
    assert f == f[..j] + f[j..];
    forall x | x in e
      ensures e[x] <= multiset(f[..j])[x]
    {
      assert x !in f[j..];
      assert multiset(f)[x] == multiset(f[..j])[x] + multiset(f[j..])[x];
    }
  }

  lemma OutrankedByPrefix<T(!new)>(le: (T, T) -> bool, n: nat, f: seq<T>, d: T)
    requires TotalPreorder(le) && SortedBy(le, f)
    requires Outranked(le, n, multiset(f), d)
    ensures n <= |f|
    ensures forall j | 0 <= j < n :: le(f[j], d)
  {
    var e: multiset<T> :| AllBefore(le, e, d) && e <= multiset(f) && |e| == n;
    SubMultisetSize(e, multiset(f));
    forall j | 0 <= j < n
      ensures le(f[j], d)
    {
      if !le(f[j], d) {
        BeforeMeansEarly(le, f, e, d, j);
        SubMultisetSize(e, multiset(f[..j]));
      }
    }
  }

  lemma SortedConcat<T>(le: (T, T) -> bool, a: seq<T>, b: seq<T>)
    requires SortedBy(le, a) && SortedBy(le, b)
    requires forall x, y | x in a && y in b :: le(x, y)
    ensures SortedBy(le, a + b)
  {
    var c := a + b;
    forall i, j | 0 <= i < j < |c|
      ensures le(c[i], c[j])
    {
      if i < |a| <= j {
        assert c[i] in a && c[j] in b;
      }
    }
  }

  /** Records that each come after `n` kept ones cannot change the first `n`: the first `n` of the
      kept records are the first `n` of a listing of everything. */
  lemma CutStable<T(!new)>(le: (T, T) -> bool, n: nat, f: seq<T>, dropped: seq<T>) returns (l: seq<T>)
    requires TotalPreorder(le) && SortedBy(le, f)
    requires n == 0 ==> dropped == []
    requires forall d | d in dropped :: Outranked(le, n, multiset(f), d)
    ensures Listing(le, l, multiset(f) + multiset(dropped))
    ensures Cut(l, n) == Cut(f, n)
  {
    if dropped == [] {
      l := f;
    } else {
      OutrankedByPrefix(le, n, f, dropped[0]);
      var head, tail := f[..n], f[n..] + dropped;
      var rest := Sort(le, tail);
      SortListing(le, tail);
      assert f == head + f[n..];
      forall x, y | x in head && y in rest
        ensures le(x, y)
      {
        HeadBefore(le, n, f, dropped, x, y) by {
          assert y in multiset(rest);
        }
      }
      SortedConcat(le, head, rest);
      l := head + rest;
    }
  }

  lemma HeadBefore<T(!new)>(le: (T, T) -> bool, n: nat, f: seq<T>, dropped: seq<T>, x: T, y: T)
    requires TotalPreorder(le) && SortedBy(le, f) && n <= |f|
    requires forall d | d in dropped :: Outranked(le, n, multiset(f), d)
    requires x in f[..n] && y in f[n..] + dropped
    ensures le(x, y)
  {
    var i :| 0 <= i < n && f[i] == x;
    if y in dropped {
      OutrankedByPrefix(le, n, f, y);
    } else {
      var k :| n <= k < |f| && f[k] == y;
    }
  }
}
