/** Messages of several sources on their way to one receiver: each source's messages arrive in the
    order they were sent, nothing is known about messages of different sources. */
module Interleaving {
  import opened Ordering

  function Project<T>(arrivals: seq<(nat, T)>, source: nat): seq<T> {
    if |arrivals| == 0 then []
    else (if arrivals[0].0 == source then [arrivals[0].1] else []) + Project(arrivals[1..], source)
  }

  function Untag<T>(arrivals: seq<(nat, T)>): (r: seq<T>)
    ensures |r| == |arrivals|
  {
    seq(|arrivals|, i requires 0 <= i < |arrivals| => arrivals[i].1)
  }

  ghost predicate Interleaves<T>(arrivals: seq<(nat, T)>, queues: seq<seq<T>>) {
    && (forall i | 0 <= i < |arrivals| :: arrivals[i].0 < |queues|)
    && (forall s | 0 <= s < |queues| :: Project(arrivals, s) == queues[s])
  }

  lemma {:induction false} ProjectAppend<T>(a: seq<(nat, T)>, b: seq<(nat, T)>, source: nat)
    ensures Project(a + b, source) == Project(a, source) + Project(b, source)
  {
    if |a| == 0 {
      assert a + b == b;
    } else {
      assert (a + b)[1..] == a[1..] + b;
      ProjectAppend(a[1..], b, source);
      AppendAssociates(if a[0].0 == source then [a[0].1] else [], Project(a[1..], source), Project(b, source));
    }
  }

  /** Taking the first arrival takes the head of its source's queue. */
  lemma InterleavesTail<T>(arrivals: seq<(nat, T)>, queues: seq<seq<T>>)
    requires Interleaves(arrivals, queues) && |arrivals| > 0
    ensures var (s, x) := arrivals[0];
      && s < |queues| && |queues[s]| > 0 && queues[s][0] == x
      && Interleaves(arrivals[1..], queues[s := queues[s][1..]])
  {
    var (s, x) := arrivals[0];
    assert Project(arrivals, s) == queues[s];
    forall t | 0 <= t < |queues|
      ensures Project(arrivals[1..], t) == queues[s := queues[s][1..]][t]
    {
      assert Project(arrivals, t) == queues[t];
    }
  }

  /** The last arrival is the last of its source's queue. */
  lemma InterleavesLast<T>(arrivals: seq<(nat, T)>, queues: seq<seq<T>>)
    requires Interleaves(arrivals, queues) && |arrivals| > 0
    ensures var (s, x) := arrivals[|arrivals| - 1];
      s < |queues| && |queues[s]| > 0 && queues[s][|queues[s]| - 1] == x
  {
    var (s, x) := arrivals[|arrivals| - 1];
    var front := arrivals[..|arrivals| - 1];
    assert arrivals == front + [(s, x)];
    ProjectAppend(front, [(s, x)], s);
    assert [(s, x)][1..] == [];
    assert Project([(s, x)], s) == [x];
    assert Project(arrivals, s) == queues[s];
  }

  lemma {:induction false} FlattenUpdate<T>(queues: seq<seq<T>>, s: nat)
    requires s < |queues| && |queues[s]| > 0
    ensures multiset(Flatten(queues)) == multiset{queues[s][0]} + multiset(Flatten(queues[s := queues[s][1..]]))
  {
    var shorter := queues[s := queues[s][1..]];
    if s == 0 {
      assert shorter[1..] == queues[1..];
      HeadOut(queues[0], Flatten(queues[1..]));
    } else {
      FlattenUpdate(queues[1..], s - 1);
      assert shorter[1..] == queues[1..][s - 1 := queues[s][1..]];
      AddFront(queues[0], Flatten(queues[1..]), Flatten(shorter[1..]), queues[s][0]);
    }
  }

  lemma HeadOut<T>(s: seq<T>, rest: seq<T>)
    requires |s| > 0
    ensures multiset(s + rest) == multiset{s[0]} + multiset(s[1..] + rest)
  {
    assert s + rest == [s[0]] + (s[1..] + rest);
  }

  lemma AddFront<T>(front: seq<T>, a: seq<T>, b: seq<T>, x: T)
    requires multiset(a) == multiset{x} + multiset(b)
    ensures multiset(front + a) == multiset{x} + multiset(front + b)
  {
  }

  /** Everything that was sent arrives, once. */
  lemma {:induction false} InterleavesContents<T>(arrivals: seq<(nat, T)>, queues: seq<seq<T>>)
    requires Interleaves(arrivals, queues)
    ensures multiset(Untag(arrivals)) == multiset(Flatten(queues))
    decreases arrivals
  {
    if |arrivals| == 0 {
      forall s | 0 <= s < |queues|
        ensures queues[s] == []
      {
        assert Project(arrivals, s) == queues[s];
      }
      FlattenEmpty(queues);
    } else {
      var (s, x) := arrivals[0];
      var shorter := queues[s := queues[s][1..]];
      InterleavesTail(arrivals, queues);
      InterleavesContents(arrivals[1..], shorter);
      FlattenUpdate(queues, s);
      UntagHead(arrivals);
    }
  }

  lemma UntagHead<T>(arrivals: seq<(nat, T)>)
    requires |arrivals| > 0
    ensures multiset(Untag(arrivals)) == multiset{arrivals[0].1} + multiset(Untag(arrivals[1..]))
  {
    assert Untag(arrivals) == [arrivals[0].1] + Untag(arrivals[1..]);
  }

  // ----- messages made of records

  /** The records of the messages, each tagged with its source. */
  function Spread<T>(arrivals: seq<(nat, seq<T>)>): seq<(nat, T)> {
    if |arrivals| == 0 then []
    else TagAll(arrivals[0].0, arrivals[0].1) + Spread(arrivals[1..])
  }

  function TagAll<T>(source: nat, xs: seq<T>): (r: seq<(nat, T)>)
    ensures |r| == |xs|
  {
    seq(|xs|, i requires 0 <= i < |xs| => (source, xs[i]))
  }

  lemma {:induction false} ProjectTagAll<T>(source: nat, xs: seq<T>, s: nat)
    ensures Project(TagAll(source, xs), s) == if s == source then xs else []
  {
    if |xs| > 0 {
      ProjectTagAll(source, xs[1..], s);
      assert TagAll(source, xs)[1..] == TagAll(source, xs[1..]);
    }
  }

  lemma {:induction false} ProjectSpread<T>(arrivals: seq<(nat, seq<T>)>, s: nat)
    ensures Project(Spread(arrivals), s) == Flatten(Project(arrivals, s))
  {
    if |arrivals| > 0 {
      var (t, xs) := arrivals[0];
      ProjectSpread(arrivals[1..], s);
      ProjectAppend(TagAll(t, xs), Spread(arrivals[1..]), s);
      ProjectTagAll(t, xs, s);
      FlattenAppend(if t == s then [xs] else [], Project(arrivals[1..], s));
      assert [xs][1..] == [];
      assert Flatten([xs]) == xs + [];
    }
  }

  lemma {:induction false} SpreadTags<T>(arrivals: seq<(nat, seq<T>)>, sources: nat)
    requires forall i | 0 <= i < |arrivals| :: arrivals[i].0 < sources
    ensures forall i | 0 <= i < |Spread(arrivals)| :: Spread(arrivals)[i].0 < sources
  {
    if |arrivals| > 0 {
      SpreadTags(arrivals[1..], sources);
    }
  }

  lemma {:induction false} UntagSpread<T>(arrivals: seq<(nat, seq<T>)>)
    ensures Untag(Spread(arrivals)) == Flatten(Untag(arrivals))
  {
    if |arrivals| > 0 {
      UntagSpread(arrivals[1..]);
      assert Untag(arrivals)[1..] == Untag(arrivals[1..]);
      assert Untag(TagAll(arrivals[0].0, arrivals[0].1)) == arrivals[0].1;
      assert Untag(Spread(arrivals)) == arrivals[0].1 + Untag(Spread(arrivals[1..]));
    }
  }

  function Contents<T>(queues: seq<seq<seq<T>>>): (r: seq<seq<T>>)
    ensures |r| == |queues|
  {
    seq(|queues|, i requires 0 <= i < |queues| => Flatten(queues[i]))
  }

  /** If the messages interleave, so do the records they carry. */
  lemma SpreadInterleaves<T>(arrivals: seq<(nat, seq<T>)>, queues: seq<seq<seq<T>>>)
    requires Interleaves(arrivals, queues)
    ensures Interleaves(Spread(arrivals), Contents(queues))
  {
    SpreadTags(arrivals, |queues|);
    forall s | 0 <= s < |queues|
      ensures Project(Spread(arrivals), s) == Contents(queues)[s]
    {
      ProjectSpread(arrivals, s);
      assert Project(arrivals, s) == queues[s];
    }
  }
}
