/** Data on which a threshold loses a record. */
module TputLosses {
  import opened Ordering
  import opened Aggregation
  import opened Tput

  /** Every set of source memories has a run. */
  lemma SomeRun(q: Query, threshold: nat, locals: seq<seq<Record>>, le: (Record, Record) -> bool)
    returns (partial: seq<Record>, final: seq<Record>)
    requires Refines(q, le)
    ensures Run(q, threshold, locals, partial, final, le)
  {
    var sums := SequenceOf(RecordsOf(Aggregate(q.funcs, Flatten(Phase1Sent(q, locals)))));
    assert TotalPreorder(q.Before);
    partial := Sort(q.Before, sums);
    SortListing(q.Before, sums);
    var found := SequenceOf(RecordsOf(Aggregate(q.funcs,
      Flatten(Phase3Sent(Candidates(q, threshold, locals), locals)))));
    final := Sort(le, found);
    SortListing(le, found);
  }

  // ----- when a record is lost

  /** Records of the keys `ahead` may sort before the others, whose partial sums are all the bottom. */
  ghost predicate BottomAt(q: Query, locals: seq<seq<Record>>, bottom: nat, ahead: set<Key>) {
    var sent := Flatten(Phase1Sent(q, locals));
    && (forall k | k in Aggregate(q.funcs, sent) ::
          q.Within(Total(q, sent, k), bottom) && (k in ahead || Total(q, sent, k) == bottom))
    && (exists k :: k in Aggregate(q.funcs, sent) && Total(q, sent, k) == bottom)
  }

  lemma BottomFrom(q: Query, locals: seq<seq<Record>>, sent: seq<Record>, bottom: nat, ahead: set<Key>, last: Key)
    requires sent == Flatten(Phase1Sent(q, locals))
    requires forall k | k in KeysOf(sent) ::
      q.Within(Total(q, sent, k), bottom) && (k in ahead || Total(q, sent, k) == bottom)
    requires last in KeysOf(sent) && Total(q, sent, last) == bottom
    ensures BottomAt(q, locals, bottom, ahead)
  {
    KeysWritten(q.funcs, sent);
  }

  lemma PartialValue(q: Query, locals: seq<seq<Record>>, partial: seq<Record>, i: nat)
    requires q.Enabled() && PartialListing(q, locals, partial) && i < |partial|
    ensures var sent := Flatten(Phase1Sent(q, locals)); var k := partial[i].key;
      k in Aggregate(q.funcs, sent) && q.Value(partial[i]) == Total(q, sent, k)
  {
    var sent := Flatten(Phase1Sent(q, locals));
    assert partial[i] in multiset(partial);
    assert partial[i] in RecordsOf(Aggregate(q.funcs, sent));
    AggregateTotal(q, sent, partial[i].key);
  }

  /** Values within a bound, in sort order, and one that is the bound: the last one is the bound. */
  lemma LastIsBound(q: Query, s: seq<Record>, bottom: nat, i: nat)
    requires SortedBy(q.Before, s) && i < |s| && q.Value(s[i]) == bottom
    requires q.Within(q.Value(s[|s| - 1]), bottom)
    ensures q.Value(s[|s| - 1]) == bottom
  {
    assert i == |s| - 1 || q.Before(s[i], s[|s| - 1]);
  }

  /** Values that are the bound but for fewer than `n` keys: the one in place `n` is the bound. */
  lemma NthIsBound(q: Query, s: seq<Record>, bottom: nat, n: nat, ahead: set<Key>)
    requires SortedBy(q.Before, s) && DistinctKeys(s) && |ahead| < n <= |s|
    requires forall i | 0 <= i < |s| ::
      q.Within(q.Value(s[i]), bottom) && (s[i].key in ahead || q.Value(s[i]) == bottom)
    ensures q.Value(s[n - 1]) == bottom
  {
    var top := s[..n];
    KeysOfSize(top);
    if KeysOf(top) <= ahead {
      SubsetSize(KeysOf(top), ahead);
    } else {
      var k :| k in KeysOf(top) && k !in ahead;
      var r :| r in top && r.key == k;
      var i :| 0 <= i < n && top[i] == r;
      assert i == n - 1 || q.Before(s[i], s[n - 1]);
    }
  }

  lemma PartialValues(q: Query, locals: seq<seq<Record>>, partial: seq<Record>, bottom: nat, ahead: set<Key>)
    requires q.Enabled() && PartialListing(q, locals, partial) && BottomAt(q, locals, bottom, ahead)
    ensures forall i | 0 <= i < |partial| ::
      q.Within(q.Value(partial[i]), bottom) && (partial[i].key in ahead || q.Value(partial[i]) == bottom)
  {
    forall i | 0 <= i < |partial|
      ensures q.Within(q.Value(partial[i]), bottom) && (partial[i].key in ahead || q.Value(partial[i]) == bottom)
    {
      PartialValue(q, locals, partial, i);
    }
  }

  lemma BottomIs(q: Query, locals: seq<seq<Record>>, partial: seq<Record>, bottom: nat, ahead: set<Key>)
    requires q.Enabled() && PartialListing(q, locals, partial)
    requires BottomAt(q, locals, bottom, ahead) && |ahead| < q.limit
    ensures Bottom(q, partial) == bottom
  {
    ListingDistinct(partial, Aggregate(q.funcs, Flatten(Phase1Sent(q, locals))));
    PartialValues(q, locals, partial, bottom, ahead);
    var i := BoundReached(q, locals, partial, bottom, ahead);
    if |partial| < q.limit {
      LastIsBound(q, partial, bottom, i);
    } else {
      NthIsBound(q, partial, bottom, q.limit, ahead);
    }
  }

  lemma BoundReached(q: Query, locals: seq<seq<Record>>, partial: seq<Record>, bottom: nat, ahead: set<Key>)
    returns (i: nat)
    requires q.Enabled() && PartialListing(q, locals, partial) && BottomAt(q, locals, bottom, ahead)
    ensures i < |partial| && q.Value(partial[i]) == bottom
  {
    var sent := Flatten(Phase1Sent(q, locals));
    var sums := Aggregate(q.funcs, sent);
    var k :| k in sums && Total(q, sent, k) == bottom;
    ListingDistinct(partial, sums);
    assert k in KeysOf(partial);
    var r :| r in partial && r.key == k;
    i :| 0 <= i < |partial| && partial[i] == r;
    PartialValue(q, locals, partial, i);
  }

  /** No record but those of `ahead` sorts before the one of `lost` or ties with it. */
  ghost predicate NearTop(q: Query, full: Memory, le: (Record, Record) -> bool, lost: Key, ahead: set<Key>) {
    && lost in full
    && forall k | k in full && k != lost && k !in ahead :: !le(Record(k, full[k]), Record(lost, full[lost]))
  }

  /** A record among the first that is no candidate makes the answer wrong. */
  lemma LostRecord(q: Query, threshold: nat, locals: seq<seq<Record>>, partial: seq<Record>, final: seq<Record>,
                   le: (Record, Record) -> bool, lost: Key, ahead: set<Key>)
    requires q.limit > |ahead| && Run(q, threshold, locals, partial, final, le)
    requires NearTop(q, Aggregate(q.funcs, Flatten(locals)), le, lost, ahead)
    requires lost !in Candidates(q, threshold, locals)
    ensures !Exact(q, locals, final, le)
  {
    var full := Aggregate(q.funcs, Flatten(locals));
    forall l: seq<Record> | Listing(le, l, multiset(RecordsOf(full)))
      ensures Cut(l, q.limit) != Cut(final, q.limit)
    {
      var r := PrintedFirst(q, full, l, le, lost, ahead);
      NotPrinted(q, threshold, locals, partial, final, le, lost);
      assert r in Cut(l, q.limit);
    }
  }

  lemma PrintedFirst(q: Query, full: Memory, l: seq<Record>, le: (Record, Record) -> bool, lost: Key, ahead: set<Key>)
    returns (r: Record)
    requires q.limit > |ahead| && Listing(le, l, multiset(RecordsOf(full))) && NearTop(q, full, le, lost, ahead)
    ensures r in Cut(l, q.limit) && r.key == lost
  {
    r := Record(lost, full[lost]);
    assert r in multiset(l);
    var i :| 0 <= i < |l| && l[i] == r;
    ListingDistinct(l, full);
    forall j | 0 <= j < i
      ensures l[j].key in ahead
    {
      assert l[j] in multiset(l);
      assert le(l[j], l[i]);
    }
    KeysOfSize(l[..i]);
    SubsetSize(KeysOf(l[..i]), ahead);
    assert Cut(l, q.limit)[i] == r;
  }

  lemma NotPrinted(q: Query, threshold: nat, locals: seq<seq<Record>>, partial: seq<Record>, final: seq<Record>,
                   le: (Record, Record) -> bool, lost: Key)
    requires Run(q, threshold, locals, partial, final, le) && lost !in Candidates(q, threshold, locals)
    ensures forall r: Record | r in Cut(final, q.limit) :: r.key != lost
  {
    var cands := Candidates(q, threshold, locals);
    Phase3Exact(q, locals, cands, lost);
    forall r: Record | r in Cut(final, q.limit)
      ensures r.key != lost
    {
      assert r in final && r in multiset(final);
    }
  }

  /** A key is no candidate if its sources have something else within the threshold to send. */
  lemma NotCandidate(q: Query, threshold: nat, locals: seq<seq<Record>>, lost: Key)
    requires forall i, r | 0 <= i < |locals| && r in locals[i] && r.key == lost :: !q.Within(q.Value(r), threshold)
    requires forall i, r | 0 <= i < |locals| && r in locals[i] && r.key == lost ::
      q.Within(q.Value(locals[i][0]), threshold)
    ensures lost !in Candidates(q, threshold, locals)
  {
    var sent := Phase2Sent(q, threshold, locals);
    forall r: Record | r in Flatten(sent)
      ensures r.key != lost
    {
      FlattenMember(sent, r);
      var i :| 0 <= i < |sent| && r in sent[i];
      var c := ThresholdCount(q, threshold, locals[i]);
      assert r in locals[i];
      assert c > 0 ==> forall j | 0 <= j < |sent[i]| :: q.Within(q.Value(sent[i][j]), threshold);
    }
  }

  // ----- an order that prefers one key among ties

  function Prefer(q: Query, lost: Key): (Record, Record) -> bool {
    (a: Record, b: Record) => q.Before(a, b) && (q.Before(b, a) ==> a.key == lost || b.key != lost)
  }

  lemma PreferRefines(q: Query, lost: Key)
    ensures Refines(q, Prefer(q, lost))
  {
    assert forall a, b :: Prefer(q, lost)(a, b) || Prefer(q, lost)(b, a);
  }

  /** With that order it is enough that no other record sorts strictly before. */
  lemma PreferNearTop(q: Query, s: seq<Record>, lost: Key, ahead: set<Key>)
    requires q.Enabled() && lost in Aggregate(q.funcs, s)
    requires forall k | k in Aggregate(q.funcs, s) && k != lost && k !in ahead ::
      q.Within(Total(q, s, lost), Total(q, s, k))
    ensures NearTop(q, Aggregate(q.funcs, s), Prefer(q, lost), lost, ahead)
  {
    var full := Aggregate(q.funcs, s);
    forall k | k in full && k != lost && k !in ahead
      ensures !Prefer(q, lost)(Record(k, full[k]), Record(lost, full[lost]))
    {
      AggregateTotal(q, s, k);
      AggregateTotal(q, s, lost);
    }
  }

  /** With any order it is enough that every other record sorts strictly after. */
  lemma StrictNearTop(q: Query, s: seq<Record>, le: (Record, Record) -> bool, lost: Key, ahead: set<Key>)
    requires q.Enabled() && Refines(q, le) && lost in Aggregate(q.funcs, s)
    requires forall k | k in Aggregate(q.funcs, s) && k != lost && k !in ahead ::
      !q.Within(Total(q, s, k), Total(q, s, lost))
    ensures NearTop(q, Aggregate(q.funcs, s), le, lost, ahead)
  {
    var full := Aggregate(q.funcs, s);
    forall k | k in full && k != lost && k !in ahead
      ensures !le(Record(k, full[k]), Record(lost, full[lost]))
    {
      AggregateTotal(q, s, k);
      AggregateTotal(q, s, lost);
      assert !q.Before(Record(k, full[k]), Record(lost, full[lost]));
    }
  }

  // ----- sources that hold nothing

  function Padded(front: seq<seq<Record>>, sources: nat): (r: seq<seq<Record>>)
    requires |front| <= sources
    ensures |r| == sources
  {
    front + seq(sources - |front|, _ => [])
  }

  lemma {:induction false} FlattenPadded(front: seq<seq<Record>>, sources: nat)
    requires |front| <= sources
    ensures Flatten(Padded(front, sources)) == Flatten(front)
    decreases sources - |front|
  {
    if |front| < sources {
      assert Padded(front + [[]], sources) == Padded(front, sources);
      FlattenPadded(front + [[]], sources);
      FlattenAppend(front, [[]]);
      var nothing: seq<Record> := [];
      FlattenOne(nothing);
    } else {
      assert Padded(front, sources) == front;
    }
  }

  lemma LocalsPadded(q: Query, front: seq<seq<Record>>, sources: nat)
    requires |front| <= sources && Locals(q, front)
    ensures Locals(q, Padded(front, sources))
  {
    forall i | 0 <= i < sources
      ensures Local(q, Padded(front, sources)[i])
    {
      if i < |front| {
        assert Local(q, front[i]);
      }
    }
  }

  lemma Phase1Padded(q: Query, front: seq<seq<Record>>, sources: nat)
    requires |front| <= sources
    ensures Phase1Sent(q, Padded(front, sources)) == Padded(Phase1Sent(q, front), sources)
  {
  }

  /** A record with the given sort value. */
  function Valued(q: Query, key: nat, v: nat): (r: Record)
    ensures q.Value(r) == v
  {
    match q.sort
    case InKey(i) => Record(seq(i + 1, _ => v), [])
    case InVals(i) => Record([key], seq(i + 1, _ => v))
  }

  lemma ValuedDiffer(q: Query, k: nat, v: nat, k': nat, v': nat)
    requires k != k' && (q.sort.InKey? ==> v != v')
    ensures Valued(q, k, v).key != Valued(q, k', v').key
  {
    if q.sort.InKey? {
      assert Valued(q, k, v).key[q.sort.pos] != Valued(q, k', v').key[q.sort.pos];
    } else {
      assert [k][0] != [k'][0];
    }
  }

  /** Keys of a memory are keys of the records written. */
  lemma KeysWritten(fs: seq<AggrFunc>, s: seq<Record>)
    ensures Aggregate(fs, s).Keys == KeysOf(s)
  {
    forall k
      ensures k in Aggregate(fs, s) <==> k in KeysOf(s)
    {
      AggregateMember(fs, s, k);
    }
  }

  // ----- one source holds two records and only the first is within the threshold

  function LosingSecond(q: Query, sources: nat, near: nat, far: nat): (r: seq<seq<Record>>)
    requires sources > 0
    ensures |r| == sources
  {
    Padded([[Valued(q, 0, near), Valued(q, 1, far)]], sources)
  }

  lemma SecondTotals(q: Query, near: nat, far: nat)
    requires q.Enabled() && near != far
    ensures var a, b := Valued(q, 0, near), Valued(q, 1, far);
      && a.key != b.key && KeysOf([a, b]) == {a.key, b.key}
      && Total(q, [a, b], a.key) == near && Total(q, [a, b], b.key) == far
  {
    var a, b := Valued(q, 0, near), Valued(q, 1, far);
    var both := [a, b];
    ValuedDiffer(q, 0, near, 1, far);
    assert both[0] == a && both[1] == b && both[1..] == [b] && [b][1..] == [];
    assert forall r | r in both :: r == a || r == b;
    if q.sort.InVals? {
      var pos := q.sort.pos;
      assert Volume(pos, a.key, [b]) == 0 && Volume(pos, b.key, [b]) == far;
    }
  }

  lemma LosesSecond(q: Query, sources: nat, near: nat, far: nat, threshold: nat, partial: seq<Record>,
                    final: seq<Record>,
                    le: (Record, Record) -> bool)
    requires q.Enabled() && q.limit >= 2 && sources > 0
    requires q.Within(near, threshold) && !q.Within(far, threshold)
    requires Run(q, threshold, LosingSecond(q, sources, near, far), partial, final, le)
    ensures Locals(q, LosingSecond(q, sources, near, far)) && Bottom(q, partial) == far
    ensures !Exact(q, LosingSecond(q, sources, near, far), final, le)
  {
    var lost, ahead := Valued(q, 1, far).key, {Valued(q, 0, near).key};
    SecondData(q, sources, near, far);
    BottomIs(q, LosingSecond(q, sources, near, far), partial, far, ahead);
    SecondNoCandidate(q, sources, near, far, threshold);
    LostRecord(q, threshold, LosingSecond(q, sources, near, far), partial, final, le, lost, ahead);
  }

  lemma SecondData(q: Query, sources: nat, near: nat, far: nat)
    requires q.Enabled() && q.limit >= 2 && sources > 0 && near != far && q.Within(near, far)
    ensures var locals := LosingSecond(q, sources, near, far);
      && Locals(q, locals) && BottomAt(q, locals, far, {Valued(q, 0, near).key})
      && Aggregate(q.funcs, Flatten(locals)).Keys == {Valued(q, 0, near).key, Valued(q, 1, far).key}
  {
    var both := [Valued(q, 0, near), Valued(q, 1, far)];
    SecondTotals(q, near, far);
    assert Local(q, both);
    LocalsPadded(q, [both], sources);
    FlattenPadded([both], sources);
    FlattenOne(both);
    assert Phase1Sent(q, LosingSecond(q, sources, near, far)) == LosingSecond(q, sources, near, far);
    KeysWritten(q.funcs, both);
  }

  lemma SecondNoCandidate(q: Query, sources: nat, near: nat, far: nat, threshold: nat)
    requires q.Enabled() && sources > 0 && q.Within(near, threshold) && !q.Within(far, threshold)
    ensures Valued(q, 1, far).key !in Candidates(q, threshold, LosingSecond(q, sources, near, far))
  {
    SecondTotals(q, near, far);
    NotCandidate(q, threshold, LosingSecond(q, sources, near, far), Valued(q, 1, far).key);
  }

  // ----- volumes of given records

  lemma VolumeOne(q: Query, key: nat, v: nat, k: nat)
    requires q.sort.InVals?
    ensures Volume(q.sort.pos, [k], [Valued(q, key, v)]) == if k == key then v else 0
  {
    var one := [Valued(q, key, v)];
    assert one[1..] == [];
    assert [key] == [k] <==> [key][0] == [k][0];
  }

  lemma {:induction false} VolumeZero(pos: nat, k: Key, s: seq<Record>)
    requires forall r | r in s :: r.key == k ==> At(r.vals, pos) == 0
    ensures Volume(pos, k, s) == 0
  {
    if |s| > 0 {
      VolumeZero(pos, k, s[1..]);
    }
  }

  // ----- descending, several records wanted: the parts of the lost sum are all below the threshold

  /** Every source holds key 0 with the same large value; `b` is split over them for key 1. */
  function EvenSources(q: Query, m: nat, b: nat, cap: nat, v: nat): (r: seq<seq<Record>>)
    ensures |r| == m
  {
    if m == 0 then []
    else
      var part := if b <= cap then b else cap;
      [[Valued(q, 0, v), Valued(q, 1, part)]] + EvenSources(q, m - 1, b - part, cap, v)
  }

  lemma {:induction false} EvenShape(q: Query, m: nat, b: nat, cap: nat, v: nat, i: nat)
    requires i < m
    ensures var s := EvenSources(q, m, b, cap, v)[i];
      |s| == 2 && s[0] == Valued(q, 0, v) && q.Value(s[1]) <= cap && s[1] == Valued(q, 1, q.Value(s[1]))
  {
    if i > 0 {
      var part := if b <= cap then b else cap;
      EvenShape(q, m - 1, b - part, cap, v, i - 1);
    }
  }

  lemma {:induction false} EvenVolume(q: Query, m: nat, b: nat, cap: nat, v: nat)
    requires q.sort.InVals? && b <= m * cap
    ensures Volume(q.sort.pos, [1], Flatten(EvenSources(q, m, b, cap, v))) == b
  {
    if m > 0 {
      var part := if b <= cap then b else cap;
      var first := [Valued(q, 0, v), Valued(q, 1, part)];
      var rest := EvenSources(q, m - 1, b - part, cap, v);
      OneMore(m - 1, cap);
      EvenVolume(q, m - 1, b - part, cap, v);
      assert first == [Valued(q, 0, v)] + [Valued(q, 1, part)];
      VolumeAppend(q.sort.pos, [1], [Valued(q, 0, v)], [Valued(q, 1, part)]);
      VolumeOne(q, 0, v, 1);
      VolumeOne(q, 1, part, 1);
      VolumeAppend(q.sort.pos, [1], first, Flatten(rest));
    }
  }

  lemma EvenData(q: Query, m: nat, b: nat, t: nat)
    requires q.Enabled() && q.sort.InVals? && q.dir.Desc? && q.limit >= 2 && m > 0 && t > 0 && b <= m * (t - 1)
    ensures var locals := EvenSources(q, m, b, t - 1, t + b);
      Locals(q, locals) && Phase1Sent(q, locals) == locals && KeysOf(Flatten(locals)) == {[0], [1]}
  {
    var locals := EvenSources(q, m, b, t - 1, t + b);
    ValuedDiffer(q, 0, 0, 1, 0);
    forall i | 0 <= i < m
      ensures Local(q, locals[i]) && |locals[i]| == 2 && KeysOf(locals[i]) == {[0], [1]}
    {
      EvenShape(q, m, b, t - 1, t + b, i);
      assert locals[i][0] in locals[i] && locals[i][1] in locals[i];
    }
    KeysOfFlatten(locals, {[0], [1]});
  }

  lemma KeysOfFlatten(ss: seq<seq<Record>>, keys: set<Key>)
    requires |ss| > 0 && forall i | 0 <= i < |ss| :: KeysOf(ss[i]) == keys
    ensures KeysOf(Flatten(ss)) == keys
  {
    forall k | k in KeysOf(Flatten(ss))
      ensures k in keys
    {
      var r :| r in Flatten(ss) && r.key == k;
      FlattenMember(ss, r);
      var i :| 0 <= i < |ss| && r in ss[i];
      assert k in KeysOf(ss[i]);
    }
    forall k | k in KeysOf(ss[0])
      ensures k in KeysOf(Flatten(ss))
    {
      var r :| r in ss[0] && r.key == k;
      FlattenMember(ss, r);
    }
  }

  lemma LosesEven(q: Query, m: nat, b: nat, t: nat, partial: seq<Record>, final: seq<Record>,
                  le: (Record, Record) -> bool)
    requires q.Enabled() && q.sort.InVals? && q.dir.Desc? && q.limit >= 2 && m > 0 && t > 0 && b <= m * (t - 1)
    requires Run(q, t, EvenSources(q, m, b, t - 1, t + b), partial, final, le)
    ensures var locals := EvenSources(q, m, b, t - 1, t + b);
      Locals(q, locals) && Bottom(q, partial) == b && !Exact(q, locals, final, le)
  {
    var locals := EvenSources(q, m, b, t - 1, t + b);
    EvenData(q, m, b, t);
    EvenBottom(q, m, b, t);
    KeysWritten(q.funcs, Flatten(locals));
    BottomIs(q, locals, partial, b, {[0]});
    EvenNoCandidate(q, m, b, t);
    LostRecord(q, t, locals, partial, final, le, [1], {[0]});
  }

  lemma EvenTotals(q: Query, m: nat, b: nat, t: nat)
    requires q.sort.InVals? && m > 0 && t > 0 && b <= m * (t - 1)
    ensures var sent := Flatten(EvenSources(q, m, b, t - 1, t + b));
      Total(q, sent, [1]) == b && Total(q, sent, [0]) >= t + b
  {
    var locals := EvenSources(q, m, b, t - 1, t + b);
    EvenVolume(q, m, b, t - 1, t + b);
    EvenShape(q, m, b, t - 1, t + b, 0);
    VolumeAtLeast(q.sort.pos, locals, 0, locals[0][0]);
  }

  lemma EvenBottom(q: Query, m: nat, b: nat, t: nat)
    requires q.Enabled() && q.sort.InVals? && q.dir.Desc? && q.limit >= 2 && m > 0 && t > 0 && b <= m * (t - 1)
    ensures BottomAt(q, EvenSources(q, m, b, t - 1, t + b), b, {[0]})
  {
    var locals := EvenSources(q, m, b, t - 1, t + b);
    var sent := Flatten(locals);
    EvenData(q, m, b, t);
    EvenTotals(q, m, b, t);
    BottomFrom(q, locals, sent, b, {[0]}, [1]);
  }

  lemma EvenNoCandidate(q: Query, m: nat, b: nat, t: nat)
    requires q.sort.InVals? && q.dir.Desc? && t > 0
    ensures [1] !in Candidates(q, t, EvenSources(q, m, b, t - 1, t + b))
  {
    var locals := EvenSources(q, m, b, t - 1, t + b);
    assert [0][0] != [1][0];
    forall i, r: Record | 0 <= i < |locals| && r in locals[i] && r.key == [1]
      ensures !q.Within(q.Value(r), t) && q.Within(q.Value(locals[i][0]), t)
    {
      EvenShape(q, m, b, t - 1, t + b, i);
    }
    NotCandidate(q, t, locals, [1]);
  }

  // ----- descending, one record wanted: every source's first record hides the lost one

  function TopSources(q: Query, m: nat, b: nat, rest: seq<Record>): (r: seq<seq<Record>>)
    ensures |r| == m
    ensures forall i | 0 <= i < m :: r[i] == [Valued(q, i + 1, b)] + rest
  {
    if m == 0 then [] else TopSources(q, m - 1, b, rest) + [[Valued(q, m, b)] + rest]
  }

  lemma {:induction false} TopVolume(q: Query, m: nat, b: nat, rest: seq<Record>, j: nat)
    requires q.sort.InVals? && forall r | r in rest :: r.key == [0]
    ensures Volume(q.sort.pos, [j], Flatten(TopSources(q, m, b, rest))) ==
      if j == 0 then m * Volume(q.sort.pos, [0], rest) else if j <= m then b else 0
  {
    if m > 0 {
      var last := [Valued(q, m, b)] + rest;
      TopVolume(q, m - 1, b, rest, j);
      FlattenAppend(TopSources(q, m - 1, b, rest), [last]);
      FlattenOne(last);
      VolumeAppend(q.sort.pos, [j], Flatten(TopSources(q, m - 1, b, rest)), last);
      VolumeAppend(q.sort.pos, [j], [Valued(q, m, b)], rest);
      VolumeOne(q, m, b, j);
      OneMore(m - 1, Volume(q.sort.pos, [0], rest));
      if j > 0 {
        assert [j][0] != [0][0];
        VolumeZero(q.sort.pos, [j], rest);
      }
    }
  }

  lemma TopKeys(q: Query, m: nat, b: nat, rest: seq<Record>, k: Key)
    requires q.sort.InVals? && (forall r | r in rest :: r.key == [0]) && k in KeysOf(Flatten(TopSources(q, m, b, rest)))
    ensures k == [0] || exists j: nat :: 0 < j <= m && k == [j]
    ensures rest == [] ==> exists j: nat :: 0 < j <= m && k == [j]
  {
    var sources := TopSources(q, m, b, rest);
    var r: Record :| r in Flatten(sources) && r.key == k;
    FlattenMember(sources, r);
    var i :| 0 <= i < |sources| && r in sources[i];
    if r !in rest {
      assert r == Valued(q, i + 1, b);
      assert k == [i + 1];
    }
  }

  lemma TopBottom(q: Query, m: nat, b: nat, rest: seq<Record>)
    requires q.Enabled() && q.sort.InVals? && q.limit == 1 && m > 0 && forall r | r in rest :: r.key == [0]
    ensures BottomAt(q, TopSources(q, m, b, rest), b, {})
  {
    var locals, tops := TopSources(q, m, b, rest), TopSources(q, m, b, []);
    forall i | 0 <= i < m
      ensures Phase1Sent(q, locals)[i] == tops[i]
    {
      assert locals[i][..1] == [Valued(q, i + 1, b)] == tops[i];
    }
    assert Phase1Sent(q, locals) == tops;
    var sent := Flatten(tops);
    KeysWritten(q.funcs, sent);
    forall k | k in Aggregate(q.funcs, sent)
      ensures Total(q, sent, k) == b
    {
      TopKeys(q, m, b, [], k);
      var j: nat :| 0 < j <= m && k == [j];
      TopVolume(q, m, b, [], j);
    }
    var first := Valued(q, 1, b);
    assert tops[0] == [first] + [] && first in tops[0];
    FlattenMember(tops, first);
    assert first.key in KeysOf(sent);
  }

  lemma TopData(q: Query, m: nat, b: nat, t: nat)
    requires q.Enabled() && q.sort.InVals? && q.dir.Desc? && q.limit == 1 && m > 0 && 0 < t <= b && b <= m * (t - 1)
    ensures var locals := TopSources(q, m, b, [Valued(q, 0, t - 1)]);
      && Locals(q, locals) && [0] !in Candidates(q, t, locals)
      && NearTop(q, Aggregate(q.funcs, Flatten(locals)), Prefer(q, [0]), [0], {})
  {
    var x := Valued(q, 0, t - 1);
    var locals := TopSources(q, m, b, [x]);
    forall i | 0 <= i < m
      ensures Local(q, locals[i]) && locals[i][0].key != [0] && locals[i] == [Valued(q, i + 1, b), x]
    {
      ValuedDiffer(q, i + 1, b, 0, t - 1);
    }
    forall i, r: Record | 0 <= i < m && r in locals[i] && r.key == [0]
      ensures r == x
    {
      assert r == Valued(q, i + 1, b) || r == x;
    }
    NotCandidate(q, t, locals, [0]);
    TopNearTop(q, m, b, t);
  }

  lemma TopNearTop(q: Query, m: nat, b: nat, t: nat)
    requires q.Enabled() && q.sort.InVals? && q.dir.Desc? && m > 0 && 0 < t && b <= m * (t - 1)
    ensures NearTop(q, Aggregate(q.funcs, Flatten(TopSources(q, m, b, [Valued(q, 0, t - 1)]))), Prefer(q, [0]), [0], {})
  {
    var all := Flatten(TopSources(q, m, b, [Valued(q, 0, t - 1)]));
    TopTotals(q, m, b, t);
    KeysWritten(q.funcs, all);
    PreferNearTop(q, all, [0], {});
  }

  lemma TopTotals(q: Query, m: nat, b: nat, t: nat)
    requires q.sort.InVals? && m > 0 && 0 < t
    ensures var all := Flatten(TopSources(q, m, b, [Valued(q, 0, t - 1)]));
      && [0] in KeysOf(all) && Total(q, all, [0]) == m * (t - 1)
      && forall k | k in KeysOf(all) && k != [0] :: Total(q, all, k) == b
  {
    var x := Valued(q, 0, t - 1);
    var locals := TopSources(q, m, b, [x]);
    var all := Flatten(locals);
    VolumeOne(q, 0, t - 1, 0);
    TopVolume(q, m, b, [x], 0);
    assert x in locals[0];
    FlattenMember(locals, x);
    assert x.key in KeysOf(all);
    forall k | k in KeysOf(all) && k != [0]
      ensures Total(q, all, k) == b
    {
      TopKeys(q, m, b, [x], k);
      var j: nat :| 0 < j <= m && k == [j];
      TopVolume(q, m, b, [x], j);
    }
  }

  lemma LosesTop(q: Query, m: nat, b: nat, t: nat, partial: seq<Record>, final: seq<Record>)
    requires q.Enabled() && q.sort.InVals? && q.dir.Desc? && q.limit == 1 && m > 0 && 0 < t <= b && b <= m * (t - 1)
    requires Run(q, t, TopSources(q, m, b, [Valued(q, 0, t - 1)]), partial, final, Prefer(q, [0]))
    ensures var locals := TopSources(q, m, b, [Valued(q, 0, t - 1)]);
      Locals(q, locals) && Bottom(q, partial) == b && !Exact(q, locals, final, Prefer(q, [0]))
  {
    var locals := TopSources(q, m, b, [Valued(q, 0, t - 1)]);
    TopData(q, m, b, t);
    TopBottom(q, m, b, [Valued(q, 0, t - 1)]);
    BottomIs(q, locals, partial, b, {});
    LostRecord(q, t, locals, partial, final, Prefer(q, [0]), [0], {});
  }

  // ----- ascending by a volume: no threshold suffices for more than one source

  /** The first source has a record just beyond the threshold and one below it, which others add to. */
  function LosingThin(q: Query, m: nat, b: nat, t: nat): (r: seq<seq<Record>>)
    requires m >= 2
    ensures |r| == m
  {
    Padded([[Valued(q, 0, 0), Valued(q, 1, t + 1)], [Valued(q, 0, b)]], m)
  }

  lemma ThinData(q: Query, m: nat, b: nat, t: nat)
    requires q.Enabled() && q.sort.InVals? && q.dir.Asc? && q.limit == 1 && m >= 2 && t < b
    ensures var locals := LosingThin(q, m, b, t);
      && Locals(q, locals) && [1] !in Candidates(q, t, locals)
      && BottomAt(q, locals, b, {})
      && NearTop(q, Aggregate(q.funcs, Flatten(locals)), Prefer(q, [1]), [1], {})
  {
    var k, x, k' := Valued(q, 0, 0), Valued(q, 1, t + 1), Valued(q, 0, b);
    var front := [[k, x], [k']];
    ValuedDiffer(q, 0, 0, 1, t + 1);
    assert Local(q, [k, x]) && Local(q, [k']);
    LocalsPadded(q, front, m);
    var locals := LosingThin(q, m, b, t);
    forall i, r: Record | 0 <= i < m && r in locals[i] && r.key == [1]
      ensures i == 0 && r == x
    {
    }
    NotCandidate(q, t, locals, [1]);
    ThinBottom(q, m, b, t);
    ThinNearTop(q, m, b, t);
  }

  lemma ThinBottom(q: Query, m: nat, b: nat, t: nat)
    requires q.Enabled() && q.sort.InVals? && q.dir.Asc? && q.limit == 1 && m >= 2
    ensures BottomAt(q, LosingThin(q, m, b, t), b, {})
  {
    var k, x, k' := Valued(q, 0, 0), Valued(q, 1, t + 1), Valued(q, 0, b);
    var front, tops := [[k, x], [k']], [[k], [k']];
    assert Cut([k, x], 1) == [k] && Cut([k'], 1) == [k'];
    assert Phase1Sent(q, front) == tops;
    Phase1Padded(q, front, m);
    FlattenPadded(tops, m);
    FlattenTwo([k], [k']);
    var sent := [k] + [k'];
    VolumeAppend(q.sort.pos, [0], [k], [k']);
    VolumeOne(q, 0, 0, 0);
    VolumeOne(q, 0, b, 0);
    KeysWritten(q.funcs, sent);
    assert sent[0] in sent;
    assert Total(q, sent, [0]) == b;
    assert KeysOf(sent) == {[0]};
  }

  lemma ThinNearTop(q: Query, m: nat, b: nat, t: nat)
    requires q.Enabled() && q.sort.InVals? && q.dir.Asc? && m >= 2 && t < b
    ensures NearTop(q, Aggregate(q.funcs, Flatten(LosingThin(q, m, b, t))), Prefer(q, [1]), [1], {})
  {
    var k, x, k' := Valued(q, 0, 0), Valued(q, 1, t + 1), Valued(q, 0, b);
    FlattenPadded([[k, x], [k']], m);
    FlattenTwo([k, x], [k']);
    var all := [k, x] + [k'];
    assert [k, x] == [k] + [x];
    VolumesOfThree(q, 0, 0, 1, t + 1, 0, b);
    assert all == [k] + [x] + [k'];
    assert all[0] in all && all[1] in all;
    KeysWritten(q.funcs, all);
    assert KeysOf(all) == {[0], [1]};
    PreferNearTop(q, all, [1], {});
  }

  lemma VolumesOfThree(q: Query, k1: nat, v1: nat, k2: nat, v2: nat, k3: nat, v3: nat)
    requires q.sort.InVals?
    ensures var s := [Valued(q, k1, v1)] + [Valued(q, k2, v2)] + [Valued(q, k3, v3)];
      forall k: nat :: (Volume(q.sort.pos, [k], s) ==
                        (if k == k1 then v1 else 0) + (if k == k2 then v2 else 0) + (if k == k3 then v3 else 0))
  {
    var a, b, c := Valued(q, k1, v1), Valued(q, k2, v2), Valued(q, k3, v3);
    forall k: nat
      ensures Volume(q.sort.pos, [k], [a] + [b] + [c]) ==
        (if k == k1 then v1 else 0) + (if k == k2 then v2 else 0) + (if k == k3 then v3 else 0)
    {
      VolumeAppend(q.sort.pos, [k], [a] + [b], [c]);
      VolumeAppend(q.sort.pos, [k], [a], [b]);
      VolumeOne(q, k1, v1, k);
      VolumeOne(q, k2, v2, k);
      VolumeOne(q, k3, v3, k);
    }
  }

  lemma LosesThin(q: Query, m: nat, b: nat, t: nat, partial: seq<Record>, final: seq<Record>)
    requires q.Enabled() && q.sort.InVals? && q.dir.Asc? && q.limit == 1 && m >= 2 && t < b
    requires Run(q, t, LosingThin(q, m, b, t), partial, final, Prefer(q, [1]))
    ensures var locals := LosingThin(q, m, b, t);
      Locals(q, locals) && Bottom(q, partial) == b && !Exact(q, locals, final, Prefer(q, [1]))
  {
    var locals := LosingThin(q, m, b, t);
    ThinData(q, m, b, t);
    BottomIs(q, locals, partial, b, {});
    LostRecord(q, t, locals, partial, final, Prefer(q, [1]), [1], {});
  }

  /** Keys whose volume is zero, one fewer than are wanted. */
  function Zeros(q: Query, n: nat): (r: seq<Record>)
    ensures |r| == n
  {
    seq(n, (j: nat) => Valued(q, j + 3, 0))
  }

  /** Two sources agree on the zeros, and each has a small value of a key that is large at the other;
      the record between small and large is only at the first. */
  function LosingBetween(q: Query, m: nat, b: nat, t: nat): (r: seq<seq<Record>>)
    requires m >= 2 && q.limit > 0
    ensures |r| == m
  {
    var zeros := Zeros(q, q.limit - 1);
    Padded([zeros + [Valued(q, 0, b), Valued(q, 1, t + 1), Valued(q, 2, t + 2)],
      zeros + [Valued(q, 2, b), Valued(q, 0, t + 2)]], m)
  }

  lemma ZerosVolume(q: Query, n: nat, k: Key)
    requires q.sort.InVals?
    ensures Volume(q.sort.pos, k, Zeros(q, n)) == 0
  {
    VolumeZero(q.sort.pos, k, Zeros(q, n));
  }

  lemma LocalBetween(q: Query, n: nat, more: seq<Record>)
    requires q.sort.InVals? && q.dir.Asc? && Local(q, more)
    requires forall r | r in more :: r.key == [0] || r.key == [1] || r.key == [2]
    ensures Local(q, Zeros(q, n) + more)
  {
    var zeros := Zeros(q, n);
    var s := zeros + more;
    assert forall j | 0 <= j < n :: s[j].key[0] == j + 3 && q.Value(s[j]) == 0;
    forall i, j | 0 <= i < j < |s|
      ensures s[i].key != s[j].key && q.Before(s[i], s[j])
    {
      if i < n {
        assert j < n || s[j] in more;
        assert s[j].key[0] != i + 3;
      } else {
        assert s[i] == more[i - n] && s[j] == more[j - n];
      }
    }
  }

  lemma BetweenLocals(q: Query, m: nat, b: nat, t: nat)
    requires q.Enabled() && q.sort.InVals? && q.dir.Asc? && m >= 2 && b <= t
    ensures Locals(q, LosingBetween(q, m, b, t))
  {
    var zeros := Zeros(q, q.limit - 1);
    var left, right := [Valued(q, 0, b), Valued(q, 1, t + 1), Valued(q, 2, t + 2)], [Valued(q, 2, b),
      Valued(q, 0, t + 2)];
    assert [0][0] != [1][0] && [0][0] != [2][0] && [1][0] != [2][0];
    assert Local(q, left) && Local(q, right);
    LocalBetween(q, q.limit - 1, left);
    LocalBetween(q, q.limit - 1, right);
    LocalsPadded(q, [zeros + left, zeros + right], m);
  }

  lemma BetweenNoCandidate(q: Query, m: nat, b: nat, t: nat)
    requires q.Enabled() && q.sort.InVals? && q.dir.Asc? && m >= 2 && b <= t
    ensures [1] !in Candidates(q, t, LosingBetween(q, m, b, t))
  {
    var locals := LosingBetween(q, m, b, t);
    var zeros := Zeros(q, q.limit - 1);
    assert [0][0] != [1][0] && [2][0] != [1][0];
    assert forall j | 0 <= j < |zeros| :: zeros[j].key[0] == j + 3;
    assert [1][0] == 1;
    forall i, r: Record | 0 <= i < m && r in locals[i] && r.key == [1]
      ensures r == Valued(q, 1, t + 1) && q.Value(locals[i][0]) <= t
    {
      assert r !in zeros;
    }
    NotCandidate(q, t, locals, [1]);
  }

  lemma BetweenBottom(q: Query, m: nat, b: nat, t: nat)
    requires q.Enabled() && q.sort.InVals? && q.dir.Asc? && m >= 2 && b <= t
    ensures BottomAt(q, LosingBetween(q, m, b, t), b, KeysOf(Zeros(q, q.limit - 1)))
  {
    var zeros := Zeros(q, q.limit - 1);
    var a, c := Valued(q, 0, b), Valued(q, 2, b);
    var left, right := zeros + [a, Valued(q, 1, t + 1), Valued(q, 2, t + 2)], zeros + [c, Valued(q, 0, t + 2)];
    assert Cut(left, q.limit) == zeros + [a] && Cut(right, q.limit) == zeros + [c];
    assert Phase1Sent(q, [left, right]) == [zeros + [a], zeros + [c]];
    Phase1Padded(q, [left, right], m);
    FlattenPadded([zeros + [a], zeros + [c]], m);
    FlattenTwo(zeros + [a], zeros + [c]);
    BetweenSent(q, b);
    BottomFrom(q, LosingBetween(q, m, b, t), (zeros + [a]) + (zeros + [c]), b, KeysOf(zeros), [0]);
  }

  lemma BetweenSent(q: Query, b: nat)
    requires q.Enabled() && q.sort.InVals? && q.dir.Asc?
    ensures var zeros := Zeros(q, q.limit - 1);
      var sent := (zeros + [Valued(q, 0, b)]) + (zeros + [Valued(q, 2, b)]);
      && (forall k | k in KeysOf(sent) :: Total(q, sent, k) <= b && (k in KeysOf(zeros) || Total(q, sent, k) == b))
      && [0] in KeysOf(sent) && Total(q, sent, [0]) == b
  {
    var zeros := Zeros(q, q.limit - 1);
    var a, c := Valued(q, 0, b), Valued(q, 2, b);
    var sent := (zeros + [a]) + (zeros + [c]);
    SentVolumes(q, b);
    assert sent[q.limit - 1] == a && a in sent;
    forall k | k in KeysOf(sent)
      ensures k in KeysOf(zeros) || k == [0] || k == [2]
    {
      var r :| r in sent && r.key == k;
      assert r in zeros || r == a || r == c;
    }
  }

  lemma SentVolumes(q: Query, b: nat)
    requires q.Enabled() && q.sort.InVals?
    ensures var zeros := Zeros(q, q.limit - 1);
      var sent := (zeros + [Valued(q, 0, b)]) + (zeros + [Valued(q, 2, b)]);
      && Volume(q.sort.pos, [0], sent) == b && Volume(q.sort.pos, [2], sent) == b
      && forall k | k in KeysOf(zeros) :: Volume(q.sort.pos, k, sent) == 0
  {
    var zeros := Zeros(q, q.limit - 1);
    var a, c := Valued(q, 0, b), Valued(q, 2, b);
    forall k: nat
      ensures Volume(q.sort.pos, [k], (zeros + [a]) + (zeros + [c])) == if k == 0 || k == 2 then b else 0
    {
      ZerosVolume(q, q.limit - 1, [k]);
      VolumeAppend(q.sort.pos, [k], zeros + [a], zeros + [c]);
      VolumeAppend(q.sort.pos, [k], zeros, [a]);
      VolumeAppend(q.sort.pos, [k], zeros, [c]);
      VolumeOne(q, 0, b, k);
      VolumeOne(q, 2, b, k);
    }
    forall k | k in KeysOf(zeros)
      ensures exists j: nat :: k == [j] && j >= 3
    {
      var r :| r in zeros && r.key == k;
      var j :| 0 <= j < |zeros| && zeros[j] == r;
      assert k == [j + 3];
    }
  }

  lemma BetweenNearTop(q: Query, m: nat, b: nat, t: nat)
    requires q.Enabled() && q.sort.InVals? && q.dir.Asc? && m >= 2 && b <= t
    ensures NearTop(q, Aggregate(q.funcs, Flatten(LosingBetween(q, m, b, t))), Prefer(q, [1]), [1],
      KeysOf(Zeros(q, q.limit - 1)))
  {
    var zeros := Zeros(q, q.limit - 1);
    var left, right := [Valued(q, 0, b), Valued(q, 1, t + 1), Valued(q, 2, t + 2)], [Valued(q, 2, b),
      Valued(q, 0, t + 2)];
    FlattenPadded([zeros + left, zeros + right], m);
    FlattenTwo(zeros + left, zeros + right);
    var all := (zeros + left) + (zeros + right);
    KeysWritten(q.funcs, all);
    AllVolumes(q, b, t);
    AllKeys(q, b, t);
    PreferNearTop(q, all, [1], KeysOf(zeros));
  }

  lemma AllKeys(q: Query, b: nat, t: nat)
    requires q.limit > 0 && q.sort.InVals?
    ensures var zeros := Zeros(q, q.limit - 1);
      var all := (zeros + [Valued(q, 0, b), Valued(q, 1, t + 1), Valued(q, 2, t + 2)]) +
        (zeros + [Valued(q, 2, b), Valued(q, 0, t + 2)]);
      [1] in KeysOf(all) && forall k | k in KeysOf(all) :: k in KeysOf(zeros) || k == [0] || k == [1] || k == [2]
  {
    var zeros := Zeros(q, q.limit - 1);
    var left, right := [Valued(q, 0, b), Valued(q, 1, t + 1), Valued(q, 2, t + 2)], [Valued(q, 2, b),
      Valued(q, 0, t + 2)];
    var all := (zeros + left) + (zeros + right);
    assert all[|zeros| + 1] == left[1] && left[1] in all && left[1].key in KeysOf(all);
    forall k | k in KeysOf(all)
      ensures k in KeysOf(zeros) || k == [0] || k == [1] || k == [2]
    {
      var r :| r in all && r.key == k;
      assert r in zeros || r in left || r in right;
    }
  }

  lemma AllVolumes(q: Query, b: nat, t: nat)
    requires q.Enabled() && q.sort.InVals?
    ensures var zeros := Zeros(q, q.limit - 1);
      var all := (zeros + [Valued(q, 0, b), Valued(q, 1, t + 1), Valued(q, 2, t + 2)]) +
        (zeros + [Valued(q, 2, b), Valued(q, 0, t + 2)]);
      && Volume(q.sort.pos, [0], all) == Volume(q.sort.pos, [2], all) == b + t + 2 &&
        Volume(q.sort.pos, [1], all) == t + 1
  {
    var zeros := Zeros(q, q.limit - 1);
    var a, x, c, c', a' := Valued(q, 0, b), Valued(q, 1, t + 1), Valued(q, 2, t + 2), Valued(q, 2, b), Valued(q, 0,
      t + 2);
    assert [a, x, c] == [a] + [x] + [c] && [c', a'] == [c'] + [a'];
    VolumesOfThree(q, 0, b, 1, t + 1, 2, t + 2);
    forall k: nat | k < 3
      ensures Volume(q.sort.pos, [k], (zeros + [a, x, c]) + (zeros + [c', a'])) == if k == 1 then t + 1 else b + t + 2
    {
      ZerosVolume(q, q.limit - 1, [k]);
      VolumeAppend(q.sort.pos, [k], zeros + [a, x, c], zeros + [c', a']);
      VolumeAppend(q.sort.pos, [k], zeros, [a, x, c]);
      VolumeAppend(q.sort.pos, [k], zeros, [c', a']);
      VolumeAppend(q.sort.pos, [k], [c'], [a']);
      VolumeOne(q, 2, b, k);
      VolumeOne(q, 0, t + 2, k);
    }
  }

  lemma LosesBetween(q: Query, m: nat, b: nat, t: nat, partial: seq<Record>, final: seq<Record>)
    requires q.Enabled() && q.sort.InVals? && q.dir.Asc? && m >= 2 && b <= t
    requires Run(q, t, LosingBetween(q, m, b, t), partial, final, Prefer(q, [1]))
    ensures var locals := LosingBetween(q, m, b, t);
      Locals(q, locals) && Bottom(q, partial) == b && !Exact(q, locals, final, Prefer(q, [1]))
  {
    var locals, ahead := LosingBetween(q, m, b, t), KeysOf(Zeros(q, q.limit - 1));
    BetweenLocals(q, m, b, t);
    BetweenBottom(q, m, b, t);
    BetweenNearTop(q, m, b, t);
    BetweenNoCandidate(q, m, b, t);
    FewKeys(Zeros(q, q.limit - 1));
    BottomIs(q, locals, partial, b, ahead);
    LostRecord(q, t, locals, partial, final, Prefer(q, [1]), [1], ahead);
  }

  lemma {:induction false} FewKeys(s: seq<Record>)
    ensures |KeysOf(s)| <= |s|
  {
    if |s| == 0 {
      assert KeysOf(s) == {};
    } else {
      FewKeys(s[1..]);
      assert s == [s[0]] + s[1..];
      assert KeysOf(s) == {s[0].key} + KeysOf(s[1..]);
    }
  }
}
