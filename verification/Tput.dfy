/** The three-phase Top-N protocol. Every source is one reader thread of a slave with its own
    aggregation memory; the cursor walks a memory in sort order. */
module Tput {
  import opened Ordering
  import opened Aggregation

  /** Where the sort key lives in a record: it may be one of the aggregation keys, otherwise it is a
      traffic volume, which is always summed. */
  datatype SortField = InKey(pos: nat) | InVals(pos: nat)

  datatype Query = Query(funcs: seq<AggrFunc>, sort: SortField, dir: Direction, limit: nat) {
    /** The protocol is enabled only with a record limit and a traffic volume as the sort key. */
    predicate Enabled() {
      && limit > 0
      && (sort.InVals? ==> sort.pos < |funcs| && funcs[sort.pos] == Sum)
    }

    function Value(r: Record): nat {
      match sort
      case InKey(i) => At(r.key, i)
      case InVals(i) => At(r.vals, i)
    }

    predicate Within(v: nat, bound: nat) {
      match dir
      case Desc => v >= bound
      case Asc => v <= bound
    }

    predicate Before(a: Record, b: Record) {
      Within(Value(a), Value(b))
    }
  }

  /** `le` breaks the ties of the sort value in some way. */
  ghost predicate Refines(q: Query, le: (Record, Record) -> bool) {
    TotalPreorder(le) && forall a, b :: le(a, b) ==> q.Before(a, b)
  }

  ghost predicate DistinctKeys(s: seq<Record>) {
    forall i, j | 0 <= i < j < |s| :: s[i].key != s[j].key
  }

  /** A source's memory as its cursor walks it. */
  ghost predicate Local(q: Query, s: seq<Record>) {
    DistinctKeys(s) && SortedBy(q.Before, s)
  }

  ghost predicate Locals(q: Query, locals: seq<seq<Record>>) {
    forall i | 0 <= i < |locals| :: Local(q, locals[i])
  }

  // ----- phase 1

  function Phase1Sent(q: Query, locals: seq<seq<Record>>): (r: seq<seq<Record>>)
    ensures |r| == |locals|
  {
    seq(|locals|, i requires 0 <= i < |locals| => Cut(locals[i], q.limit))
  }

  /** The value of the record at the limit, of the last one if there are fewer, 0 if there is none. */
  function Bottom(q: Query, partial: seq<Record>): nat
    requires q.limit > 0
  {
    if |partial| == 0 then 0
    else if |partial| < q.limit then q.Value(partial[|partial| - 1])
    else q.Value(partial[q.limit - 1])
  }

  // ----- phase 2

  function CeilDiv(b: nat, m: nat): nat
    requires m > 0
  {
    (b + (m - 1)) / m
  }

  function ThresholdCount(q: Query, threshold: nat, s: seq<Record>): (c: nat)
    ensures c <= |s|
    ensures forall i | 0 <= i < c :: q.Within(q.Value(s[i]), threshold)
    ensures c < |s| ==> !q.Within(q.Value(s[c]), threshold)
  {
    if |s| == 0 || !q.Within(q.Value(s[0]), threshold) then 0
    else 1 + ThresholdCount(q, threshold, s[1..])
  }

  /** A count of zero is taken for "no limit" by the sender. */
  function Phase2Sent(q: Query, threshold: nat, locals: seq<seq<Record>>): (r: seq<seq<Record>>)
    ensures |r| == |locals|
  {
    seq(|locals|, i requires 0 <= i < |locals| => Cut(locals[i], ThresholdCount(q, threshold, locals[i])))
  }

  function KeysOf(s: seq<Record>): set<Key> {
    set r | r in s :: r.key
  }

  function Candidates(q: Query, threshold: nat, locals: seq<seq<Record>>): set<Key> {
    KeysOf(Flatten(Phase2Sent(q, threshold, locals)))
  }

  // ----- phase 3

  function Lookup(keys: set<Key>, s: seq<Record>): seq<Record> {
    if |s| == 0 then []
    else (if s[0].key in keys then [s[0]] else []) + Lookup(keys, s[1..])
  }

  function Phase3Sent(keys: set<Key>, locals: seq<seq<Record>>): (r: seq<seq<Record>>)
    ensures |r| == |locals|
  {
    seq(|locals|, i requires 0 <= i < |locals| => Lookup(keys, locals[i]))
  }

  // ----- whole runs

  /** What a run may show: `partial` is the master's memory after phase 1 and `final` its memory
      after phase 3, each in the order of a cursor; `le` is the order of the last one. The threshold
      is what the master has broadcast after phase 1. */
  ghost predicate Run(q: Query, threshold: nat, locals: seq<seq<Record>>, partial: seq<Record>, final: seq<Record>,
                      le: (Record, Record) -> bool)
  {
    && PartialListing(q, locals, partial)
    && Listing(le, final,
      multiset(RecordsOf(Aggregate(q.funcs, Flatten(Phase3Sent(Candidates(q, threshold, locals), locals))))))
  }

  ghost predicate PartialListing(q: Query, locals: seq<seq<Record>>, partial: seq<Record>) {
    Listing(q.Before, partial, multiset(RecordsOf(Aggregate(q.funcs, Flatten(Phase1Sent(q, locals))))))
  }

  /** What is printed is the top of a listing of the full aggregation of all sources. */
  ghost predicate Exact(q: Query, locals: seq<seq<Record>>, final: seq<Record>, le: (Record, Record) -> bool) {
    exists l :: Listing(le, l, multiset(RecordsOf(Aggregate(q.funcs, Flatten(locals))))) &&
      Cut(l, q.limit) == Cut(final, q.limit)
  }

  /** Adding the other sources to a partial sum does not take it beyond a bound it is within. */
  predicate Monotone(q: Query, sources: nat) {
    q.dir.Desc? || q.sort.InKey? || sources == 1
  }

  /** Thresholds that lose nothing for a bottom, whatever the data. A single record is safe also if no
      source has anything within the threshold, because then all of them send everything. */
  predicate Suffices(q: Query, sources: nat, bottom: nat, threshold: nat)
    requires sources > 0
  {
    && Monotone(q, sources)
    && (|| (q.limit == 1 && !q.Within(bottom, threshold))
        || if q.dir.Desc? && q.sort.InVals? then threshold <= CeilDiv(bottom, sources) else q.Within(bottom, threshold))
  }

  /** Queries and cluster sizes for which the ceiling of the bottom over the sources always suffices. */
  predicate AlwaysExact(q: Query, sources: nat) {
    q.dir.Desc? || sources == 1 || (q.sort.InKey? && q.limit == 1)
  }

  // ----- one key at a time

  function Only(k: Key, s: seq<Record>): seq<Record> {
    if |s| == 0 then []
    else (if s[0].key == k then [s[0]] else []) + Only(k, s[1..])
  }

  lemma {:induction false} OnlyAppend(k: Key, a: seq<Record>, b: seq<Record>)
    ensures Only(k, a + b) == Only(k, a) + Only(k, b)
  {
    if |a| == 0 {
      assert a + b == b;
    } else {
      assert (a + b)[1..] == a[1..] + b;
      OnlyAppend(k, a[1..], b);
      AppendAssociates(if a[0].key == k then [a[0]] else [], Only(k, a[1..]), Only(k, b));
    }
  }

  lemma {:induction false} OnlyMember(k: Key, s: seq<Record>)
    ensures forall r :: r in Only(k, s) <==> r in s && r.key == k
    ensures (forall r | r in s :: r.key != k) ==> Only(k, s) == []
  {
    if |s| > 0 {
      OnlyMember(k, s[1..]);
      assert s == [s[0]] + s[1..];
    }
  }

  lemma {:induction false} OnlyLookup(k: Key, keys: set<Key>, s: seq<Record>)
    requires k in keys
    ensures Only(k, Lookup(keys, s)) == Only(k, s)
  {
    if |s| > 0 {
      OnlyAppend(k, if s[0].key in keys then [s[0]] else [], Lookup(keys, s[1..]));
      OnlyLookup(k, keys, s[1..]);
    }
  }

  lemma {:induction false} OnlyPhase3(k: Key, keys: set<Key>, locals: seq<seq<Record>>)
    requires k in keys
    ensures Only(k, Flatten(Phase3Sent(keys, locals))) == Only(k, Flatten(locals))
  {
    if |locals| > 0 {
      assert Phase3Sent(keys, locals)[1..] == Phase3Sent(keys, locals[1..]);
      OnlyPhase3(k, keys, locals[1..]);
      OnlyLookup(k, keys, locals[0]);
      OnlyAppend(k, locals[0], Flatten(locals[1..]));
      OnlyAppend(k, Lookup(keys, locals[0]), Flatten(Phase3Sent(keys, locals[1..])));
    }
  }

  lemma {:induction false} LookupMember(keys: set<Key>, s: seq<Record>)
    ensures forall r :: r in Lookup(keys, s) <==> r in s && r.key in keys
  {
    if |s| > 0 {
      LookupMember(keys, s[1..]);
      assert s == [s[0]] + s[1..];
    }
  }

  /** The entry of a key depends on the records of that key only. */
  lemma {:induction false} WriteAllOnly(fs: seq<AggrFunc>, m: Memory, n: Memory, s: seq<Record>, k: Key)
    requires k in m <==> k in n
    requires k in m ==> m[k] == n[k]
    ensures k in WriteAll(fs, m, s) <==> k in WriteAll(fs, n, Only(k, s))
    ensures k in WriteAll(fs, m, s) <==> k in m || Only(k, s) != []
    ensures k in WriteAll(fs, m, s) ==> WriteAll(fs, m, s)[k] == WriteAll(fs, n, Only(k, s))[k]
    decreases s
  {
    if |s| > 0 {
      if s[0].key == k {
        assert Only(k, s)[1..] == Only(k, s[1..]);
        WriteAllOnly(fs, Write(fs, m, s[0]), Write(fs, n, s[0]), s[1..], k);
      } else {
        assert Only(k, s) == Only(k, s[1..]);
        WriteAllOnly(fs, Write(fs, m, s[0]), n, s[1..], k);
      }
    }
  }

  lemma AggregateMember(fs: seq<AggrFunc>, s: seq<Record>, k: Key)
    ensures k in Aggregate(fs, s) <==> exists r | r in s :: r.key == k
  {
    WriteAllOnly(fs, map[], map[], s, k);
    OnlyMember(k, s);
    if Only(k, s) != [] {
      assert Only(k, s)[0] in Only(k, s);
    }
  }

  /** Two sequences with the same records of a key agree on its entry. */
  lemma AggregateAgrees(fs: seq<AggrFunc>, s: seq<Record>, t: seq<Record>, k: Key)
    requires Only(k, s) == Only(k, t)
    ensures k in Aggregate(fs, s) <==> k in Aggregate(fs, t)
    ensures k in Aggregate(fs, s) ==> Aggregate(fs, s)[k] == Aggregate(fs, t)[k]
  {
    WriteAllOnly(fs, map[], map[], s, k);
    WriteAllOnly(fs, map[], map[], t, k);
  }

  lemma {:induction false} OnlyDistinct(s: seq<Record>, r: Record)
    requires DistinctKeys(s) && r in s
    ensures Only(r.key, s) == [r]
  {
    assert s == [s[0]] + s[1..];
    if s[0] == r {
      OnlyMember(r.key, s[1..]);
    } else {
      OnlyDistinct(s[1..], r);
    }
  }

  lemma AggregateDistinct(fs: seq<AggrFunc>, s: seq<Record>, r: Record)
    requires DistinctKeys(s) && r in s
    ensures r.key in Aggregate(fs, s) && Aggregate(fs, s)[r.key] == r.vals
  {
    OnlyDistinct(s, r);
    AggregateAgrees(fs, s, [r], r.key) by {
      assert [r][1..] == [];
    }
    assert WriteAll(fs, map[], [r]) == WriteAll(fs, Write(fs, map[], r), [r][1..]);
  }

  // ----- summed volumes

  function Volume(pos: nat, k: Key, s: seq<Record>): nat {
    if |s| == 0 then 0
    else (if s[0].key == k then At(s[0].vals, pos) else 0) + Volume(pos, k, s[1..])
  }

  lemma {:induction false} VolumeAppend(pos: nat, k: Key, a: seq<Record>, b: seq<Record>)
    ensures Volume(pos, k, a + b) == Volume(pos, k, a) + Volume(pos, k, b)
  {
    if |a| == 0 {
      assert a + b == b;
    } else {
      assert (a + b)[1..] == a[1..] + b;
      VolumeAppend(pos, k, a[1..], b);
    }
  }

  lemma {:induction false} WriteAllSums(fs: seq<AggrFunc>, m: Memory, s: seq<Record>, k: Key, pos: nat)
    requires pos < |fs| && fs[pos] == Sum
    requires k in WriteAll(fs, m, s)
    ensures At(WriteAll(fs, m, s)[k], pos) == (if k in m then At(m[k], pos) else 0) + Volume(pos, k, s)
    decreases s
  {
    if |s| > 0 {
      WriteAllSums(fs, Write(fs, m, s[0]), s[1..], k, pos);
    }
  }

  /** The sort value of an aggregated key: its volume over all records, or a part of the key. */
  function Total(q: Query, s: seq<Record>, k: Key): nat {
    match q.sort
    case InKey(i) => At(k, i)
    case InVals(i) => Volume(i, k, s)
  }

  lemma AggregateTotal(q: Query, s: seq<Record>, k: Key)
    requires q.Enabled() && k in Aggregate(q.funcs, s)
    ensures q.Value(Record(k, Aggregate(q.funcs, s)[k])) == Total(q, s, k)
  {
    if q.sort.InVals? {
      WriteAllSums(q.funcs, map[], s, k, q.sort.pos);
    }
  }

  lemma {:induction false} VolumeOfParts(q: Query, k: Key, pos: nat, locals: seq<seq<Record>>)
    ensures Volume(pos, k, Flatten(Phase1Sent(q, locals))) <= Volume(pos, k, Flatten(locals))
  {
    if |locals| > 0 {
      assert Phase1Sent(q, locals)[1..] == Phase1Sent(q, locals[1..]);
      VolumeOfParts(q, k, pos, locals[1..]);
      VolumeOfCut(k, pos, locals[0], q.limit);
      VolumeAppend(pos, k, Cut(locals[0], q.limit), Flatten(Phase1Sent(q, locals[1..])));
      VolumeAppend(pos, k, locals[0], Flatten(locals[1..]));
    }
  }

  lemma VolumeOfCut(k: Key, pos: nat, s: seq<Record>, limit: nat)
    ensures Volume(pos, k, Cut(s, limit)) <= Volume(pos, k, s)
  {
    var cut := Cut(s, limit);
    assert s == cut + s[|cut|..];
    VolumeAppend(pos, k, cut, s[|cut|..]);
  }

  lemma {:induction false} VolumeBoundLocal(k: Key, pos: nat, s: seq<Record>, c: nat)
    requires DistinctKeys(s)
    requires forall r | r in s && r.key == k :: At(r.vals, pos) <= c
    ensures Volume(pos, k, s) <= c
    ensures (forall r | r in s :: r.key != k) ==> Volume(pos, k, s) == 0
  {
    if |s| > 0 {
      assert s == [s[0]] + s[1..];
      VolumeBoundLocal(k, pos, s[1..], c);
    }
  }

  /** Pigeonhole: if no source has more than `c` of a key, all together have at most that many times
      the number of sources. */
  lemma {:induction false} VolumeBound(k: Key, pos: nat, locals: seq<seq<Record>>, c: nat)
    requires forall i | 0 <= i < |locals| :: DistinctKeys(locals[i])
    requires forall i, r | 0 <= i < |locals| && r in locals[i] && r.key == k :: At(r.vals, pos) <= c
    ensures Volume(pos, k, Flatten(locals)) <= |locals| * c
  {
    if |locals| > 0 {
      VolumeBoundLocal(k, pos, locals[0], c);
      VolumeBound(k, pos, locals[1..], c);
      VolumeAppend(pos, k, locals[0], Flatten(locals[1..]));
      OneMore(|locals[1..]|, c);
    }
  }

  lemma CeilDivTight(b: nat, m: nat)
    requires m > 0
    ensures CeilDiv(b, m) <= b
    ensures CeilDiv(b, m) > 0 ==> m * (CeilDiv(b, m) - 1) < b
    ensures b <= m * CeilDiv(b, m)
  {
    var x := b + (m - 1);
    QuotientBounds(b, m, x / m, x % m);
  }

  lemma NonNegativeProduct(a: nat, b: nat)
    ensures a * b >= 0
  {
  }

  lemma QuotientBounds(b: nat, m: nat, t: nat, rest: nat)
    requires b + (m - 1) == m * t + rest && rest < m
    ensures t <= b
    ensures t > 0 ==> m * (t - 1) < b
    ensures b <= m * t
  {
    if t > 0 {
      var p := m * (t - 1);
      assert m * t == p + m;
      assert p == (t - 1) + (m - 1) * (t - 1);
      NonNegativeProduct(m - 1, t - 1);
    }
  }

  // ----- the candidate set

  lemma PrefixWithin(q: Query, threshold: nat, s: seq<Record>, r: Record)
    requires SortedBy(q.Before, s) && r in s && q.Within(q.Value(r), threshold)
    ensures r in Cut(s, ThresholdCount(q, threshold, s))
  {
    var c := ThresholdCount(q, threshold, s);
    forall i | c <= i < |s|
      ensures !q.Within(q.Value(s[i]), threshold)
    {
      assert i == c || q.Before(s[c], s[i]);
    }
    var i :| 0 <= i < |s| && s[i] == r;
    assert c == 0 || s[..c][i] == r;
  }

  lemma CandidateOf(q: Query, threshold: nat, locals: seq<seq<Record>>, i: nat, r: Record)
    requires i < |locals| && r in Cut(locals[i], ThresholdCount(q, threshold, locals[i]))
    ensures r.key in Candidates(q, threshold, locals)
  {
    var sent := Phase2Sent(q, threshold, locals);
    assert r in sent[i];
    FlattenMember(sent, r);
  }

  /** Some source has the key with a value that meets the threshold, because all together have more
      than every source just below the threshold could make up. */
  lemma SomeSourceMeets(q: Query, threshold: nat, locals: seq<seq<Record>>, k: Key, bottom: nat)
    returns (i: nat, r: Record)
    requires q.Enabled() && q.dir.Desc? && q.sort.InVals? && |locals| > 0 && Locals(q, locals)
    requires threshold <= CeilDiv(bottom, |locals|)
    requires k in Aggregate(q.funcs, Flatten(locals)) && Total(q, Flatten(locals), k) >= bottom
    ensures i < |locals| && r in locals[i] && r.key == k
    ensures q.Value(r) >= threshold
  {
    var t := CeilDiv(bottom, |locals|);
    CeilDivTight(bottom, |locals|);
    i, r := SomeSource(q, locals, k);
    if t > 0 {
      if forall j, x | 0 <= j < |locals| && x in locals[j] && x.key == k :: At(x.vals, q.sort.pos) <= t - 1 {
        VolumeBound(k, q.sort.pos, locals, t - 1);
        assert false;
      }
      i, r :| 0 <= i < |locals| && r in locals[i] && r.key == k && At(r.vals, q.sort.pos) > t - 1;
    }
  }

  lemma SomeSource(q: Query, locals: seq<seq<Record>>, k: Key) returns (i: nat, r: Record)
    requires k in Aggregate(q.funcs, Flatten(locals))
    ensures i < |locals| && r in locals[i] && r.key == k
  {
    AggregateMember(q.funcs, Flatten(locals), k);
    r :| r in Flatten(locals) && r.key == k;
    FlattenMember(locals, r);
    i :| 0 <= i < |locals| && r in locals[i];
  }

  lemma SingleSourceTotal(q: Query, locals: seq<seq<Record>>, r: Record)
    requires q.Enabled() && Locals(q, locals) && |locals| == 1 && r in locals[0]
    ensures r.key in Aggregate(q.funcs, Flatten(locals))
    ensures Total(q, Flatten(locals), r.key) == q.Value(r)
  {
    assert Flatten(locals) == locals[0];
    AggregateDistinct(q.funcs, locals[0], r);
    AggregateTotal(q, locals[0], r.key);
  }

  lemma PartialMember(q: Query, locals: seq<seq<Record>>, partial: seq<Record>, i: nat, r: Record)
    requires q.Enabled() && PartialListing(q, locals, partial) && i < |locals| && r in Cut(locals[i], q.limit)
    ensures r.key in Aggregate(q.funcs, Flatten(Phase1Sent(q, locals)))
    ensures exists p :: p in partial && p.key == r.key
  {
    var sent := Phase1Sent(q, locals);
    assert r in sent[i];
    FlattenMember(sent, r);
    AggregateMember(q.funcs, Flatten(sent), r.key);
    var p := Record(r.key, Aggregate(q.funcs, Flatten(sent))[r.key]);
    assert p in RecordsOf(Aggregate(q.funcs, Flatten(sent)));
    assert p in multiset(partial);
  }

  /** With a limit of one no source holds anything better than the bottom. */
  lemma NothingBelowBottom(q: Query, locals: seq<seq<Record>>, partial: seq<Record>, i: nat)
    requires q.Enabled() && Locals(q, locals) && PartialListing(q, locals, partial)
    requires Monotone(q, |locals|) && q.limit == 1
    requires i < |locals| && |locals[i]| > 0
    ensures q.Within(Bottom(q, partial), q.Value(locals[i][0]))
  {
    var first, sent := locals[i][0], Phase1Sent(q, locals);
    PartialMember(q, locals, partial, i, first);
    var p :| p in partial && p.key == first.key;
    var j :| 0 <= j < |partial| && partial[j] == p;
    assert j == 0 || q.Before(partial[0], partial[j]);
    assert p in multiset(partial);
    assert p in RecordsOf(Aggregate(q.funcs, Flatten(sent)));
    AggregateTotal(q, Flatten(sent), first.key);
    PartialNoBetter(q, sent, i, first);
  }

  /** A sum of volumes is at least each of them; of one source it is the volume itself. */
  lemma PartialNoBetter(q: Query, sent: seq<seq<Record>>, i: nat, r: Record)
    requires q.Enabled() && Monotone(q, |sent|) && i < |sent| && r in sent[i]
    requires Locals(q, sent)
    ensures q.Within(Total(q, Flatten(sent), r.key), q.Value(r))
  {
    if q.sort.InVals? {
      if q.dir.Desc? {
        VolumeAtLeast(q.sort.pos, sent, i, r);
      } else {
        SingleSourceTotal(q, sent, r);
      }
    }
  }

  lemma {:induction false} VolumeAtLeast(pos: nat, sent: seq<seq<Record>>, i: nat, r: Record)
    requires i < |sent| && r in sent[i]
    ensures Volume(pos, r.key, Flatten(sent)) >= At(r.vals, pos)
  {
    VolumeAppend(pos, r.key, sent[0], Flatten(sent[1..]));
    if i == 0 {
      VolumeOfMember(pos, sent[0], r);
    } else {
      VolumeAtLeast(pos, sent[1..], i - 1, r);
    }
  }

  lemma {:induction false} VolumeOfMember(pos: nat, s: seq<Record>, r: Record)
    requires r in s
    ensures Volume(pos, r.key, s) >= At(r.vals, pos)
  {
    if s[0] != r {
      assert s == [s[0]] + s[1..];
      VolumeOfMember(pos, s[1..], r);
    }
  }

  /** A source that has a key within the bottom has it within the threshold, or sends everything. */
  lemma SourceMeets(q: Query, threshold: nat, locals: seq<seq<Record>>, partial: seq<Record>, k: Key)
    returns (i: nat, r: Record)
    requires q.Enabled() && |locals| > 0 && Locals(q, locals) && PartialListing(q, locals, partial)
    requires Suffices(q, |locals|, Bottom(q, partial), threshold)
    requires k in Aggregate(q.funcs, Flatten(locals))
    requires q.Within(Total(q, Flatten(locals), k), Bottom(q, partial))
    ensures i < |locals| && r in locals[i] && r.key == k
    ensures q.Within(q.Value(r), threshold) || ThresholdCount(q, threshold, locals[i]) == 0
  {
    var bottom := Bottom(q, partial);
    if q.limit == 1 && !q.Within(bottom, threshold) {
      i, r := SomeSource(q, locals, k);
      NothingBelowBottom(q, locals, partial, i);
    } else if q.dir.Desc? && q.sort.InVals? {
      i, r := SomeSourceMeets(q, threshold, locals, k, bottom);
    } else {
      i, r := SomeSource(q, locals, k);
      if q.sort.InVals? {
        SingleSourceTotal(q, locals, r);
      }
    }
  }

  /** Candidate completeness: every key whose full total reaches the bottom is a candidate. */
  lemma CandidatesComplete(q: Query, threshold: nat, locals: seq<seq<Record>>, partial: seq<Record>, k: Key)
    requires q.Enabled() && |locals| > 0 && Locals(q, locals) && PartialListing(q, locals, partial)
    requires Suffices(q, |locals|, Bottom(q, partial), threshold)
    requires k in Aggregate(q.funcs, Flatten(locals))
    requires q.Within(Total(q, Flatten(locals), k), Bottom(q, partial))
    ensures k in Candidates(q, threshold, locals)
  {
    var i, r := SourceMeets(q, threshold, locals, partial, k);
    if q.Within(q.Value(r), threshold) {
      PrefixWithin(q, threshold, locals[i], r);
    }
    CandidateOf(q, threshold, locals, i, r);
  }

  lemma Phase1Locals(q: Query, locals: seq<seq<Record>>)
    requires Locals(q, locals)
    ensures Locals(q, Phase1Sent(q, locals))
  {
    forall i | 0 <= i < |locals|
      ensures Local(q, Cut(locals[i], q.limit))
    {
      assert Local(q, locals[i]);
    }
  }

  lemma Phase1Member(q: Query, locals: seq<seq<Record>>, k: Key)
    requires k in Aggregate(q.funcs, Flatten(Phase1Sent(q, locals)))
    ensures k in Aggregate(q.funcs, Flatten(locals))
  {
    var i, r := SomeSource(q, Phase1Sent(q, locals), k);
    assert r in locals[i];
    FlattenMember(locals, r);
    AggregateMember(q.funcs, Flatten(locals), k);
  }

  /** A partial sum that reaches the bottom stays there once the other sources are added. */
  lemma PartialReaches(q: Query, locals: seq<seq<Record>>, k: Key, bottom: nat)
    requires q.Enabled() && |locals| > 0 && Locals(q, locals) && Monotone(q, |locals|)
    requires k in Aggregate(q.funcs, Flatten(Phase1Sent(q, locals)))
    requires q.Within(Total(q, Flatten(Phase1Sent(q, locals)), k), bottom)
    ensures k in Aggregate(q.funcs, Flatten(locals))
    ensures q.Within(Total(q, Flatten(locals), k), bottom)
  {
    Phase1Member(q, locals, k);
    if q.sort.InVals? {
      if q.dir.Desc? {
        VolumeOfParts(q, k, q.sort.pos, locals);
      } else {
        SingleSourceSame(q, locals, k);
      }
    }
  }

  lemma SingleSourceSame(q: Query, locals: seq<seq<Record>>, k: Key)
    requires q.Enabled() && |locals| == 1 && Locals(q, locals)
    requires k in Aggregate(q.funcs, Flatten(Phase1Sent(q, locals)))
    ensures Total(q, Flatten(Phase1Sent(q, locals)), k) == Total(q, Flatten(locals), k)
  {
    var sent := Phase1Sent(q, locals);
    Phase1Locals(q, locals);
    var i, r := SomeSource(q, sent, k);
    assert r in locals[0];
    SingleSourceTotal(q, locals, r);
    SingleSourceTotal(q, sent, r);
  }

  // ----- exactness

  lemma {:induction false} KeysOfSize(s: seq<Record>)
    requires DistinctKeys(s)
    ensures |KeysOf(s)| == |s|
  {
    if |s| == 0 {
      assert KeysOf(s) == {};
    } else {
      KeysOfSize(s[1..]);
      assert s == [s[0]] + s[1..];
      assert KeysOf(s) == {s[0].key} + KeysOf(s[1..]);
      assert s[0].key !in KeysOf(s[1..]);
    }
  }

  lemma ListingDistinct(s: seq<Record>, m: Memory)
    requires multiset(s) == multiset(RecordsOf(m))
    ensures DistinctKeys(s) && |s| == |m| && KeysOf(s) == m.Keys
  {
    RecordsOfSize(m);
    assert |multiset(s)| == |multiset(RecordsOf(m))|;
    forall i, j | 0 <= i < j < |s|
      ensures s[i].key != s[j].key
    {
      assert s[i] in multiset(s) && s[j] in multiset(s);
      if s[i] == s[j] {
        TwiceInSequence(s, i, j);
      }
    }
    forall k
      ensures k in KeysOf(s) <==> k in m
    {
      if k in m {
        assert Record(k, m[k]) in multiset(s);
      }
      if k in KeysOf(s) {
        var r :| r in s && r.key == k;
        assert r in multiset(s);
      }
    }
  }

  lemma TwiceInSequence<T>(s: seq<T>, i: nat, j: nat)
    requires i < j < |s| && s[i] == s[j]
    ensures multiset(s)[s[i]] >= 2
  {
    RemoveAt(s, j);
    assert (s[..j] + s[j + 1..])[i] == s[i];
    assert s[i] in s[..j] + s[j + 1..];
  }

  /** Phase 3 gives every candidate its exact record, all fields included, and nothing else. */
  lemma Phase3Exact(q: Query, locals: seq<seq<Record>>, keys: set<Key>, k: Key)
    ensures var full := Aggregate(q.funcs, Flatten(locals));
      var found := Aggregate(q.funcs, Flatten(Phase3Sent(keys, locals)));
      && (k in found <==> k in full && k in keys)
      && (k in found ==> found[k] == full[k])
  {
    var sent := Phase3Sent(keys, locals);
    if k in keys {
      OnlyPhase3(k, keys, locals);
      AggregateAgrees(q.funcs, Flatten(sent), Flatten(locals), k);
    } else if k in Aggregate(q.funcs, Flatten(sent)) {
      var i, r := SomeSource(q, sent, k);
      LookupMember(keys, locals[i]);
    }
  }

  lemma PartialWithinBottom(q: Query, locals: seq<seq<Record>>, partial: seq<Record>, i: nat)
    requires q.Enabled() && PartialListing(q, locals, partial)
    requires i < |partial| && i < q.limit
    ensures partial[i].key in Aggregate(q.funcs, Flatten(Phase1Sent(q, locals)))
    ensures q.Within(Total(q, Flatten(Phase1Sent(q, locals)), partial[i].key), Bottom(q, partial))
  {
    var sums := Aggregate(q.funcs, Flatten(Phase1Sent(q, locals)));
    assert partial[i] in multiset(partial);
    assert partial[i] in RecordsOf(sums);
    AggregateTotal(q, Flatten(Phase1Sent(q, locals)), partial[i].key);
    var last := if |partial| < q.limit then |partial| - 1 else q.limit - 1;
    assert i == last || q.Before(partial[i], partial[last]);
  }

  /** With fewer partial sums than the limit no source has as many records, so phase 1 has seen
      everything. */
  lemma FewPartialSums(q: Query, locals: seq<seq<Record>>, partial: seq<Record>)
    requires q.Enabled() && Locals(q, locals) && PartialListing(q, locals, partial)
    requires |partial| < q.limit
    ensures Phase1Sent(q, locals) == locals
  {
    forall i | 0 <= i < |locals|
      ensures Cut(locals[i], q.limit) == locals[i]
    {
      var cut := Cut(locals[i], q.limit);
      assert DistinctKeys(cut) by {
        assert Local(q, locals[i]);
      }
      forall k | k in KeysOf(cut)
        ensures k in KeysOf(partial)
      {
        var r :| r in cut && r.key == k;
        PartialMember(q, locals, partial, i, r);
      }
      KeysOfSize(cut);
      ListingDistinct(partial, Aggregate(q.funcs, Flatten(Phase1Sent(q, locals))));
      KeysOfSize(partial);
      SubsetSize(KeysOf(cut), KeysOf(partial));
    }
  }

  /** The keys of phase 1 are keys of the full aggregation, and the same ones if they are few. */
  lemma PartialKeys(q: Query, locals: seq<seq<Record>>, partial: seq<Record>)
    requires q.Enabled() && Locals(q, locals) && PartialListing(q, locals, partial)
    ensures KeysOf(partial) <= Aggregate(q.funcs, Flatten(locals)).Keys
    ensures |partial| < q.limit ==> KeysOf(partial) == Aggregate(q.funcs, Flatten(locals)).Keys
  {
    ListingDistinct(partial, Aggregate(q.funcs, Flatten(Phase1Sent(q, locals))));
    forall k | k in KeysOf(partial)
      ensures k in Aggregate(q.funcs, Flatten(locals))
    {
      Phase1Member(q, locals, k);
    }
    if |partial| < q.limit {
      FewPartialSums(q, locals, partial);
    }
  }

  /** Every partial sum of the first `limit` stands for a full total within the bottom. */
  lemma TopReaches(q: Query, locals: seq<seq<Record>>, partial: seq<Record>, k: Key)
    requires q.Enabled() && |locals| > 0 && Locals(q, locals) && PartialListing(q, locals, partial)
    requires Monotone(q, |locals|) && k in KeysOf(Cut(partial, q.limit))
    ensures k in Aggregate(q.funcs, Flatten(locals))
    ensures q.Within(Total(q, Flatten(locals), k), Bottom(q, partial))
  {
    var top := Cut(partial, q.limit);
    var i :| 0 <= i < |top| && top[i].key == k;
    PartialWithinBottom(q, locals, partial, i);
    PartialReaches(q, locals, k, Bottom(q, partial));
  }

  /** The bottom is a bound for the last total wanted: it never lies beyond it. */
  lemma BottomIsBound(q: Query, locals: seq<seq<Record>>, partial: seq<Record>, l: seq<Record>)
    requires q.Enabled() && |locals| > 0 && Locals(q, locals) && PartialListing(q, locals, partial)
    requires Monotone(q, |locals|)
    requires Listing(q.Before, l, multiset(RecordsOf(Aggregate(q.funcs, Flatten(locals))))) && |l| >= q.limit
    ensures q.Within(q.Value(l[q.limit - 1]), Bottom(q, partial))
  {
    var full, nth := Aggregate(q.funcs, Flatten(locals)), l[q.limit - 1];
    var top, better := KeysOf(Cut(partial, q.limit)), KeysOf(l[..q.limit - 1]);
    PartialKeys(q, locals, partial);
    ListingDistinct(partial, Aggregate(q.funcs, Flatten(Phase1Sent(q, locals))));
    ListingDistinct(l, full);
    KeysOfSize(Cut(partial, q.limit));
    KeysOfSize(partial);
    KeysOfSize(l[..q.limit - 1]);
    if !q.Within(q.Value(nth), Bottom(q, partial)) {
      forall k | k in top
        ensures k in better
      {
        TopReaches(q, locals, partial, k);
        Early(q, locals, l, k, Bottom(q, partial));
      }
      SubsetSize(top, better);
    }
  }

  /** In a listing what is within a bound comes before an entry that is not. */
  lemma Early(q: Query, locals: seq<seq<Record>>, l: seq<Record>, k: Key, bottom: nat)
    requires q.Enabled() && q.limit <= |l| && k in Aggregate(q.funcs, Flatten(locals))
    requires Listing(q.Before, l, multiset(RecordsOf(Aggregate(q.funcs, Flatten(locals)))))
    requires q.Within(Total(q, Flatten(locals), k), bottom) && !q.Within(q.Value(l[q.limit - 1]), bottom)
    ensures k in KeysOf(l[..q.limit - 1])
  {
    var r := Record(k, Aggregate(q.funcs, Flatten(locals))[k]);
    AggregateTotal(q, Flatten(locals), k);
    assert r in multiset(l);
    var i :| 0 <= i < |l| && l[i] == r;
    assert i < q.limit - 1 || i == q.limit - 1 || q.Before(l[q.limit - 1], l[i]);
    assert l[..q.limit - 1][i] == r;
  }

  /** If there are fewer records than wanted, all of them are candidates. */
  lemma FewAreAllCandidates(q: Query, threshold: nat, locals: seq<seq<Record>>, partial: seq<Record>)
    requires q.Enabled() && |locals| > 0 && Locals(q, locals) && PartialListing(q, locals, partial)
    requires Suffices(q, |locals|, Bottom(q, partial), threshold) && |Aggregate(q.funcs, Flatten(locals))| < q.limit
    ensures Aggregate(q.funcs, Flatten(locals)).Keys <= Candidates(q, threshold, locals)
  {
    var full := Aggregate(q.funcs, Flatten(locals));
    PartialKeys(q, locals, partial);
    ListingDistinct(partial, Aggregate(q.funcs, Flatten(Phase1Sent(q, locals))));
    KeysOfSize(partial);
    SubsetSize(KeysOf(partial), full.Keys);
    forall k | k in full
      ensures k in Candidates(q, threshold, locals)
    {
      TopReaches(q, locals, partial, k);
      CandidatesComplete(q, threshold, locals, partial, k);
    }
  }

  /** A key left out of the candidates has a total beyond the bottom, and there are enough records
      before it. */
  lemma DroppedOutranked(q: Query, threshold: nat, locals: seq<seq<Record>>, partial: seq<Record>, final: seq<Record>,
                         le: (Record, Record) -> bool, d: Record)
    requires q.Enabled() && |locals| > 0 && Locals(q, locals) && Suffices(q, |locals|, Bottom(q, partial), threshold)
    requires Refines(q, le) && Run(q, threshold, locals, partial, final, le)
    requires d in RecordsOf(Aggregate(q.funcs, Flatten(locals))) && d.key !in Candidates(q, threshold, locals)
    ensures Outranked(le, q.limit, multiset(final), d)
  {
    DroppedBeyond(q, threshold, locals, partial, d);
    var top := TopKeys(q, threshold, locals, partial, final, le);
    EnoughBefore(q, locals, partial, final, le, d, top);
  }

  lemma TopKeys(q: Query, threshold: nat, locals: seq<seq<Record>>, partial: seq<Record>, final: seq<Record>,
                le: (Record, Record) -> bool) returns (keys: set<Key>)
    requires q.Enabled() && |locals| > 0 && Locals(q, locals) && Suffices(q, |locals|, Bottom(q, partial), threshold)
    requires Run(q, threshold, locals, partial, final, le) && |partial| >= q.limit
    ensures |keys| == q.limit && forall k | k in keys :: TopRecord(q, locals, partial, final, k)
  {
    var top := partial[..q.limit];
    keys := KeysOf(top);
    ListingDistinct(partial, Aggregate(q.funcs, Flatten(Phase1Sent(q, locals))));
    KeysOfSize(top);
    forall k | k in keys
      ensures TopRecord(q, locals, partial, final, k)
    {
      var i :| 0 <= i < |top| && top[i].key == k;
      TopStays(q, threshold, locals, partial, final, le, i);
    }
  }

  lemma DroppedBeyond(q: Query, threshold: nat, locals: seq<seq<Record>>, partial: seq<Record>, d: Record)
    requires q.Enabled() && |locals| > 0 && Locals(q, locals) && Suffices(q, |locals|, Bottom(q, partial), threshold)
    requires PartialListing(q, locals, partial)
    requires d in RecordsOf(Aggregate(q.funcs, Flatten(locals))) && d.key !in Candidates(q, threshold, locals)
    ensures !q.Within(q.Value(d), Bottom(q, partial)) && |partial| >= q.limit
  {
    AggregateTotal(q, Flatten(locals), d.key);
    if q.Within(q.Value(d), Bottom(q, partial)) {
      CandidatesComplete(q, threshold, locals, partial, d.key);
    } else if |partial| < q.limit {
      FewPartialSums(q, locals, partial);
      assert d in multiset(partial);
      var i :| 0 <= i < |partial| && partial[i] == d;
      PartialWithinBottom(q, locals, partial, i);
    }
  }

  /** The record of `k` reaches the bottom and is in the final memory. */
  ghost predicate TopRecord(q: Query, locals: seq<seq<Record>>, partial: seq<Record>, final: seq<Record>, k: Key)
    requires q.limit > 0
  {
    var full := Aggregate(q.funcs, Flatten(locals));
    k in full && Record(k, full[k]) in multiset(final) && q.Within(q.Value(Record(k, full[k])), Bottom(q, partial))
  }

  lemma TopStays(q: Query, threshold: nat, locals: seq<seq<Record>>, partial: seq<Record>, final: seq<Record>,
                 le: (Record, Record) -> bool, i: nat)
    requires q.Enabled() && |locals| > 0 && Locals(q, locals) && Suffices(q, |locals|, Bottom(q, partial), threshold)
    requires Run(q, threshold, locals, partial, final, le)
    requires i < |partial| && i < q.limit
    ensures TopRecord(q, locals, partial, final, partial[i].key)
  {
    var k := partial[i].key;
    var cands := Candidates(q, threshold, locals);
    PartialWithinBottom(q, locals, partial, i);
    PartialReaches(q, locals, k, Bottom(q, partial));
    CandidatesComplete(q, threshold, locals, partial, k);
    Phase3Exact(q, locals, cands, k);
    AggregateTotal(q, Flatten(locals), k);
    var found := Aggregate(q.funcs, Flatten(Phase3Sent(cands, locals)));
    assert Record(k, found[k]) in RecordsOf(found);
  }

  lemma EnoughBefore(q: Query, locals: seq<seq<Record>>, partial: seq<Record>, final: seq<Record>,
                     le: (Record, Record) -> bool, d: Record, keys: set<Key>)
    requires q.limit > 0 && Refines(q, le)
    requires forall k | k in keys :: TopRecord(q, locals, partial, final, k)
    requires !q.Within(q.Value(d), Bottom(q, partial))
    ensures Outranked(le, |keys|, multiset(final), d)
  {
    var full := Aggregate(q.funcs, Flatten(locals));
    assert forall k | k in keys :: TopRecord(q, locals, partial, final, k) && k in full;
    var tops := map k | k in keys :: full[k];
    var e := multiset(RecordsOf(tops));
    RecordsOfSize(tops);
    assert tops.Keys == keys;
    forall r | r in e
      ensures le(r, d) && e[r] <= multiset(final)[r]
    {
      assert r.key in keys && TopRecord(q, locals, partial, final, r.key);
      assert !q.Before(d, r);
      assert !le(d, r);
    }
    assert AllBefore(le, e, d) && e <= multiset(final) && |e| == |keys|;
  }

  /** Exactness: in every run the first records of the master's final memory are the first records
      of the flat aggregation of all sources, with every aggregated field, for any tie-breaking. */
  lemma TputExact(q: Query, threshold: nat, locals: seq<seq<Record>>, partial: seq<Record>, final: seq<Record>,
                  le: (Record, Record) -> bool)
    requires q.Enabled() && |locals| > 0 && Locals(q, locals) && Suffices(q, |locals|, Bottom(q, partial), threshold)
    requires Refines(q, le) && Run(q, threshold, locals, partial, final, le)
    ensures Exact(q, locals, final, le)
  {
    var full := Aggregate(q.funcs, Flatten(locals));
    var cands := Candidates(q, threshold, locals);
    var found := Aggregate(q.funcs, Flatten(Phase3Sent(cands, locals)));
    forall k {
      Phase3Exact(q, locals, cands, k);
    }
    var dropped := SequenceOf(RecordsOf(full - cands));
    forall d | d in dropped
      ensures Outranked(le, q.limit, multiset(final), d)
    {
      assert d in multiset(dropped);
      assert d in RecordsOf(full);
      DroppedOutranked(q, threshold, locals, partial, final, le, d);
    }
    var l := CutStable(le, q.limit, final, dropped);
    SplitRecords(full, found, cands);
    assert Listing(le, l, multiset(RecordsOf(full))) && Cut(l, q.limit) == Cut(final, q.limit);
  }

  lemma SplitRecords(full: Memory, found: Memory, keys: set<Key>)
    requires forall k :: k in found <==> k in full && k in keys
    requires forall k | k in found :: found[k] == full[k]
    ensures multiset(RecordsOf(full)) == multiset(RecordsOf(found)) + multiset(RecordsOf(full - keys))
  {
    var rest := full - keys;
    forall r | r in RecordsOf(full)
      ensures r in RecordsOf(found) + RecordsOf(rest)
    {
      assert r.key in full;
      assert r.key in found || r.key in rest;
    }
    forall r | r in RecordsOf(found) + RecordsOf(rest)
      ensures r in RecordsOf(full)
    {
      assert r.key in full;
    }
    assert RecordsOf(full) == RecordsOf(found) + RecordsOf(rest);
    assert RecordsOf(found) !! RecordsOf(rest);
  }

  ghost function SequenceOf<T>(s: set<T>): (r: seq<T>)
    ensures multiset(r) == multiset(s)
  {
    if s == {} then []
    else
      var x :| x in s;
      assert s == (s - {x}) + {x};
      [x] + SequenceOf(s - {x})
  }
}
