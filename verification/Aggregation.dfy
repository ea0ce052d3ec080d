/** Aggregation memories: one record per key, values merged field by field. A memory is filled by
    writing records one at a time, on the slaves from files, on the master from messages. */
module Aggregation {
  import opened Ordering

  datatype AggrFunc = Min | Max | Sum | BitOr

  type Key = seq<nat>
  datatype Record = Record(key: Key, vals: seq<nat>)
  type Memory = map<Key, seq<nat>>

  function At(s: seq<nat>, i: nat): nat {
    if i < |s| then s[i] else 0
  }

  function Or(a: nat, b: nat): nat {
    if a == 0 then b
    else if b == 0 then a
    else 2 * Or(a / 2, b / 2) + (if a % 2 == 1 || b % 2 == 1 then 1 else 0)
  }

  function Apply(f: AggrFunc, x: nat, y: nat): nat {
    match f
    case Min => if x <= y then x else y
    case Max => if x <= y then y else x
    case Sum => x + y
    case BitOr => Or(x, y)
  }

  function Merge(fs: seq<AggrFunc>, a: seq<nat>, b: seq<nat>): seq<nat> {
    seq(|fs|, i requires 0 <= i < |fs| => Apply(fs[i], At(a, i), At(b, i)))
  }

  function Write(fs: seq<AggrFunc>, m: Memory, r: Record): Memory {
    m[r.key := if r.key in m then Merge(fs, m[r.key], r.vals) else r.vals]
  }

  function WriteAll(fs: seq<AggrFunc>, m: Memory, s: seq<Record>): Memory
    decreases s
  {
    if |s| == 0 then m else WriteAll(fs, Write(fs, m, s[0]), s[1..])
  }

  /** The flat aggregation of a sequence of records. */
  function Aggregate(fs: seq<AggrFunc>, s: seq<Record>): Memory {
    WriteAll(fs, map[], s)
  }

  function RecordsOf(m: Memory): set<Record> {
    set k | k in m :: Record(k, m[k])
  }

  // ----- merging is commutative and associative

  lemma {:induction false} OrCommutes(a: nat, b: nat)
    ensures Or(a, b) == Or(b, a)
  {
    if a != 0 && b != 0 {
      OrCommutes(a / 2, b / 2);
    }
  }

  lemma {:induction false} OrZero(a: nat, b: nat)
    ensures Or(a, b) == 0 <==> a == 0 && b == 0
  {
    if a != 0 && b != 0 {
      OrZero(a / 2, b / 2);
    }
  }

  lemma {:induction false} OrAssociates(a: nat, b: nat, c: nat)
    ensures Or(Or(a, b), c) == Or(a, Or(b, c))
  {
    if a != 0 && b != 0 && c != 0 {
      OrZero(a, b);
      OrZero(b, c);
      OrAssociates(a / 2, b / 2, c / 2);
      assert Or(a, b) / 2 == Or(a / 2, b / 2);
      assert Or(b, c) / 2 == Or(b / 2, c / 2);
    }
  }

  lemma MergeCommutes(fs: seq<AggrFunc>, a: seq<nat>, b: seq<nat>)
    ensures Merge(fs, a, b) == Merge(fs, b, a)
  {
    forall i | 0 <= i < |fs|
      ensures Apply(fs[i], At(a, i), At(b, i)) == Apply(fs[i], At(b, i), At(a, i))
    {
      OrCommutes(At(a, i), At(b, i));
    }
  }

  lemma MergeAssociates(fs: seq<AggrFunc>, a: seq<nat>, b: seq<nat>, c: seq<nat>)
    ensures Merge(fs, Merge(fs, a, b), c) == Merge(fs, a, Merge(fs, b, c))
  {
    var ab, bc := Merge(fs, a, b), Merge(fs, b, c);
    forall i | 0 <= i < |fs|
      ensures Apply(fs[i], At(ab, i), At(c, i)) == Apply(fs[i], At(a, i), At(bc, i))
    {
      OrAssociates(At(a, i), At(b, i), At(c, i));
    }
  }

  lemma MergeExchange(fs: seq<AggrFunc>, v: seq<nat>, a: seq<nat>, b: seq<nat>)
    ensures Merge(fs, Merge(fs, v, a), b) == Merge(fs, Merge(fs, v, b), a)
  {
    MergeAssociates(fs, v, a, b);
    MergeAssociates(fs, v, b, a);
    MergeCommutes(fs, a, b);
  }

  // ----- the order in which records are written does not matter

  lemma WriteExchange(fs: seq<AggrFunc>, m: Memory, a: Record, b: Record)
    ensures Write(fs, Write(fs, m, a), b) == Write(fs, Write(fs, m, b), a)
  {
    if a.key == b.key {
      MergeCommutes(fs, a.vals, b.vals);
      if a.key in m {
        MergeExchange(fs, m[a.key], a.vals, b.vals);
      }
    }
  }

  lemma {:induction false} WriteAllExchange(fs: seq<AggrFunc>, m: Memory, s: seq<Record>, r: Record)
    ensures WriteAll(fs, Write(fs, m, r), s) == Write(fs, WriteAll(fs, m, s), r)
    decreases s
  {
    if |s| > 0 {
      WriteExchange(fs, m, r, s[0]);
      WriteAllExchange(fs, Write(fs, m, s[0]), s[1..], r);
    }
  }

  lemma {:induction false} WriteAllAppend(fs: seq<AggrFunc>, m: Memory, s: seq<Record>, t: seq<Record>)
    ensures WriteAll(fs, m, s + t) == WriteAll(fs, WriteAll(fs, m, s), t)
    decreases s
  {
    if |s| == 0 {
      assert s + t == t;
    } else {
      assert (s + t)[1..] == s[1..] + t;
      WriteAllAppend(fs, Write(fs, m, s[0]), s[1..], t);
    }
  }

  lemma WriteFirst(fs: seq<AggrFunc>, m: Memory, t: seq<Record>, i: nat)
    requires i < |t|
    ensures WriteAll(fs, m, t) == WriteAll(fs, Write(fs, m, t[i]), t[..i] + t[i + 1..])
  {
    var before, after := t[..i], t[i + 1..];
    assert t == before + ([t[i]] + after);
    WriteAllAppend(fs, Write(fs, m, t[i]), before, after);
    WriteAllExchange(fs, m, before, t[i]);
    WriteAllAppend(fs, m, before, [t[i]] + after);
  }

  /** Whatever the schedule of files over threads and the interleaving of messages, the memory
      depends only on which records were written. */
  lemma {:induction false} WriteAllConfluent(fs: seq<AggrFunc>, m: Memory, s: seq<Record>, t: seq<Record>)
    requires multiset(s) == multiset(t)
    ensures WriteAll(fs, m, s) == WriteAll(fs, m, t)
    decreases s
  {
    if |s| == 0 {
      assert |multiset(t)| == 0;
    } else {
      var i := PermutationHead(s, t);
      WriteFirst(fs, m, t, i);
      WriteAllConfluent(fs, Write(fs, m, s[0]), s[1..], t[..i] + t[i + 1..]);
    }
  }

  // ----- aggregating aggregates

  lemma RecordsOfMember(m: Memory, r: Record)
    ensures r in RecordsOf(m) <==> r.key in m && m[r.key] == r.vals
  {
  }

  lemma RecordsOfUpdate(m: Memory, k: Key, v: seq<nat>)
    ensures RecordsOf(m[k := v]) == RecordsOf(m - {k}) + {Record(k, v)}
    ensures Record(k, v) !in RecordsOf(m - {k})
  {
    forall r | r in RecordsOf(m[k := v])
      ensures r in RecordsOf(m - {k}) + {Record(k, v)}
    {
      assert r.key != k ==> r.key in m - {k};
    }
    forall r | r in RecordsOf(m - {k}) + {Record(k, v)}
      ensures r in RecordsOf(m[k := v])
    {
      assert r.key in m[k := v];
    }
  }

  lemma {:induction false} RecordsOfSize(m: Memory)
    ensures |RecordsOf(m)| == |m|
    decreases |m|
  {
    if m == map[] {
      assert RecordsOf(m) == {};
    } else {
      var k :| k in m;
      var rest := m - {k};
      assert m == rest[k := m[k]] && rest - {k} == rest;
      RecordsOfUpdate(rest, k, m[k]);
      assert |m.Keys| == |rest.Keys| + 1 by {
        assert m.Keys == rest.Keys + {k};
      }
      RecordsOfSize(rest);
    }
  }

  /** Writing the records of an aggregation, listed in any order, has the effect of writing the
      records that were aggregated. */
  lemma {:induction false} WriteAllAbsorbs(fs: seq<AggrFunc>, m: Memory, s: seq<Record>, l: seq<Record>)
    requires multiset(l) == multiset(RecordsOf(Aggregate(fs, s)))
    ensures WriteAll(fs, m, l) == WriteAll(fs, m, s)
    decreases 3 * |s|
  {
    if |s| == 0 {
      assert |multiset(l)| == 0;
    } else {
      var front, r := s[..|s| - 1], s[|s| - 1];
      assert s == front + [r];
      WriteAllAppend(fs, map[], front, [r]);
      WriteAllAppend(fs, m, front, [r]);
      AbsorbListing(fs, m, front, r, l);
    }
  }

  lemma {:induction false} AbsorbListing(fs: seq<AggrFunc>, m: Memory, front: seq<Record>, r: Record, l: seq<Record>)
    requires multiset(l) == multiset(RecordsOf(Write(fs, Aggregate(fs, front), r)))
    ensures WriteAll(fs, m, l) == Write(fs, WriteAll(fs, m, front), r)
    decreases 3 * |front| + 2
  {
    var a, k := Aggregate(fs, front), r.key;
    var v := Write(fs, a, r)[k];
    RecordsOfUpdate(a, k, v);
    assert Write(fs, a, r) == a[k := v];
    assert Record(k, v) in multiset(l);
    var i :| 0 <= i < |l| && l[i] == Record(k, v);
    var others := l[..i] + l[i + 1..];
    RemoveAt(l, i);
    WriteFirst(fs, m, l, i);
    WriteAllExchange(fs, m, others, l[i]);
    assert multiset(l) == multiset(RecordsOf(a - {k})) + multiset{Record(k, v)};
    CancelOne(multiset(others), multiset(RecordsOf(a - {k})), l[i]);
    AbsorbLast(fs, m, front, r, others, v);
  }

  lemma {:induction false} AbsorbLast(fs: seq<AggrFunc>, m: Memory, front: seq<Record>, r: Record, others: seq<Record>,
                                      v: seq<nat>)
    requires var a := Aggregate(fs, front);
      && multiset(others) == multiset(RecordsOf(a - {r.key}))
      && v == Write(fs, a, r)[r.key]
    ensures Write(fs, WriteAll(fs, m, others), Record(r.key, v)) == Write(fs, WriteAll(fs, m, front), r)
    decreases 3 * |front| + 1
  {
    var a, k := Aggregate(fs, front), r.key;
    if k in a {
      var l := others + [Record(k, a[k])];
      RecordsOfUpdate(a, k, a[k]);
      assert a[k := a[k]] == a;
      WriteAllAbsorbs(fs, m, front, l);
      WriteAllAppend(fs, m, others, [Record(k, a[k])]);
      var w := WriteAll(fs, m, others);
      if k in w {
        MergeAssociates(fs, w[k], a[k], r.vals);
      }
    } else {
      assert a - {k} == a;
      WriteAllAbsorbs(fs, m, front, others);
    }
  }

  /** Aggregation refinement: let every thread aggregate its own records and send its memory in any
      order; whatever the interleaving the master sees, it ends with the flat aggregation of all
      records of all threads. */
  lemma {:induction false} AggregationRefines(fs: seq<AggrFunc>, m: Memory, parts: seq<seq<Record>>,
                                              sent: seq<seq<Record>>)
    requires |parts| == |sent|
    requires forall i | 0 <= i < |parts| :: multiset(sent[i]) == multiset(RecordsOf(Aggregate(fs, parts[i])))
    ensures WriteAll(fs, m, Flatten(sent)) == WriteAll(fs, m, Flatten(parts))
    decreases parts
  {
    if |parts| > 0 {
      WriteAllAbsorbs(fs, m, parts[0], sent[0]);
      WriteAllAppend(fs, m, parts[0], Flatten(parts[1..]));
      WriteAllAppend(fs, m, sent[0], Flatten(sent[1..]));
      AggregationRefines(fs, WriteAll(fs, m, parts[0]), parts[1..], sent[1..]);
    }
  }

  lemma MasterAggregatesAll(fs: seq<AggrFunc>, parts: seq<seq<Record>>, sent: seq<seq<Record>>, arrived: seq<Record>,
                            flat: seq<Record>)
    requires |parts| == |sent|
    requires forall i | 0 <= i < |parts| :: multiset(sent[i]) == multiset(RecordsOf(Aggregate(fs, parts[i])))
    requires multiset(arrived) == multiset(Flatten(sent)) && multiset(flat) == multiset(Flatten(parts))
    ensures Aggregate(fs, arrived) == Aggregate(fs, flat)
  {
    WriteAllConfluent(fs, map[], arrived, Flatten(sent));
    WriteAllConfluent(fs, map[], flat, Flatten(parts));
    AggregationRefines(fs, map[], parts, sent);
  }

  // ----- what the values of an aggregated key mean

  /** Just the keys of the records have an entry. */
  lemma {:induction false} WriteAllKeys(fs: seq<AggrFunc>, m: Memory, s: seq<Record>, k: Key)
    ensures k in WriteAll(fs, m, s) <==> k in m || exists r :: r in s && r.key == k
    decreases s
  {
    if |s| > 0 {
      WriteAllKeys(fs, Write(fs, m, s[0]), s[1..], k);
      assert s == [s[0]] + s[1..];
    }
  }

  lemma AggregateKeys(fs: seq<AggrFunc>, s: seq<Record>, k: Key)
    ensures k in Aggregate(fs, s) <==> exists r :: r in s && r.key == k
  {
    WriteAllKeys(fs, map[], s, k);
  }

  /** The value of a minimum is a lower bound of what was written and one of the values. */
  lemma {:induction false} WriteAllMin(fs: seq<AggrFunc>, m: Memory, s: seq<Record>, k: Key, i: nat)
    requires i < |fs| && fs[i] == Min && k in WriteAll(fs, m, s)
    ensures var v := At(WriteAll(fs, m, s)[k], i);
      && (k in m ==> v <= At(m[k], i)) && (forall r | r in s && r.key == k :: v <= At(r.vals, i))
      && ((k in m && v == At(m[k], i)) || exists r :: r in s && r.key == k && v == At(r.vals, i))
    decreases s
  {
    if |s| > 0 {
      WriteAllMin(fs, Write(fs, m, s[0]), s[1..], k, i);
      assert s == [s[0]] + s[1..];
    }
  }

  lemma MinIsLeast(fs: seq<AggrFunc>, s: seq<Record>, k: Key, i: nat)
    requires i < |fs| && fs[i] == Min && k in Aggregate(fs, s)
    ensures forall r | r in s && r.key == k :: At(Aggregate(fs, s)[k], i) <= At(r.vals, i)
    ensures exists r :: r in s && r.key == k && At(Aggregate(fs, s)[k], i) == At(r.vals, i)
  {
    WriteAllMin(fs, map[], s, k, i);
  }

  lemma {:induction false} WriteAllMax(fs: seq<AggrFunc>, m: Memory, s: seq<Record>, k: Key, i: nat)
    requires i < |fs| && fs[i] == Max && k in WriteAll(fs, m, s)
    ensures var v := At(WriteAll(fs, m, s)[k], i);
      && (k in m ==> v >= At(m[k], i)) && (forall r | r in s && r.key == k :: v >= At(r.vals, i))
      && ((k in m && v == At(m[k], i)) || exists r :: r in s && r.key == k && v == At(r.vals, i))
    decreases s
  {
    if |s| > 0 {
      WriteAllMax(fs, Write(fs, m, s[0]), s[1..], k, i);
      assert s == [s[0]] + s[1..];
    }
  }

  lemma MaxIsGreatest(fs: seq<AggrFunc>, s: seq<Record>, k: Key, i: nat)
    requires i < |fs| && fs[i] == Max && k in Aggregate(fs, s)
    ensures forall r | r in s && r.key == k :: At(Aggregate(fs, s)[k], i) >= At(r.vals, i)
    ensures exists r :: r in s && r.key == k && At(Aggregate(fs, s)[k], i) == At(r.vals, i)
  {
    WriteAllMax(fs, map[], s, k, i);
  }

  /** Bit `j` of a number. */
  predicate Bit(n: nat, j: nat) {
    if j == 0 then n % 2 == 1 else Bit(n / 2, j - 1)
  }

  lemma {:induction false} ZeroBits(j: nat)
    ensures !Bit(0, j)
  {
    if j > 0 {
      ZeroBits(j - 1);
    }
  }

  lemma {:induction false} OrBit(a: nat, b: nat, j: nat)
    ensures Bit(Or(a, b), j) <==> Bit(a, j) || Bit(b, j)
  {
    if a == 0 || b == 0 {
      ZeroBits(j);
    } else if j > 0 {
      OrBit(a / 2, b / 2, j - 1);
    }
  }

  lemma {:induction false} WriteAllBits(fs: seq<AggrFunc>, m: Memory, s: seq<Record>, k: Key, i: nat, j: nat)
    requires i < |fs| && fs[i] == BitOr && k in WriteAll(fs, m, s)
    ensures Bit(At(WriteAll(fs, m, s)[k], i), j) <==>
      (k in m && Bit(At(m[k], i), j)) || exists r :: r in s && r.key == k && Bit(At(r.vals, i), j)
    decreases s
  {
    if |s| > 0 {
      var r := s[0];
      WriteAllBits(fs, Write(fs, m, r), s[1..], k, i, j);
      assert s == [r] + s[1..];
      if r.key in m {
        OrBit(At(m[r.key], i), At(r.vals, i), j);
      }
    }
  }

  /** A bit of an OR is set if and only if it is set in one of the records. */
  lemma OrIsUnion(fs: seq<AggrFunc>, s: seq<Record>, k: Key, i: nat, j: nat)
    requires i < |fs| && fs[i] == BitOr && k in Aggregate(fs, s)
    ensures Bit(At(Aggregate(fs, s)[k], i), j) <==> exists r :: r in s && r.key == k && Bit(At(r.vals, i), j)
  {
    WriteAllBits(fs, map[], s, k, i, j);
  }
}
