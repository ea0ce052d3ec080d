/** The Top-N protocol as the master and the slaves carry it out on their memories. */
module TputMemory {
  import opened Ordering
  import opened Aggregation
  import opened Tput

  /** A position in a memory that is walked in sort order. */
  datatype Cursor = End | Position(index: nat)

  /** An aggregation memory. Its cursor order is kept sorted; how ties are broken is up to `le`. */
  class HashMemory {
    const query: Query
    const le: (Record, Record) -> bool
    var contents: Memory
    var order: seq<Record>

    ghost predicate Valid()
      reads this
    {
      && Refines(query, le)
      && Listing(le, order, multiset(RecordsOf(contents)))
    }

    constructor (query: Query, le: (Record, Record) -> bool)
      requires Refines(query, le)
      ensures Valid() && contents == map[] && this.query == query && this.le == le
    {
      this.query, this.le := query, le;
      contents, order := map[], [];
      new;
      assert RecordsOf(contents) == {};
    }

    method Write(r: Record)
      requires Valid()
      modifies this
      ensures Valid() && contents == Aggregation.Write(query.funcs, old(contents), r)
    {
      var was := contents;
      contents := Aggregation.Write(query.funcs, was, r);
      var k, v := r.key, contents[r.key];
      RecordsOfUpdate(was, k, v);
      WithoutListing(le, order, was, k);
      InsertSorted(le, Record(k, v), Without(k, order));
      order := Insert(le, Record(k, v), Without(k, order));
    }

    method WriteEach(arrived: seq<Record>)
      requires Valid()
      modifies this
      ensures Valid() && contents == WriteAll(query.funcs, old(contents), arrived)
    {
      var i := 0;
      while i < |arrived|
        invariant 0 <= i <= |arrived|
        invariant Valid() && contents == WriteAll(query.funcs, old(contents), arrived[..i])
      {
        assert arrived[..i + 1] == arrived[..i] + [arrived[i]];
        WriteAllAppend(query.funcs, old(contents), arrived[..i], [arrived[i]]);
        Write(arrived[i]);
        i := i + 1;
      }
      assert arrived[..i] == arrived;
    }

    function First(): Cursor
      reads this
    {
      if |order| == 0 then End else Position(0)
    }

    ghost predicate OnRecord(c: Cursor)
      reads this
    {
      c.Position? && c.index < |order|
    }

    function Next(c: Cursor): (n: Cursor)
      requires OnRecord(c)
      reads this
      ensures n.Position? ==> OnRecord(n) && n.index == c.index + 1
    {
      if c.index + 1 < |order| then Position(c.index + 1) else End
    }

    function Read(c: Cursor): Record
      requires OnRecord(c)
      reads this
    {
      order[c.index]
    }

    /** The first records up to a limit, all of them if the limit is zero. */
    method FirstRecords(limit: nat) returns (sent: seq<Record>)
      ensures sent == Cut(order, limit)
    {
      sent := [];
      var cursor := First();
      while cursor != End && (limit == 0 || limit > |sent|)
        invariant |sent| <= |order| && sent == order[..|sent|]
        invariant limit == 0 || |sent| <= limit
        invariant cursor == if |sent| < |order| then Position(|sent|) else End
        decreases |order| - |sent|
      {
        sent := sent + [Read(cursor)];
        cursor := Next(cursor);
      }
    }

    method CountRecords() returns (count: nat)
      ensures count == |order|
    {
      count := 0;
      var cursor := First();
      while cursor != End
        invariant count <= |order|
        invariant cursor == if count < |order| then Position(count) else End
        decreases |order| - count
      {
        cursor := Next(cursor);
        count := count + 1;
      }
    }

    /** Master, phase 1. */
    method FindBottom() returns (bottom: nat)
      requires query.limit > 0
      ensures bottom == Bottom(query, order)
    {
      var cursor := First();
      if cursor == End {
        return 0;
      }
      var nthOrLast := cursor;
      var position := 0;
      while cursor != End && position < query.limit
        invariant position <= |order| && position <= query.limit
        invariant cursor == if position < |order| then Position(position) else End
        invariant OnRecord(nthOrLast)
        invariant position > 0 ==> nthOrLast.index == position - 1
        decreases |order| - position
      {
        nthOrLast := cursor;
        cursor := Next(cursor);
        position := position + 1;
      }
      bottom := query.Value(Read(nthOrLast));
    }

    /** Slave, phase 2: how many leading records meet the threshold. */
    method FindThresholdCount(threshold: nat) returns (count: nat)
      ensures count == ThresholdCount(query, threshold, order)
    {
      count := 0;
      var cursor := First();
      if cursor == End {
        return;
      }
      while true
        invariant count < |order| && cursor == Position(count)
        invariant forall i | 0 <= i < count :: query.Within(query.Value(order[i]), threshold)
        decreases |order| - count
      {
        var value := query.Value(Read(cursor));
        if query.dir == Desc && value >= threshold {
          count := count + 1;
        } else if query.dir == Asc && value <= threshold {
          count := count + 1;
        } else {
          break;
        }
        cursor := Next(cursor);
        if cursor == End {
          break;
        }
      }
      ThresholdCountUnique(query, threshold, order, count);
    }

    /** Slave, phase 3: the own records of the keys received. */
    method LookUpEach(received: seq<Record>) returns (found: seq<Record>)
      requires Valid() && DistinctKeys(received)
      ensures multiset(found) == multiset(Lookup(KeysOf(received), order))
    {
      found := [];
      var i := 0;
      while i < |received|
        invariant 0 <= i <= |received|
        invariant forall r :: multiset(found)[r] == FoundCount(contents, received[..i], r)
      {
        var k := received[i].key;
        assert received[..i + 1] == received[..i] + [received[i]];
        FoundCountAppend(contents, received[..i], received[i]);
        if k in contents {
          found := found + [Record(k, contents[k])];
        }
        i := i + 1;
      }
      assert received[..i] == received;
      forall r
        ensures multiset(found)[r] == multiset(Lookup(KeysOf(received), order))[r]
      {
        FoundCountDistinct(contents, received, r);
        LookupCount(KeysOf(received), order, contents, r);
      }
    }
  }

  lemma {:induction false} ThresholdCountUnique(q: Query, threshold: nat, s: seq<Record>, c: nat)
    requires c <= |s|
    requires forall i | 0 <= i < c :: q.Within(q.Value(s[i]), threshold)
    requires c < |s| ==> !q.Within(q.Value(s[c]), threshold)
    ensures c == ThresholdCount(q, threshold, s)
  {
    if c > 0 {
      forall i | 0 <= i < c - 1
        ensures q.Within(q.Value(s[1..][i]), threshold)
      {
        assert s[1..][i] == s[i + 1];
      }
      ThresholdCountUnique(q, threshold, s[1..], c - 1);
      assert q.Within(q.Value(s[0]), threshold);
    }
  }

  // ----- replacing the record of a key

  function Without(k: Key, s: seq<Record>): seq<Record> {
    if |s| == 0 then []
    else (if s[0].key == k then [] else [s[0]]) + Without(k, s[1..])
  }

  lemma {:induction false} WithoutCount(k: Key, s: seq<Record>, r: Record)
    ensures multiset(Without(k, s))[r] == if r.key == k then 0 else multiset(s)[r]
  {
    if |s| > 0 {
      WithoutCount(k, s[1..], r);
      assert s == [s[0]] + s[1..];
    }
  }

  lemma {:induction false} WithoutSorted(le: (Record, Record) -> bool, k: Key, s: seq<Record>)
    requires SortedBy(le, s)
    ensures SortedBy(le, Without(k, s))
  {
    if |s| > 0 {
      var rest := Without(k, s[1..]);
      WithoutSorted(le, k, s[1..]);
      forall r | r in rest
        ensures r in s[1..]
      {
        WithoutCount(k, s[1..], r);
        assert r in multiset(rest);
        assert r in multiset(s[1..]);
      }
      var head := if s[0].key == k then [] else [s[0]];
      SortedConcat(le, head, rest);
    }
  }

  lemma WithoutListing(le: (Record, Record) -> bool, s: seq<Record>, m: Memory, k: Key)
    requires Listing(le, s, multiset(RecordsOf(m)))
    ensures Listing(le, Without(k, s), multiset(RecordsOf(m - {k})))
  {
    WithoutSorted(le, k, s);
    forall r
      ensures multiset(Without(k, s))[r] == multiset(RecordsOf(m - {k}))[r]
    {
      WithoutCount(k, s, r);
      RecordsOfMember(m, r);
      RecordsOfMember(m - {k}, r);
    }
  }

  // ----- what a lookup of several keys finds

  /** How often `r` is found when the keys of `received` are looked up one after another. */
  ghost function FoundCount(m: Memory, received: seq<Record>, r: Record): nat {
    if |received| == 0 then 0
    else
      var last := received[|received| - 1];
      FoundCount(m, received[..|received| - 1], r)
      + (if last.key == r.key && r in RecordsOf(m) then 1 else 0)
  }

  lemma FoundCountAppend(m: Memory, s: seq<Record>, x: Record)
    ensures forall r ::
      FoundCount(m, s + [x], r) == FoundCount(m, s, r) + (if x.key == r.key && r in RecordsOf(m) then 1 else 0)
  {
    assert (s + [x])[..|s|] == s;
  }

  lemma {:induction false} FoundCountDistinct(m: Memory, s: seq<Record>, r: Record)
    requires DistinctKeys(s)
    ensures FoundCount(m, s, r) == if r in RecordsOf(m) && r.key in KeysOf(s) then 1 else 0
  {
    if |s| > 0 {
      var front, last := s[..|s| - 1], s[|s| - 1];
      FoundCountDistinct(m, front, r);
      assert s == front + [last];
      assert KeysOf(s) == KeysOf(front) + {last.key};
      assert last.key !in KeysOf(front);
    }
  }

  lemma {:induction false} LookupMultiplicity(keys: set<Key>, s: seq<Record>, r: Record)
    ensures multiset(Lookup(keys, s))[r] == if r.key in keys then multiset(s)[r] else 0
  {
    if |s| > 0 {
      LookupMultiplicity(keys, s[1..], r);
      assert s == [s[0]] + s[1..];
    }
  }

  lemma LookupCount(keys: set<Key>, s: seq<Record>, m: Memory, r: Record)
    requires multiset(s) == multiset(RecordsOf(m))
    ensures multiset(Lookup(keys, s))[r] == if r in RecordsOf(m) && r.key in keys then 1 else 0
  {
    LookupMultiplicity(keys, s, r);
  }
}
