/** A Top-N query over the wire: each of its three phases is an exchange of encoded messages. */
module WireTopN {
  import opened Ordering
  import opened Framing
  import opened Encoding
  import opened Interleaving
  import opened Aggregation
  import opened Tput
  import opened TputMemory
  import opened TputSession
  import opened Rounding
  import opened SortMode
  import opened Transport
  import Wire

  /** The records of the sources fit the widths of the fields, and there are not too many. */
  ghost predicate SourcesFit(codec: Codec<Record>, locals: seq<seq<Record>>) {
    codec.EachFit(locals) && forall i | 0 <= i < |locals| :: |locals[i]| <= SIZE_MAX
  }

  /** A phase: whatever the interleaving, the master has received the records that were sent. */
  method Deliver(codec: Codec<Record>, lists: seq<seq<Record>>, deliver: seq<seq<seq<Byte>>> -> seq<(nat, seq<Byte>)>,
                 size: nat)
    returns (arrived: seq<Record>)
    requires |lists| > 0 && codec.Valid() && SourcesFit(codec, lists)
    requires SIZE_BYTES + codec.maxRaw <= size < 0x8000_0000 && Wire.Delivers(deliver)
    ensures multiset(arrived) == multiset(Flatten(lists))
  {
    arrived := Wire.Exchange(codec, lists, 0, deliver, size);
    Wire.NotTruncated(lists);
    ghost var order :| Interleaves(order, lists) && arrived == Untag(order);
    InterleavesContents(order, lists);
  }

  lemma CutsFit(codec: Codec<Record>, locals: seq<seq<Record>>, sent: seq<seq<Record>>)
    requires SourcesFit(codec, locals) && |sent| == |locals| && forall i | 0 <= i < |sent| :: sent[i] <= locals[i]
    ensures SourcesFit(codec, sent)
  {
    forall i | 0 <= i < |sent|
      ensures codec.AllFit(sent[i])
    {
      assert codec.AllFit(locals[i]);
    }
  }

  lemma LookupsFit(codec: Codec<Record>, locals: seq<seq<Record>>, keys: set<Key>, sent: seq<seq<Record>>)
    requires SourcesFit(codec, locals) && SameContents(sent, Phase3Sent(keys, locals))
    ensures SourcesFit(codec, sent)
  {
    forall i | 0 <= i < |sent|
      ensures codec.AllFit(sent[i]) && |sent[i]| <= SIZE_MAX
    {
      LookupFits(codec, locals[i], keys, sent[i]);
    }
  }

  lemma LookupFits(codec: Codec<Record>, local: seq<Record>, keys: set<Key>, sent: seq<Record>)
    requires codec.AllFit(local) && |local| <= SIZE_MAX && multiset(sent) == multiset(Lookup(keys, local))
    ensures codec.AllFit(sent) && |sent| <= SIZE_MAX
  {
    LookupMember(keys, local);
    LookupShorter(keys, local);
    assert |multiset(sent)| == |multiset(Lookup(keys, local))|;
    forall j | 0 <= j < |sent|
      ensures codec.fits(sent[j])
    {
      assert sent[j] in multiset(sent);
      assert sent[j] in local;
    }
  }

  lemma {:induction false} LookupShorter(keys: set<Key>, s: seq<Record>)
    ensures |Lookup(keys, s)| <= |s|
  {
    if |s| > 0 {
      LookupShorter(keys, s[1..]);
    }
  }

  /** The whole query over the wire is a run of the protocol with the code's threshold, and exact where
      that threshold suffices. */
  method TopNOverTheWire(q: Query, le: (Record, Record) -> bool, sources: seq<HashMemory>, round: real -> real,
                         codec: Codec<Record>, deliver: seq<seq<seq<Byte>>> -> seq<(nat, seq<Byte>)>, size: nat)
    returns (printed: seq<Record>, ghost partial: seq<Record>, ghost final: seq<Record>)
    requires q.Enabled() && 0 < |sources| < 0x1_0000_0000_0000_0000 && Refines(q, le) && RoundsToDouble(round)
    requires ValidSources(q, sources) && codec.Valid() && SourcesFit(codec, Orders(sources))
    requires SIZE_BYTES + codec.maxRaw <= size < 0x8000_0000 && Wire.Delivers(deliver)
    ensures Run(q, CodeThreshold(round, Bottom(q, partial), |sources|), Orders(sources), partial, final, le)
    ensures printed == Cut(final, q.limit)
    ensures Suffices(q, |sources|, Bottom(q, partial), CodeThreshold(round, Bottom(q, partial), |sources|)) ==>
      IsExact(q, le, Orders(sources), printed)
    ensures AlwaysExact(q, |sources|) && BottomBelow(q, Orders(sources), 0x20_0000_0000_0000) ==>
      IsExact(q, le, Orders(sources), printed)
  {
    ghost var locals := Orders(sources);
    var bottom, received, memory;
    bottom, partial := Phase1OverTheWire(q, sources, codec, deliver, size);
    var threshold := CodeThreshold(round, bottom, |sources|);
    received := Phase2OverTheWire(q, le, sources, threshold, codec, deliver, size);
    memory := Phase3OverTheWire(q, le, sources, received, codec, deliver, size);
    printed := memory.FirstRecords(q.limit);
    final := memory.order;
    assert locals == Orders(sources);
    assert Run(q, threshold, locals, partial, final, le);
    SourcesAreLocals(q, sources);
    PrintsExactly(q, le, locals, round, partial, final);
  }

  method Phase1OverTheWire(q: Query, sources: seq<HashMemory>, codec: Codec<Record>,
                           deliver: seq<seq<seq<Byte>>> -> seq<(nat, seq<Byte>)>, size: nat)
    returns (bottom: nat, ghost partial: seq<Record>)
    requires q.Enabled() && |sources| > 0 && ValidSources(q, sources) && codec.Valid() &&
      SourcesFit(codec, Orders(sources))
    requires SIZE_BYTES + codec.maxRaw <= size < 0x8000_0000 && Wire.Delivers(deliver)
    ensures PartialListing(q, Orders(sources), partial) && bottom == Bottom(q, partial)
  {
    ghost var locals := Orders(sources);
    var sent := SendPhase1(q, sources);
    CutsFit(codec, locals, sent);
    var arrived := Deliver(codec, sent, deliver, size);
    bottom, partial := MasterPhase1(q, arrived, locals);
  }

  method Phase2OverTheWire(q: Query, le: (Record, Record) -> bool, sources: seq<HashMemory>, threshold: nat,
                           codec: Codec<Record>,
                           deliver: seq<seq<seq<Byte>>> -> seq<(nat,
                             seq<Byte>)>, size: nat) returns (received: seq<Record>)
    requires Refines(q, le) && |sources| > 0 && ValidSources(q, sources) && codec.Valid() &&
      SourcesFit(codec, Orders(sources))
    requires SIZE_BYTES + codec.maxRaw <= size < 0x8000_0000 && Wire.Delivers(deliver)
    ensures DistinctKeys(received) && KeysOf(received) == Candidates(q, threshold, Orders(sources))
  {
    ghost var locals := Orders(sources);
    var sent := SendPhase2(q, sources, threshold);
    CutsFit(codec, locals, sent);
    var arrived := Deliver(codec, sent, deliver, size);
    received := MasterPhase2(q, le, arrived, threshold, locals);
  }

  method Phase3OverTheWire(q: Query, le: (Record, Record) -> bool, sources: seq<HashMemory>, received: seq<Record>,
                           codec: Codec<Record>,
                           deliver: seq<seq<seq<Byte>>> -> seq<(nat,
                             seq<Byte>)>, size: nat) returns (memory: HashMemory)
    requires Refines(q, le) && |sources| > 0 && ValidSources(q, sources) && codec.Valid() &&
      SourcesFit(codec, Orders(sources))
    requires SIZE_BYTES + codec.maxRaw <= size < 0x8000_0000 && Wire.Delivers(deliver) && DistinctKeys(received)
    ensures Listing(le, memory.order,
              multiset(RecordsOf(Aggregate(q.funcs, Flatten(Phase3Sent(KeysOf(received), Orders(sources)))))))
  {
    ghost var locals := Orders(sources);
    var sent := SendPhase3(q, sources, received);
    LookupsFit(codec, locals, KeysOf(received), sent);
    SameFlattened(sent, Phase3Sent(KeysOf(received), locals));
    var arrived := Deliver(codec, sent, deliver, size);
    memory := Collect(q, le, arrived, Flatten(Phase3Sent(KeysOf(received), locals)));
  }
}
