/** Queries over the wire: records are encoded, sent by every source through its two buffers, received
    and parsed by the master in any interleaving, decoded and printed. */
module Wire {
  import opened Ordering
  import opened Framing
  import opened Encoding
  import opened Interleaving
  import opened Aggregation
  import opened Transport
  import opened Delivery
  import opened SortMode
  import opened ListMode
  import opened ListQuery
  import opened ListSender
  import opened EndToEnd

  /** What arrives is an interleaving of what the sources have sent. */
  ghost predicate Delivers(deliver: seq<seq<seq<Byte>>> -> seq<(nat, seq<Byte>)>) {
    forall queues :: Interleaves(deliver(queues), queues)
  }

  function MessagesEach(queues: seq<seq<seq<Raw>>>): (r: seq<seq<seq<Byte>>>)
    ensures |r| == |queues|
  {
    seq(|queues|, i requires 0 <= i < |queues| => Messages(queues[i]))
  }

  function Mapped<A, B>(f: A -> B, s: seq<A>): (r: seq<B>)
    ensures |r| == |s|
  {
    seq(|s|, i requires 0 <= i < |s| => f(s[i]))
  }

  function MappedEach<A, B>(f: A -> B, ss: seq<seq<A>>): (r: seq<seq<B>>)
    ensures |r| == |ss|
  {
    seq(|ss|, i requires 0 <= i < |ss| => Mapped(f, ss[i]))
  }

  /** An interleaving of what is made of queued items is made of an interleaving of the items. */
  lemma {:induction false} Lifted<A, B>(f: A -> B, order: seq<(nat, B)>, queues: seq<seq<A>>)
    returns (arrivals: seq<(nat, A)>)
    requires Interleaves(order, MappedEach(f, queues))
    ensures Interleaves(arrivals, queues) && Untag(order) == Mapped(f, Untag(arrivals))
    decreases order
  {
    if |order| == 0 {
      arrivals := [];
      forall s | 0 <= s < |queues|
        ensures queues[s] == []
      {
        assert Project(order, s) == MappedEach(f, queues)[s];
      }
    } else {
      var s, y := order[0].0, order[0].1;
      InterleavesTail(order, MappedEach(f, queues));
      var rest := queues[s := queues[s][1..]];
      assert Mapped(f, queues[s])[1..] == Mapped(f, queues[s][1..]);
      assert MappedEach(f, rest) == MappedEach(f, queues)[s := MappedEach(f, queues)[s][1..]];
      var more := Lifted(f, order[1..], rest);
      var x := queues[s][0];
      arrivals := [(s, x)] + more;
      InterleavesCons(s, x, more, queues);
      UntagCons(s, y, order[1..]);
      UntagCons(s, x, more);
      assert order == [(s, y)] + order[1..];
    }
  }

  /** The groups of records behind messages that have arrived. */
  lemma GroupsArrived(order: seq<(nat, seq<Byte>)>, queues: seq<seq<seq<Raw>>>) returns (arrivals: seq<(nat, seq<Raw>)>)
    requires Interleaves(order, MessagesEach(queues))
    ensures Interleaves(arrivals, queues) && Untag(order) == Messages(Untag(arrivals))
  {
    var f := (g: seq<Raw>) => Frames(g);
    forall i | 0 <= i < |queues|
      ensures MessagesEach(queues)[i] == MappedEach(f, queues)[i]
    {
      assert Messages(queues[i]) == Mapped(f, queues[i]);
    }
    assert MessagesEach(queues) == MappedEach(f, queues);
    arrivals := Lifted(f, order, queues);
    assert Mapped(f, Untag(arrivals)) == Messages(Untag(arrivals));
  }

  lemma UntagCons<T>(s: nat, x: T, more: seq<(nat, T)>)
    ensures Untag([(s, x)] + more) == [x] + Untag(more)
  {
  }

  lemma InterleavesCons<T>(s: nat, x: T, more: seq<(nat, T)>, queues: seq<seq<T>>)
    requires s < |queues| && |queues[s]| > 0 && queues[s][0] == x
    requires Interleaves(more, queues[s := queues[s][1..]])
    ensures Interleaves([(s, x)] + more, queues)
  {
    var arrivals := [(s, x)] + more;
    assert arrivals[1..] == more;
    forall t | 0 <= t < |queues|
      ensures Project(arrivals, t) == queues[t]
    {
      assert Project(more, t) == queues[s := queues[s][1..]][t];
    }
  }

  // ----- sending

  /** What the messages of one source amount to. */
  ghost predicate SentAs(records: seq<Raw>, groups: seq<seq<Raw>>, sent: seq<seq<Byte>>, size: nat) {
    sent == Messages(groups + [[]]) && Flatten(groups) == records && Sendable(groups, size)
  }

  /** One source sends its first records through buffers of its own. */
  method SendList(records: seq<Raw>, limit: nat, size: nat, maxRaw: nat)
    returns (sent: seq<seq<Byte>>, ghost groups: seq<seq<Raw>>)
    requires |records| <= SIZE_MAX && SIZE_BYTES + maxRaw <= size < 0x8000_0000
    requires forall r | r in records :: |r| <= maxRaw
    ensures SentAs(Cut(records, limit), groups, sent, size)
  {
    var port := new SendPort();
    var buff0, buff1 := new Byte[size], new Byte[size];
    groups := SendRawMem(records, limit, port, buff0, buff1, maxRaw);
    sent := port.sent;
    assert sent == Messages(groups + [[]]);
  }

  ghost predicate AllSentAs(records: seq<seq<Raw>>, groups: seq<seq<seq<Raw>>>, sent: seq<seq<seq<Byte>>>, size: nat) {
    && |sent| == |groups| == |records|
    && forall i | 0 <= i < |sent| :: SentAs(records[i], groups[i], sent[i], size)
  }

  method SendAll<T(!new)>(codec: Codec<T>, lists: seq<seq<T>>, limit: nat, size: nat)
    returns (sent: seq<seq<seq<Byte>>>)
    requires codec.Valid() && SIZE_BYTES + codec.maxRaw <= size < 0x8000_0000
    requires codec.EachFit(lists) && forall i | 0 <= i < |lists| :: |lists[i]| <= SIZE_MAX
    ensures exists groups :: AllSentAs(codec.EncodedEach(Truncated(lists, limit)), groups, sent, size)
  {
    sent := [];
    ghost var groups: seq<seq<seq<Raw>>> := [];
    while |sent| < |lists|
      invariant |sent| == |groups| <= |lists|
      invariant forall i | 0 <= i < |sent| ::
        SentAs(codec.EncodedEach(Truncated(lists, limit))[i], groups[i], sent[i], size)
    {
      var messages;
      ghost var parts;
      messages, parts := SendEncoded(codec, lists[|sent|], limit, size);
      sent, groups := sent + [messages], groups + [parts];
    }
    assert AllSentAs(codec.EncodedEach(Truncated(lists, limit)), groups, sent, size);
  }

  method SendEncoded<T(!new)>(codec: Codec<T>, list: seq<T>, limit: nat, size: nat)
    returns (sent: seq<seq<Byte>>, ghost groups: seq<seq<Raw>>)
    requires codec.Valid() && SIZE_BYTES + codec.maxRaw <= size < 0x8000_0000 && |list| <= SIZE_MAX &&
      codec.AllFit(list)
    ensures SentAs(codec.Encoded(Cut(list, limit)), groups, sent, size)
  {
    sent, groups := SendList(codec.Encoded(list), limit, size, codec.maxRaw);
    assert Cut(codec.Encoded(list), limit) == codec.Encoded(Cut(list, limit));
  }

  // ----- receiving

  /** The master receives what all sources have sent. */
  method ReceiveAll(arrived: seq<(nat, seq<Byte>)>, limit: nat, size: nat, ghost records: seq<seq<Raw>>, sources: nat,
                    ghost groups: seq<seq<seq<Raw>>>, ghost sent: seq<seq<seq<Byte>>>) returns (log: seq<Raw>)
    requires sources == |sent| > 0 && AllSentAs(records, groups, sent, size)
    requires Interleaves(arrived, sent)
    ensures exists order :: Interleaves(order, records) && log == Cut(Untag(order), limit)
  {
    QueuesAsSent(records, groups, sent, size);
    ghost var arrivals := GroupsArrived(arrived, Queues(groups));
    GroupsFit(records, groups, sent, size, arrivals);
    var port := new ReceivePort(Untag(arrived));
    var buff0, buff1 := new Byte[size], new Byte[size];
    log := ReceiveFromAll(port, limit, buff0, buff1, records, sources, groups, arrivals);
  }

  lemma QueuesAsSent(records: seq<seq<Raw>>, groups: seq<seq<seq<Raw>>>, sent: seq<seq<seq<Byte>>>, size: nat)
    requires AllSentAs(records, groups, sent, size)
    ensures sent == MessagesEach(Queues(groups)) && NoEmptyMessage(groups)
    ensures forall i | 0 <= i < |groups| :: Flatten(groups[i]) == records[i]
  {
    forall i | 0 <= i < |sent|
      ensures sent[i] == MessagesEach(Queues(groups))[i] && [] !in groups[i] && Flatten(groups[i]) == records[i]
    {
      assert SentAs(records[i], groups[i], sent[i], size);
    }
  }

  /** No message that arrives exceeds the buffers. */
  lemma GroupsFit(records: seq<seq<Raw>>, groups: seq<seq<seq<Raw>>>, sent: seq<seq<seq<Byte>>>, size: nat,
                  arrivals: seq<(nat, seq<Raw>)>)
    requires AllSentAs(records, groups, sent, size) && Interleaves(arrivals, Queues(groups))
    ensures forall g | g in Untag(arrivals) :: |Frames(g)| <= size
  {
    InterleavesContents(arrivals, Queues(groups));
    forall g | g in Untag(arrivals)
      ensures |Frames(g)| <= size
    {
      assert g in multiset(Untag(arrivals));
      assert g in Flatten(Queues(groups));
      FlattenMember(Queues(groups), g);
      var i :| 0 <= i < |groups| && g in Queues(groups)[i];
      assert SentAs(records[i], groups[i], sent[i], size);
    }
  }

  // ----- whole queries

  /** Every source sends its first records and the master receives all of them, in some order that keeps
      the order of each source. */
  method Exchange<U(!new)>(codec: Codec<U>, lists: seq<seq<U>>, limit: nat,
                           deliver: seq<seq<seq<Byte>>> -> seq<(nat, seq<Byte>)>, size: nat) returns (received: seq<U>)
    requires |lists| > 0 && codec.Valid() && codec.EachFit(lists) && forall i | 0 <= i < |lists| ::
      |lists[i]| <= SIZE_MAX
    requires SIZE_BYTES + codec.maxRaw <= size < 0x8000_0000 && Delivers(deliver)
    ensures exists order :: Interleaves(order, Truncated(lists, limit)) && received == Untag(order)
  {
    var sent := SendAll(codec, lists, limit, size);
    ghost var records := codec.EncodedEach(Truncated(lists, limit));
    ghost var groups :| AllSentAs(records, groups, sent, size);
    var log := ReceiveAll(deliver(sent), 0, size, records, |lists|, groups, sent);
    received := codec.Decoded(log);
    ghost var order :| Interleaves(order, records) && log == Cut(Untag(order), 0);
    codec.InterleavesDecoded(order, Truncated(lists, limit));
    assert received == Untag(codec.DecodedTags(order));
  }

  /** Sort mode over the wire prints what one machine prints that reads and sorts every file. */
  method SortOverTheWire<T, U(!new)>(ghost plan: Plan<T, U>, le: (U, U) -> bool, limit: nat, lists: seq<seq<U>>,
                                     codec: Codec<U>,
                                     deliver: seq<seq<seq<Byte>>> -> seq<(nat,
                                       seq<Byte>)>, size: nat) returns (printed: seq<U>)
    requires plan.Valid() && TotalPreorder(le) && Antisymmetric(le) && |lists| == plan.threads > 0
    requires forall t | 0 <= t < |lists| :: Listing(le, lists[t], multiset(plan.Shares(|plan.files|)[t]))
    requires codec.Valid() && codec.EachFit(lists) && forall t | 0 <= t < |lists| :: |lists[t]| <= SIZE_MAX
    requires SIZE_BYTES + codec.maxRaw <= size < 0x8000_0000 && Delivers(deliver)
    ensures printed == Cut(Sort(le, plan.OnOneMachine()), limit)
  {
    var received := Exchange(codec, lists, limit, deliver, size);
    ghost var order :| Interleaves(order, Truncated(lists, limit)) && received == Untag(order);
    SortQuery(plan, le, limit, lists, order);
    printed := Cut(Sort(le, received), limit);
  }

  lemma NotTruncated<U>(lists: seq<seq<U>>)
    ensures Truncated(lists, 0) == lists
  {
  }

  /** Aggregation mode over the wire leaves the master with the memory of one machine that reads and
      aggregates every file. */
  method AggregateOverTheWire<T>(ghost plan: Plan<T, Record>, fs: seq<AggrFunc>, lists: seq<seq<Record>>,
                                 codec: Codec<Record>,
                                 deliver: seq<seq<seq<Byte>>> -> seq<(nat,
                                   seq<Byte>)>, size: nat) returns (memory: Memory)
    requires plan.Valid() && |lists| > 0 && Memories(fs, plan.Shares(|plan.files|), lists)
    requires codec.Valid() && codec.EachFit(lists) && forall t | 0 <= t < |lists| :: |lists[t]| <= SIZE_MAX
    requires SIZE_BYTES + codec.maxRaw <= size < 0x8000_0000 && Delivers(deliver)
    ensures memory == Aggregate(fs, plan.OnOneMachine())
  {
    var received := Exchange(codec, lists, 0, deliver, size);
    NotTruncated(lists);
    ghost var order :| Interleaves(order, lists) && received == Untag(order);
    AggregationQuery(plan, fs, lists, order);
    memory := Aggregate(fs, received);
  }

  // ----- list mode

  lemma {:induction false} TerminatorsEncoded<T(!new)>(codec: Codec<T>, ss: seq<seq<T>>)
    ensures Terminators(codec.EncodedEach(ss)) == Terminators(ss)
  {
    if |ss| > 0 {
      assert codec.EncodedEach(ss)[1..] == codec.EncodedEach(ss[1..]);
      TerminatorsEncoded(codec, ss[1..]);
    }
  }

  lemma {:induction false} FramesSize(s: seq<Raw>, recordBytes: nat)
    requires forall r | r in s :: |r| == recordBytes
    ensures |Frames(s)| == |s| * (recordBytes + 4)
  {
    if |s| > 0 {
      FramesSize(s[1..], recordBytes);
      assert s[0] in s;
      OneMore(|s[1..]|, recordBytes + 4);
    }
  }

  /** Every record a thread has sent matches. */
  lemma SentMatch<T(!new)>(c: Config<T>, jobs: seq<Job<T>>, x: T)
    requires c.Valid() && forall i | 0 <= i < |jobs| :: Complete(c, jobs[i])
    requires x in Records(Threads(c, jobs))
    ensures c.matches(x)
  {
    var lost := SlavesDone(c, jobs);
    assert x in multiset(Records(Threads(c, jobs)));
    assert x in multiset(AllMatching(c, jobs));
    AllMatchingMatch(c, jobs, x);
  }

  lemma {:induction false} MatchingMatch<T>(c: Config<T>, s: seq<T>, x: T)
    requires x in Matching(c, s)
    ensures c.matches(x)
  {
    if |s| > 0 && x in Matching(c, s[1..]) {
      MatchingMatch(c, s[1..], x);
    }
  }

  lemma {:induction false} AllMatchingMatch<T>(c: Config<T>, jobs: seq<Job<T>>, x: T)
    requires x in AllMatching(c, jobs)
    ensures c.matches(x)
  {
    if x in AllMatching(c, jobs[1..]) {
      AllMatchingMatch(c, jobs[1..], x);
    } else {
      MatchingMatch(c, Flatten(jobs[0].files), x);
    }
  }

  /** The records of a message are among the records sent. */
  lemma MessageRecords<T>(ts: seq<Thread<T>>, g: seq<T>, x: T)
    requires g in Flatten(Sents(ts)) && x in g
    ensures x in Records(ts)
  {
    FlattenMember(Sents(ts), g);
    var i :| 0 <= i < |ts| && g in Sents(ts)[i];
    FlattenMember(Sents(ts)[i], x);
    assert x in Contents(Sents(ts))[i];
    FlattenMember(Contents(Sents(ts)), x);
  }

  /** What the slaves' threads have sent fits the widths of the fields and the master's buffers. */
  lemma ListMessagesFit<T(!new)>(c: Config<T>, jobs: seq<Job<T>>, arrivals: seq<(nat, seq<T>)>, codec: Codec<T>)
    requires c.Valid() && forall i | 0 <= i < |jobs| :: Complete(c, jobs[i])
    requires Interleaves(arrivals, Sents(Threads(c, jobs))) && OneSize(c, codec) && forall x | c.matches(x) ::
      codec.fits(x)
    ensures codec.EachFit(Untag(arrivals))
    ensures forall g | g in Untag(arrivals) :: |Frames(codec.Encoded(g))| <= XCHG_BUFF_SIZE
  {
    var ts := Threads(c, jobs);
    var lost := SlavesDone(c, jobs);
    InterleavesContents(arrivals, Sents(ts));
    forall i | 0 <= i < |arrivals|
      ensures codec.AllFit(Untag(arrivals)[i]) && |Frames(codec.Encoded(Untag(arrivals)[i]))| <= XCHG_BUFF_SIZE
    {
      var g := Untag(arrivals)[i];
      assert g in multiset(Untag(arrivals));
      assert g in Flatten(Sents(ts));
      OneMessageFits(c, jobs, g, codec);
    }
  }

  lemma OneMessageFits<T(!new)>(c: Config<T>, jobs: seq<Job<T>>, g: seq<T>, codec: Codec<T>)
    requires c.Valid() && forall i | 0 <= i < |jobs| :: Complete(c, jobs[i])
    requires g in Flatten(Sents(Threads(c, jobs))) && OneSize(c, codec) && forall x | c.matches(x) :: codec.fits(x)
    ensures codec.AllFit(g) && |Frames(codec.Encoded(g))| <= XCHG_BUFF_SIZE
  {
    var lost := SlavesDone(c, jobs);
    MessageFits(c, Threads(c, jobs), g);
    forall x | x in g
      ensures c.matches(x)
    {
      MessageRecords(Threads(c, jobs), g, x);
      SentMatch(c, jobs, x);
    }
    MatchesFit(c, codec, g);
  }

  lemma MatchesFit<T(!new)>(c: Config<T>, codec: Codec<T>, g: seq<T>)
    requires OneSize(c, codec) && (forall x | c.matches(x) :: codec.fits(x)) && forall x | x in g :: c.matches(x)
    ensures codec.AllFit(g) && |Frames(codec.Encoded(g))| == |g| * (c.recordBytes + 4)
  {
    forall i | 0 <= i < |g|
      ensures codec.fits(g[i]) && |codec.Encoded(g)[i]| == c.recordBytes
    {
      assert g[i] in g;
    }
    FramesSize(codec.Encoded(g), c.recordBytes);
  }

  lemma MessageFits<T>(c: Config<T>, ts: seq<Thread<T>>, g: seq<T>)
    requires MessagesFit(c, ts) && ProperQueues(ts) && g in Flatten(Sents(ts))
    ensures |g| * (c.recordBytes + 4) <= XCHG_BUFF_SIZE
  {
    FlattenMember(Sents(ts), g);
    var i :| 0 <= i < |ts| && g in Sents(ts)[i];
    assert Sents(ts)[i] == Queues(Groups(ts))[i] == Groups(ts)[i] + [[]];
    if g in Groups(ts)[i] {
      assert ts[i] in ts && g in DataMessages(ts[i]);
    }
  }

  lemma ListTerminators<T(!new)>(c: Config<T>, jobs: seq<Job<T>>, arrivals: seq<(nat, seq<T>)>, n: nat)
    requires c.Valid() && forall i | 0 <= i < |jobs| :: Complete(c, jobs[i])
    requires Interleaves(arrivals, Sents(Threads(c, jobs))) && n <= |arrivals|
    ensures Terminators(Untag(arrivals)) == |Threads(c, jobs)|
    ensures Terminators(Untag(arrivals)[..n]) == |Threads(c, jobs)| ==> n == |arrivals|
  {
    var ts := Threads(c, jobs);
    var lost := SlavesDone(c, jobs);
    ArrivedTerminators(Groups(ts), arrivals);
    if Terminators(Untag(arrivals)[..n]) == |ts| {
      AllReceived(Groups(ts), arrivals, n);
    }
  }

  /** The byte messages of every thread, as its sender produces them. */
  ghost predicate ThreadMessages<T(!new)>(codec: Codec<T>, ts: seq<Thread<T>>, sent: seq<seq<seq<Byte>>>) {
    |sent| == |ts| && forall i | 0 <= i < |ts| :: sent[i] == Messages(codec.EncodedEach(ts[i].sent))
  }

  /** The groups of records behind the messages of list mode that have arrived. */
  lemma ListArrivals<T(!new)>(codec: Codec<T>, ts: seq<Thread<T>>, sent: seq<seq<seq<Byte>>>,
                              order: seq<(nat, seq<Byte>)>)
    returns (arrivals: seq<(nat, seq<T>)>)
    requires ThreadMessages(codec, ts, sent) && Interleaves(order, sent)
    ensures Interleaves(arrivals, Sents(ts)) && Untag(order) == Messages(codec.EncodedEach(Untag(arrivals)))
  {
    var f := (g: seq<T>) => Frames(codec.Encoded(g));
    forall i | 0 <= i < |ts|
      ensures sent[i] == MappedEach(f, Sents(ts))[i]
    {
      assert Messages(codec.EncodedEach(ts[i].sent)) == Mapped(f, ts[i].sent);
    }
    assert sent == MappedEach(f, Sents(ts));
    arrivals := Lifted(f, order, Sents(ts));
    assert Mapped(f, Untag(arrivals)) == Messages(codec.EncodedEach(Untag(arrivals)));
  }

  /** List mode over the wire, in any interleaving of the slaves' threads and of their messages: as many
      matching records are printed as the limit allows. The messages are those of `ListSender.RunThread`;
      all records that match have the same encoded size. */
  method ListOverTheWire<T(!new)>(ghost c: Config<T>, ghost jobs: seq<Job<T>>, codec: Codec<T>, limit: nat,
                                  sent: seq<seq<seq<Byte>>>, deliver: seq<seq<seq<Byte>>> -> seq<(nat, seq<Byte>)>)
    returns (printed: seq<T>)
    requires c.Valid() && c.limit == limit && forall i | 0 <= i < |jobs| :: Complete(c, jobs[i])
    requires |sent| > 0 && ThreadMessages(codec, Threads(c, jobs), sent) && Delivers(deliver)
    requires codec.Valid() && OneSize(c, codec) && forall x | c.matches(x) :: codec.fits(x)
    ensures |printed| == |Cut(AllMatching(c, jobs), limit)|
    ensures multiset(printed) <= multiset(AllMatching(c, jobs))
  {
    var order := deliver(sent);
    ghost var arrivals := ListArrivals(codec, Threads(c, jobs), sent, order);
    ghost var messages := Untag(arrivals);
    ghost var groups := codec.EncodedEach(messages);
    var port := new ReceivePort(Untag(order));
    var buff0, buff1 := new Byte[XCHG_BUFF_SIZE], new Byte[XCHG_BUFF_SIZE];
    ListMessagesFit(c, jobs, arrivals, codec);
    ListTerminators(c, jobs, arrivals, 0);
    TerminatorsEncoded(codec, messages);
    var log;
    ghost var received;
    log, received := RecvLoop(port, |sent|, limit, buff0, buff1, groups);
    assert groups[..received] == codec.EncodedEach(messages[..received]);
    TerminatorsEncoded(codec, messages[..received]);
    ListTerminators(c, jobs, arrivals, received);
    assert messages[..received] == messages;
    printed := codec.Decoded(log);
    ListPrinted(codec, messages, limit);
    ListExact(c, jobs, arrivals, printed);
  }

  lemma ListPrinted<T(!new)>(codec: Codec<T>, messages: seq<seq<T>>, limit: nat)
    requires codec.Valid() && codec.EachFit(messages)
    ensures codec.Decoded(Cut(Flatten(codec.EncodedEach(messages)), limit)) == Cut(Flatten(messages), limit)
  {
    var all := Flatten(messages);
    codec.FlattenEncoded(messages);
    codec.FlattenFits(messages);
    assert Cut(codec.Encoded(all), limit) == codec.Encoded(Cut(all, limit));
    codec.RoundTrip(Cut(all, limit));
  }
}
