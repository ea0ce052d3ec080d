/** Senders and receiver together: whatever the interleaving of the sources' messages, the receive
    loop ends with nothing in flight and hands on every record. */
module Delivery {
  import opened Ordering
  import opened Framing
  import opened Interleaving
  import opened Transport

  /** What a source sends: its data messages, then the terminator. */
  function Queues<T>(groups: seq<seq<seq<T>>>): (r: seq<seq<seq<T>>>)
    ensures |r| == |groups|
  {
    seq(|groups|, i requires 0 <= i < |groups| => groups[i] + [[]])
  }

  ghost predicate NoEmptyMessage<T>(groups: seq<seq<seq<T>>>) {
    forall i | 0 <= i < |groups| :: [] !in groups[i]
  }

  lemma {:induction false} TerminatorsCount<T>(groups: seq<seq<T>>)
    ensures Terminators(groups) == multiset(groups)[[]]
  {
    if |groups| > 0 {
      TerminatorsCount(groups[1..]);
      assert groups == [groups[0]] + groups[1..];
    }
  }

  lemma {:induction false} QueuesTerminators<T>(groups: seq<seq<seq<T>>>)
    requires NoEmptyMessage(groups)
    ensures Terminators(Flatten(Queues(groups))) == |groups|
  {
    if |groups| > 0 {
      assert NoEmptyMessage(groups[1..]);
      QueuesTerminators(groups[1..]);
      assert Queues(groups)[1..] == Queues(groups[1..]);
      var first := groups[0] + [[]];
      TerminatorsAppend(first, Flatten(Queues(groups[1..])));
      var terminator: seq<seq<T>> := [[]];
      TerminatorsAppend(groups[0], terminator);
      assert terminator[1..] == [];
      TerminatorsCount(groups[0]);
    }
  }

  lemma ContentsOfQueues<T>(groups: seq<seq<seq<T>>>, records: seq<seq<T>>)
    requires |groups| == |records|
    requires forall i | 0 <= i < |groups| :: Flatten(groups[i]) == records[i]
    ensures Contents(Queues(groups)) == records
  {
    forall i | 0 <= i < |groups|
      ensures Flatten(Queues(groups)[i]) == records[i]
    {
      var terminator: seq<seq<T>> := [[]];
      FlattenAppend(groups[i], terminator);
      assert terminator[1..] == [];
      assert Flatten(terminator) == terminator[0] + [];
    }
  }

  lemma ArrivedTerminators<T>(groups: seq<seq<seq<T>>>, arrivals: seq<(nat, seq<T>)>)
    requires NoEmptyMessage(groups) && Interleaves(arrivals, Queues(groups))
    ensures Terminators(Untag(arrivals)) == |groups|
  {
    InterleavesContents(arrivals, Queues(groups));
    TerminatorsCount(Untag(arrivals));
    TerminatorsCount(Flatten(Queues(groups)));
    QueuesTerminators(groups);
  }

  lemma EndsInTerminator<T>(all: seq<seq<T>>, n: nat)
    requires n < |all| && all[|all| - 1] == []
    ensures Terminators(all[..n]) < Terminators(all)
  {
    var late := all[n..];
    assert all == all[..n] + late;
    TerminatorsAppend(all[..n], late);
    TerminatorsCount(late);
    assert late[|late| - 1] in late;
  }

  /** Once all terminators are counted, everything has been received. */
  lemma AllReceived<T>(groups: seq<seq<seq<T>>>, arrivals: seq<(nat, seq<T>)>, n: nat)
    requires NoEmptyMessage(groups) && Interleaves(arrivals, Queues(groups))
    requires n <= |arrivals| && Terminators(Untag(arrivals)[..n]) == |groups|
    ensures n == |arrivals|
  {
    ArrivedTerminators(groups, arrivals);
    if n < |arrivals| {
      InterleavesLast(arrivals, Queues(groups));
      EndsInTerminator(Untag(arrivals), n);
    }
  }

  /** `records[i]` is what source `i` has to send, in the messages `groups[i]`. The log is the start
      of an interleaving of the sources' records, all of it without a limit. */
  method ReceiveFromAll(port: ReceivePort, limit: nat, buff0: array<Byte>, buff1: array<Byte>,
                        ghost records: seq<seq<Raw>>,
                        sources: nat, ghost groups: seq<seq<seq<Raw>>>, ghost arrivals: seq<(nat, seq<Raw>)>)
    returns (log: seq<Raw>)
    requires port.posted == null && buff0 != buff1 && buff0.Length == buff1.Length
    requires sources == |groups| == |records| > 0 && NoEmptyMessage(groups)
    requires forall i | 0 <= i < |groups| :: Flatten(groups[i]) == records[i]
    requires Interleaves(arrivals, Queues(groups)) && port.arrivals == Messages(Untag(arrivals))
    requires forall g | g in Untag(arrivals) :: |Frames(g)| <= buff0.Length
    modifies port, buff0, buff1
    ensures port.posted == null && port.arrivals == []
    ensures exists order :: Interleaves(order, records) && log == Cut(Untag(order), limit)
  {
    ArrivedTerminators(groups, arrivals);
    ghost var received;
    log, received := RecvLoop(port, sources, limit, buff0, buff1, Untag(arrivals));
    AllReceived(groups, arrivals, received);
    assert Untag(arrivals)[..received] == Untag(arrivals);
    SpreadInterleaves(arrivals, Queues(groups));
    ContentsOfQueues(groups, records);
    UntagSpread(arrivals);
    assert Interleaves(Spread(arrivals), records) && log == Cut(Untag(Spread(arrivals)), limit);
  }
}
