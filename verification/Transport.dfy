/** Sending the records of a memory and receiving records from all sources, each with two buffers
    that take turns: one is worked on while the other belongs to the message passing library. */
module Transport {
  import opened Ordering
  import opened Framing

  const SIZE_MAX: nat := 0xFFFF_FFFF_FFFF_FFFF

  // ----- sending

  /** A thread's nonblocking sends to the master under one tag. The buffer of a started send may be
      read at any time until it is waited for; `snapshot` is what has to be read. */
  class SendPort {
    var pending: bool
    var buffer: array?<Byte>
    var length: nat
    ghost var snapshot: seq<Byte>
    var sent: seq<seq<Byte>>

    constructor ()
      ensures !pending && sent == []
    {
      pending, buffer, length, snapshot, sent := false, null, 0, [], [];
    }

    ghost predicate Intact()
      reads this, buffer
    {
      pending ==> buffer != null && length <= buffer.Length && buffer[..length] == snapshot
    }

    /** All messages handed over so far. */
    ghost function Queued(): seq<seq<Byte>>
      reads this
    {
      sent + (if pending then [snapshot] else [])
    }

    method Isend(b: array<Byte>, n: nat)
      requires !pending && n <= b.Length
      modifies this
      ensures pending && buffer == b && length == n && snapshot == b[..n]
      ensures sent == old(sent)
    {
      pending, buffer, length, snapshot := true, b, n, b[..n];
    }

    method Wait()
      requires Intact()
      modifies this
      ensures !pending && sent == old(Queued())
    {
      if pending {
        sent := sent + [buffer[..length]];
        pending := false;
      }
    }

    method Send(message: seq<Byte>)
      requires !pending
      modifies this
      ensures !pending && sent == old(sent) + [message]
    {
      sent := sent + [message];
    }
  }

  function Messages(groups: seq<seq<Raw>>): (r: seq<seq<Byte>>)
    ensures |r| == |groups|
  {
    seq(|groups|, i requires 0 <= i < |groups| => Frames(groups[i]))
  }

  method CopyInto(target: array<Byte>, offset: nat, source: seq<Byte>)
    requires offset + |source| <= target.Length
    modifies target
    ensures target[..offset] == old(target[..offset])
    ensures target[offset..offset + |source|] == source
  {
    for i := 0 to |source|
      invariant target[..offset] == old(target[..offset])
      invariant target[offset..offset + i] == source[..i]
    {
      target[offset + i] := source[i];
      assert target[offset..offset + i + 1] == target[offset..offset + i] + [source[i]];
    }
    assert source[..|source|] == source;
  }

  /** Reads a record of the memory into the buffer, unless the space left is too small. */
  method ReadRaw(record: Raw, buffer: array<Byte>, offset: nat, space: int) returns (fits: bool)
    requires space == buffer.Length - offset - SIZE_BYTES
    modifies buffer
    ensures fits == (|record| <= space)
    ensures fits ==> buffer[..offset + SIZE_BYTES + |record|] == old(buffer[..offset]) + Frame(record)
    ensures !fits ==> buffer[..] == old(buffer[..])
  {
    fits := |record| <= space;
    if fits {
      CopyInto(buffer, offset, Frame(record));
      assert buffer[..offset + |Frame(record)|] == buffer[..offset] + buffer[offset..offset + |Frame(record)|];
    }
  }

  /** No message is empty, so none is taken for a terminator, and all fit a buffer. */
  ghost predicate Sendable(groups: seq<seq<Raw>>, size: nat) {
    forall i | 0 <= i < |groups| :: groups[i] != [] && |Frames(groups[i])| <= size
  }

  /** Every message but the last is as full as it can be: the next record did not fit. */
  ghost predicate Packed(groups: seq<seq<Raw>>, size: nat) {
    forall i | 0 < i < |groups| :: groups[i] != [] && |Frames(groups[i - 1] + [groups[i][0]])| > size
  }

  /** So far, with `more` to be sent. */
  ghost predicate PackedBefore(groups: seq<seq<Raw>>, more: seq<Raw>, size: nat) {
    && Packed(groups, size)
    && (groups != [] && more != [] ==> |Frames(groups[|groups| - 1] + [more[0]])| > size)
  }

  lemma PackedNext(groups: seq<seq<Raw>>, group: seq<Raw>, rest: seq<Raw>, size: nat)
    requires group != [] && PackedBefore(groups, group + rest, size)
    requires rest != [] ==> |Frames(group + [rest[0]])| > size
    ensures PackedBefore(groups + [group], rest, size)
  {
  }

  /** Waits for the other buffer and starts sending this one. */
  method SendBuffer(port: SendPort, buffer: array<Byte>, length: nat, ghost base: seq<seq<Byte>>,
                    ghost groups: seq<seq<Raw>>, ghost group: seq<Raw>)
    requires Filled(buffer, length, group) && port.Intact()
    requires port.Queued() == base + Messages(groups) && Sendable(groups, buffer.Length) && group != []
    modifies port
    ensures port.pending && port.buffer == buffer && port.Intact()
    ensures port.Queued() == base + Messages(groups + [group]) && Sendable(groups + [group], buffer.Length)
    ensures Flatten(groups + [group]) == Flatten(groups) + group
  {
    port.Wait();
    port.Isend(buffer, length);
    GroupSent(groups, group);
    assert base + Messages(groups) + [Frames(group)] == base + (Messages(groups) + [Frames(group)]);
  }

  ghost predicate Filled(buffer: array<Byte>, offset: nat, group: seq<Raw>)
    reads buffer
  {
    offset <= buffer.Length && buffer[..offset] == Frames(group)
  }

  /** Appends a record to the buffer if there is room for it. */
  method StoreRecord(record: Raw, buffer: array<Byte>, offset: nat, ghost group: seq<Raw>)
    returns (fits: bool, next: nat)
    requires Filled(buffer, offset, group) && buffer.Length < 0x8000_0000
    modifies buffer
    ensures fits == (offset + SIZE_BYTES + |record| <= buffer.Length)
    ensures fits ==> Filled(buffer, next, group + [record]) && next == offset + SIZE_BYTES + |record|
    ensures !fits ==> Filled(buffer, offset, group)
  {
    RemainingSurvives(buffer.Length - offset - SIZE_BYTES);
    var space := CInt(SizeT(buffer.Length - offset - SIZE_BYTES));
    FramesGrow(group, record);
    fits := ReadRaw(record, buffer, offset, space);
    next := offset + SIZE_BYTES + |record|;
    if !fits {
      assert buffer[..offset] == buffer[..][..offset];
    }
  }

  /** Sends the records up to the limit (all if it is zero), then a terminator: as nonempty messages
      that fit the buffers, and without touching a buffer that is being sent. */
  method SendRawMem(records: seq<Raw>, limit: nat, port: SendPort, buff0: array<Byte>, buff1: array<Byte>, maxRaw: nat)
    returns (ghost groups: seq<seq<Raw>>)
    requires !port.pending && buff0 != buff1 && |records| <= SIZE_MAX
    requires buff0.Length == buff1.Length && SIZE_BYTES + maxRaw <= buff0.Length < 0x8000_0000
    requires forall r | r in records :: |r| <= maxRaw
    modifies port, buff0, buff1
    ensures !port.pending
    ensures port.sent == old(port.sent) + Messages(groups) + [[]]
    ensures Flatten(groups) == Cut(records, limit)
    ensures Sendable(groups, buff0.Length) && Packed(groups, buff0.Length)
  {
    var recLimit := if limit == 0 then SIZE_MAX else limit;
    var cursor: nat := 0;
    var filling, other := buff0, buff1;
    var offset: nat := 0;
    var inBuffer: nat := 0;
    groups := [];
    ghost var group: seq<Raw> := [];
    while cursor < |records| && recLimit > cursor
      invariant cursor <= |records| && cursor <= recLimit
      invariant (filling == buff0 && other == buff1) || (filling == buff1 && other == buff0)
      invariant Filled(filling, offset, group) && inBuffer == |group|
      invariant Sendable(groups, buff0.Length) && Underway(records, cursor, groups, group, buff0.Length)
      invariant port.pending ==> port.buffer == other
      invariant port.Intact()
      invariant port.Queued() == old(port.sent) + Messages(groups)
      decreases |records| - cursor, |group|
    {
      assert records[cursor] in records;
      Proceeds(records, cursor, groups, group, buff0.Length);
      var stored;
      stored, offset, inBuffer, groups, group :=
        StoreOrSend(records[cursor], filling, other, offset, inBuffer, port, old(port.sent), groups, group);
      if stored {
        cursor := cursor + 1;
      } else {
        filling, other := other, filling;
      }
    }
    LimitReached(records, limit, cursor);
    UnderwayEnds(records, cursor, groups, group, buff0.Length);
    groups := SendRest(port, filling, offset, inBuffer, old(port.sent), groups, group);
  }

  /** Stores a record, or sends the buffer if there is no room for it. */
  method StoreOrSend(record: Raw, filling: array<Byte>, other: array<Byte>, offset: nat, inBuffer: nat, port: SendPort,
                     ghost base: seq<seq<Byte>>, ghost groups: seq<seq<Raw>>, ghost group: seq<Raw>)
    returns (stored: bool, next: nat, count: nat, ghost sent: seq<seq<Raw>>, ghost held: seq<Raw>)
    requires filling != other && SIZE_BYTES + |record| <= filling.Length == other.Length < 0x8000_0000
    requires Filled(filling, offset, group) && inBuffer == |group|
    requires port.Intact() && (port.pending ==> port.buffer == other)
    requires port.Queued() == base + Messages(groups) && Sendable(groups, filling.Length)
    modifies port, filling
    ensures count == |held| && port.Intact() && port.Queued() == base + Messages(sent) && Sendable(sent, filling.Length)
    ensures stored ==> sent == groups && held == group + [record] && Filled(filling, next, held)
    ensures !stored ==> group != [] && sent == groups + [group] && held == [] && Filled(other, next, held)
    ensures !stored ==> Flatten(sent) + held == Flatten(groups) + group && |Frames(group + [record])| > filling.Length
    ensures port.pending ==> port.buffer == if stored then other else filling
  {
    FramesGrow(group, record);
    stored, next := StoreRecord(record, filling, offset, group);
    if stored {
      sent, held, count := groups, group + [record], inBuffer + 1;
    } else {
      SendBuffer(port, filling, offset, base, groups, group);
      sent, held, next, count := groups + [group], [], 0, 0;
    }
  }

  /** Sends what is left in the buffer, then the terminator. */
  method SendRest(port: SendPort, buffer: array<Byte>, length: nat, inBuffer: nat, ghost base: seq<seq<Byte>>,
                  ghost groups: seq<seq<Raw>>, ghost group: seq<Raw>) returns (ghost all: seq<seq<Raw>>)
    requires Filled(buffer, length, group) && port.Intact() && inBuffer == |group|
    requires port.Queued() == base + Messages(groups) && Sendable(groups, buffer.Length)
    modifies port
    ensures !port.pending && port.sent == base + Messages(all) + [[]]
    ensures Flatten(all) == Flatten(groups) + group && Sendable(all, buffer.Length)
    ensures all == groups + if group == [] then [] else [group]
  {
    all := groups;
    if inBuffer != 0 {
      SendBuffer(port, buffer, length, base, groups, group);
      all := groups + [group];
    }
    port.Wait();
    port.Send([]);
  }

  lemma LimitReached(records: seq<Raw>, limit: nat, cursor: nat)
    requires cursor <= |records| <= SIZE_MAX
    requires limit > 0 ==> cursor <= limit
    requires cursor == |records| || cursor >= if limit == 0 then SIZE_MAX else limit
    ensures records[..cursor] == Cut(records, limit)
  {
  }

  /** The first `cursor` records are in the messages sent and in the buffer. */
  ghost predicate Underway(records: seq<Raw>, cursor: nat, groups: seq<seq<Raw>>, group: seq<Raw>, size: nat) {
    && cursor <= |records| && Flatten(groups) + group == records[..cursor]
    && PackedBefore(groups, group + records[cursor..], size)
  }

  /** The next record is stored, or the buffer is sent because there is no room for it. */
  lemma Proceeds(records: seq<Raw>, cursor: nat, groups: seq<seq<Raw>>, group: seq<Raw>, size: nat)
    requires cursor < |records| && Underway(records, cursor, groups, group, size)
    ensures Underway(records, cursor + 1, groups, group + [records[cursor]], size)
    ensures group != [] && |Frames(group + [records[cursor]])| > size ==>
      Underway(records, cursor, groups + [group], [], size)
  {
    var rest := records[cursor..];
    assert records[..cursor + 1] == records[..cursor] + [records[cursor]];
    AppendAssociates(Flatten(groups), group, [records[cursor]]);
    assert group + rest == (group + [records[cursor]]) + records[cursor + 1..];
    if group != [] && |Frames(group + [rest[0]])| > size {
      GroupSent(groups, group);
      PackedNext(groups, group, rest, size);
      assert [] + rest == rest && Flatten(groups + [group]) + [] == Flatten(groups + [group]);
    }
  }

  lemma UnderwayEnds(records: seq<Raw>, cursor: nat, groups: seq<seq<Raw>>, group: seq<Raw>, size: nat)
    requires Underway(records, cursor, groups, group, size)
    ensures Flatten(groups) + group == records[..cursor]
    ensures Packed(groups + (if group == [] then [] else [group]), size)
  {
    assert groups + [] == groups;
  }

  lemma GroupSent(groups: seq<seq<Raw>>, group: seq<Raw>)
    ensures Messages(groups + [group]) == Messages(groups) + [Frames(group)]
    ensures Flatten(groups + [group]) == Flatten(groups) + group
  {
    FlattenAppend(groups, [group]);
    FlattenOne(group);
  }

  // ----- receiving

  /** The master's nonblocking receives under one tag. Until it is waited for, a posted receive may
      write to its buffer at any time. */
  class ReceivePort {
    var posted: array?<Byte>
    var arrivals: seq<seq<Byte>>

    constructor (arrivals: seq<seq<Byte>>)
      ensures posted == null && this.arrivals == arrivals
    {
      posted, this.arrivals := null, arrivals;
    }

    method Irecv(b: array<Byte>)
      requires posted == null
      modifies this
      ensures posted == b && arrivals == old(arrivals)
    {
      posted := b;
    }

    /** The library at work while the master is busy: the posted buffer may be written already. */
    method Progress()
      modifies posted
    {
      if * {
        if posted != null && |arrivals| > 0 && |arrivals[0]| <= posted.Length {
          CopyInto(posted, 0, arrivals[0]);
        }
      }
    }

    method Wait() returns (size: nat)
      requires posted != null && |arrivals| > 0 && |arrivals[0]| <= posted.Length
      modifies this, posted
      ensures posted == null && arrivals == old(arrivals)[1..]
      ensures size == |old(arrivals)[0]| <= old(posted).Length
      ensures old(posted)[..size] == old(arrivals)[0]
    {
      CopyInto(posted, 0, arrivals[0]);
      size := |arrivals[0]|;
      assert posted[..size] == posted[0..0 + size];
      posted, arrivals := null, arrivals[1..];
    }
  }

  function Terminators<T>(groups: seq<seq<T>>): (c: nat)
    ensures c <= |groups|
  {
    if |groups| == 0 then 0 else (if groups[0] == [] then 1 else 0) + Terminators(groups[1..])
  }

  lemma {:induction false} TerminatorsAppend<T>(a: seq<seq<T>>, b: seq<seq<T>>)
    ensures Terminators(a + b) == Terminators(a) + Terminators(b)
  {
    if |a| == 0 {
      assert a + b == b;
    } else {
      assert (a + b)[1..] == a[1..] + b;
      TerminatorsAppend(a[1..], b);
    }
  }

  lemma TerminatorsGrow<T>(groups: seq<seq<T>>, n: nat)
    requires n < |groups|
    ensures Terminators(groups[..n + 1]) == Terminators(groups[..n]) + (if groups[n] == [] then 1 else 0)
  {
    assert groups[..n + 1] == groups[..n] + [groups[n]];
    TerminatorsAppend(groups[..n], [groups[n]]);
    assert [groups[n]][1..] == [];
  }

  /** Cuts a message of the given size into its records, until the limit is reached. */
  method ParseMessage(port: ReceivePort, buffer: array<Byte>, size: nat, ghost group: seq<Raw>, limit: nat, before: nat)
    returns (records: seq<Raw>, exceeded: bool)
    requires size <= buffer.Length && buffer[..size] == Frames(group)
    requires port.posted != buffer
    requires limit == 0 || before < limit
    modifies port.posted
    ensures records <= group
    ensures exceeded <==> limit > 0 && before + |records| == limit
    ensures !exceeded ==> records == group
    ensures limit > 0 ==> before + |records| <= limit
  {
    records, exceeded := [], false;
    var ptr: nat := 0;
    ghost var message, rest := buffer[..size], group;
    while ptr < size
      invariant ptr <= size && buffer[..size] == message
      invariant message[ptr..] == Frames(rest)
      invariant records + rest == group
      invariant limit == 0 || before + |records| < limit
      invariant !exceeded
      decreases |rest|
    {
      var record;
      record, ptr := TakeRecord(port, buffer, ptr, message, rest);
      records, rest := records + [record], rest[1..];
      if before + |records| == limit {
        exceeded := true;
        return;
      }
    }
  }

  /** Hands on the record at `ptr`, while the library may write to the other buffer. */
  method TakeRecord(port: ReceivePort, buffer: array<Byte>, ptr: nat, ghost message: seq<Byte>, ghost rest: seq<Raw>)
    returns (record: Raw, next: nat)
    requires ptr < |message| <= buffer.Length && buffer[..|message|] == message
    requires message[ptr..] == Frames(rest) && port.posted != buffer
    modifies port.posted
    ensures |rest| > 0 && record == rest[0]
    ensures next <= |message| && message[next..] == Frames(rest[1..])
    ensures buffer[..|message|] == message
  {
    NextRecord(message, ptr, rest);
    var recSize := GetSize(buffer[ptr..ptr + SIZE_BYTES]);
    assert recSize == |rest[0]| by {
      assert buffer[ptr..ptr + SIZE_BYTES] == message[ptr..ptr + SIZE_BYTES];
    }
    port.Progress();
    next := ptr + SIZE_BYTES + recSize;
    record := buffer[ptr + SIZE_BYTES..next];
    SamePart(buffer[..], message, ptr + SIZE_BYTES, next);
  }

  lemma SamePart(s: seq<Byte>, prefix: seq<Byte>, from: nat, to: nat)
    requires from <= to <= |prefix| <= |s| && s[..|prefix|] == prefix
    ensures s[from..to] == prefix[from..to]
  {
    forall i | 0 <= i < to - from
      ensures s[from..to][i] == prefix[from..to][i]
    {
      assert s[from + i] == s[..|prefix|][from + i];
    }
  }

  lemma NextRecord(message: seq<Byte>, ptr: nat, rest: seq<Raw>)
    requires ptr < |message| && message[ptr..] == Frames(rest)
    ensures |rest| > 0 && ptr + SIZE_BYTES + |rest[0]| <= |message|
    ensures GetSize(message[ptr..ptr + SIZE_BYTES]) == |rest[0]|
    ensures message[ptr + SIZE_BYTES..ptr + SIZE_BYTES + |rest[0]|] == rest[0]
    ensures message[ptr + SIZE_BYTES + |rest[0]|..] == Frames(rest[1..])
  {
    var n := |rest[0]|;
    FirstFrame(rest);
    PartOfTail(message, ptr, 0, SIZE_BYTES);
    PartOfTail(message, ptr, SIZE_BYTES, SIZE_BYTES + n);
    TailOfTail(message, ptr, SIZE_BYTES + n);
  }

  lemma PartOfTail(s: seq<Byte>, ptr: nat, from: nat, to: nat)
    requires ptr <= |s| && from <= to <= |s| - ptr
    ensures s[ptr..][from..to] == s[ptr + from..ptr + to]
  {
  }

  lemma TailOfTail(s: seq<Byte>, ptr: nat, from: nat)
    requires ptr <= |s| && from <= |s| - ptr
    ensures s[ptr..][from..] == s[ptr + from..]
  {
  }

  /** Receives from all sources until each has sent its terminator. The records handed on are those
      of the messages received, in order, cut at the limit; no receive is left outstanding. */
  method RecvLoop(port: ReceivePort, sources: nat, limit: nat, buff0: array<Byte>, buff1: array<Byte>,
                  ghost groups: seq<seq<Raw>>)
    returns (log: seq<Raw>, ghost received: nat)
    requires port.posted == null && buff0 != buff1 && buff0.Length == buff1.Length
    requires port.arrivals == Messages(groups)
    requires forall g | g in groups :: |Frames(g)| <= buff0.Length
    requires 0 < sources <= Terminators(groups)
    modifies port, buff0, buff1
    ensures port.posted == null
    ensures 0 < received <= |groups| && port.arrivals == old(port.arrivals)[received..]
    ensures Terminators(groups[..received]) == sources && groups[received - 1] == []
    ensures log == Cut(Flatten(groups[..received]), limit)
  {
    log, received := [], 0;
    var buffIdx := false;
    port.Irecv(buff0);
    var limitExceeded := false;
    var activeSources := sources;
    assert groups[..0] == [];
    while activeSources > 0
      invariant received <= |groups| && port.arrivals == Messages(groups)[received..]
      invariant Terminators(groups[..received]) == sources - activeSources
      invariant received > 0 && activeSources == 0 ==> groups[received - 1] == []
      invariant port.posted == if activeSources > 0 then (if buffIdx then buff1 else buff0) else null
      invariant log == Cut(Flatten(groups[..received]), limit)
      invariant limitExceeded <==> limit > 0 && |log| == limit
      invariant 0 <= activeSources
      decreases |groups| - received
    {
      assert received < |groups| by {
        assert groups[..|groups|] == groups;
      }
      TerminatorsGrow(groups, received);
      FlattenGrows(groups, received);
      ghost var group := groups[received];
      assert group in groups;
      assert port.arrivals[0] == Frames(group);
      var buffer := if buffIdx then buff1 else buff0;
      var size := port.Wait();
      assert port.arrivals == Messages(groups)[received + 1..];
      received := received + 1;
      if size == 0 {
        activeSources := activeSources - 1;
        if activeSources > 0 {
          port.Irecv(buffer);
        }
      } else {
        buffIdx := !buffIdx;
        port.Irecv(if buffIdx then buff1 else buff0);
        log, limitExceeded := HandOn(port, buffer, size, group, limit, Flatten(groups[..received - 1]), log,
          limitExceeded);
      }
    }
  }

  /** Hands on the records of a message, unless the limit has been reached. */
  method HandOn(port: ReceivePort, buffer: array<Byte>, size: nat, ghost group: seq<Raw>, limit: nat,
                ghost before: seq<Raw>,
                log: seq<Raw>, limitExceeded: bool) returns (more: seq<Raw>, exceeded: bool)
    requires size <= buffer.Length && buffer[..size] == Frames(group) && port.posted != buffer
    requires log == Cut(before, limit) && (limitExceeded <==> limit > 0 && |log| == limit)
    modifies port.posted
    ensures more == Cut(before + group, limit) && (exceeded <==> limit > 0 && |more| == limit)
  {
    if limitExceeded {
      return log, true;
    }
    var records;
    records, exceeded := ParseMessage(port, buffer, size, group, limit, |log|);
    more := log + records;
  }
}
