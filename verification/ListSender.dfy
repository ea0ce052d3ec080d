/** One thread of list mode as it works on its buffers: every step of the thread of `ListMode` is carried
    out, whatever the shared counter and flag are found to be. */
module ListSender {
  import opened Ordering
  import opened Framing
  import opened Encoding
  import opened Transport
  import opened ListMode
  import opened ListPath

  /** The counter and the flag that all threads of a slave share. Whenever a thread looks, others may have
      changed them; `log` has everything this thread has done to them. */
  class Shared {
    var counter: nat
    var flag: bool
    ghost var log: seq<Access>

    method Others()
      modifies this`counter, this`flag
    {
      if * {
        counter := *;
        flag := *;
      }
    }

    method ReadFlag() returns (f: bool)
      modifies this
      ensures f == flag && log == old(log) + [LookFlag(f)]
    {
      Others();
      f, log := flag, log + [LookFlag(flag)];
    }

    method ReadCounter() returns (n: nat)
      modifies this
      ensures n == counter && log == old(log) + [LookCounter(n)]
    {
      Others();
      n, log := counter, log + [LookCounter(counter)];
    }

    method Add(n: nat) returns (ghost found: nat)
      modifies this
      ensures counter == found + n && log == old(log) + [Added(found, n)]
    {
      Others();
      found := counter;
      counter, log := counter + n, log + [Added(counter, n)];
    }

    method Raise()
      modifies this
      ensures flag && log == old(log) + [Raised]
    {
      Others();
      flag, log := true, log + [Raised];
    }
  }

  /** All records that match have the size the thread computes with. */
  ghost predicate OneSize<T(!new)>(c: Config<T>, codec: Codec<T>) {
    c.Valid() && forall x | c.matches(x) :: |codec.encode(x)| == c.recordBytes
  }

  /** The library has the messages of `sent`, and a buffer holds `held`. */
  ghost predicate Carries<T(!new)>(codec: Codec<T>, port: SendPort, base: seq<seq<Byte>>, sent: seq<seq<T>>)
    reads port, port.buffer
  {
    && port.Intact() && port.Queued() == base + Messages(codec.EncodedEach(sent))
    && Sendable(codec.EncodedEach(sent), XCHG_BUFF_SIZE)
  }

  ghost predicate HoldsRecords<T(!new)>(c: Config<T>, codec: Codec<T>, buffer: array<Byte>, offset: nat, held: seq<T>)
    reads buffer
  {
    && buffer.Length == XCHG_BUFF_SIZE && offset == |held| * (c.recordBytes + 4)
    && Filled(buffer, offset, codec.Encoded(held))
  }

  method SendHeld<T(!new)>(c: Config<T>, codec: Codec<T>, port: SendPort, buffer: array<Byte>, offset: nat,
                           ghost base: seq<seq<Byte>>, ghost sent: seq<seq<T>>, ghost held: seq<T>)
    requires Carries(codec, port, base, sent) && HoldsRecords(c, codec, buffer, offset, held) && held != []
    modifies port
    ensures port.pending && port.buffer == buffer && Carries(codec, port, base, sent + [held])
  {
    SendBuffer(port, buffer, offset, base, codec.EncodedEach(sent), codec.Encoded(held));
    assert codec.EncodedEach(sent + [held]) == codec.EncodedEach(sent) + [codec.Encoded(held)];
  }

  /** Writes the size and the fields of a record for which there is room. */
  method Store<T(!new)>(c: Config<T>, codec: Codec<T>, record: T, buffer: array<Byte>, offset: nat, ghost held: seq<T>)
    returns (next: nat)
    requires OneSize(c, codec) && c.matches(record) && HoldsRecords(c, codec, buffer, offset, held) && !c.Full(|held|)
    modifies buffer
    ensures HoldsRecords(c, codec, buffer, next, held + [record])
  {
    var fits;
    OneMore(|held|, c.recordBytes + 4);
    fits, next := StoreRecord(codec.encode(record), buffer, offset, codec.Encoded(held));
    assert codec.Encoded(held + [record]) == codec.Encoded(held) + [codec.encode(record)];
  }

  lemma NoneHeld<T(!new)>(c: Config<T>, codec: Codec<T>, buffer: array<Byte>)
    requires buffer.Length == XCHG_BUFF_SIZE
    ensures HoldsRecords(c, codec, buffer, 0, [])
  {
    assert buffer[..0] == [];
  }

  /** The buffer is sent, then its records are counted. */
  method SendAndCount<T(!new)>(c: Config<T>, codec: Codec<T>, filling: array<Byte>, offset: nat, inBuffer: nat,
                               shared: Shared,
                               port: SendPort, ghost base: seq<seq<Byte>>, ghost n: nat, ghost t0: Thread<T>)
    returns (ghost t: Thread<T>, ghost seen: seq<Seen<T>>)
    requires n <= |t0.sent| && inBuffer == |t0.buffer| > 0 && (t0.at.SendFull? || t0.at.SendLast?)
    requires Carries(codec, port, base, t0.sent[n..]) && HoldsRecords(c, codec, filling, offset, t0.buffer)
    modifies shared, port
    ensures t ==
      t0.(at := if t0.at.SendFull? then CheckLimit else FinalCheck, sent := t0.sent + [t0.buffer], uncounted := 0,
          buffer := [])
    ensures Took(c, t0, seen, t, old(shared.log), shared.log, [])
    ensures Carries(codec, port, base, t.sent[n..]) && port.pending && port.buffer == filling
  {
    ghost var o := Seen([], shared.counter, shared.flag);
    SendHeld(c, codec, port, filling, offset, base, t0.sent[n..], t0.buffer);
    assert (t0.sent + [t0.buffer])[n..] == t0.sent[n..] + [t0.buffer];
    t, seen := Stepped(c, t0, [], t0, o, shared.log, shared.log, shared.log);
    ghost var before := shared.log;
    ghost var found := shared.Add(inBuffer);
    o := Seen([], found, shared.flag);
    t, seen := Stepped(c, t0, seen, t, o, before, before, shared.log);
  }

  /** The next step of a path. */
  lemma Stepped<T(!new)>(c: Config<T>, t0: Thread<T>, seen: seq<Seen<T>>, t: Thread<T>, o: Seen<T>,
                         l0: seq<Access>, l1: seq<Access>, l2: seq<Access>)
    returns (t': Thread<T>, seen': seq<Seen<T>>)
    requires Took(c, t0, seen, t, l0, l1, []) && !t.at.Done? && l2 == l1 + AccessOf(c, t, o) && OpenedBy(t, o) == []
    ensures t' == After(c, t, o) && Took(c, t0, seen', t', l0, l2, [])
  {
    TookNext(c, t0, seen, t, o, l0, l1, l2, []);
    t', seen' := After(c, t, o), seen + [o];
  }

  /** A path and what follows. */
  lemma Joined<T(!new)>(c: Config<T>, t0: Thread<T>, seen: seq<Seen<T>>, t: Thread<T>, more: seq<Seen<T>>,
                        u: Thread<T>, l0: seq<Access>, l1: seq<Access>, l2: seq<Access>)
    returns (seen': seq<Seen<T>>)
    requires Took(c, t0, seen, t, l0, l1, []) && Took(c, t, more, u, l1, l2, [])
    ensures Took(c, t0, seen', u, l0, l2, [])
  {
    TookAppend(c, t0, seen, t, more, u, l0, l1, l2, [], []);
    seen' := seen + more;
  }

  /** The buffer is full: the thread gives up, or sends it and counts its records. */
  method FullBuffer<T(!new)>(c: Config<T>, codec: Codec<T>, filling: array<Byte>, offset: nat, inBuffer: nat,
                             shared: Shared,
                             port: SendPort, ghost base: seq<seq<Byte>>, ghost n: nat, ghost t0: Thread<T>)
    returns (broke: bool, ghost t: Thread<T>, ghost seen: seq<Seen<T>>)
    requires t0.at.CheckFlag? && n <= |t0.sent| && t0.buffer != [] && inBuffer == |t0.buffer| && |t0.hand| == 1
    requires Carries(codec, port, base, t0.sent[n..]) && HoldsRecords(c, codec, filling, offset, t0.buffer)
    requires t0.uncounted == 0
    modifies shared, port
    ensures Took(c, t0, seen, t, old(shared.log), shared.log, [])
    ensures t0.sent <= t.sent && t.uncounted == 0 && Carries(codec, port, base, t.sent[n..])
    ensures !broke ==> t.at.Read? && t.buffer == t0.hand && t.hand == [] && t.rest == t0.rest
    ensures !broke ==> port.pending && port.buffer == filling
    ensures broke ==> t.at.FinalCheck? && t.buffer == [] && t.hand == []
  {
    ghost var l0, l1 := shared.log, shared.log;
    var flag := shared.ReadFlag();
    t, seen := Stepped(c, t0, [], t0, Seen([], shared.counter, flag), l0, l0, shared.log);
    if flag {
      return true, t, seen;
    }
    l1 := shared.log;
    ghost var u, more := SendAndCount(c, codec, filling, offset, inBuffer, shared, port, base, n, t);
    seen := Joined(c, t0, seen, t, more, u, l0, l1, shared.log);
    t, l1 := u, shared.log;
    broke := LimitReached(c, shared);
    t, seen := Stepped(c, t0, seen, t, Seen([], shared.counter, shared.flag), l0, l1, shared.log);
    if broke {
      l1 := shared.log;
      shared.Raise();
      t, seen := Stepped(c, t0, seen, t, Seen([], 0, false), l0, l1, shared.log);
    }
  }

  /** Without a limit the counter is not looked at. */
  method LimitReached<T(!new)>(c: Config<T>, shared: Shared) returns (reached: bool)
    modifies shared
    ensures reached == c.LimitReached(shared.counter)
    ensures shared.log == old(shared.log) + if c.limit > 0 then [LookCounter(shared.counter)] else []
  {
    reached := false;
    if c.limit > 0 {
      var counter := shared.ReadCounter();
      reached := counter >= c.limit;
    }
  }

  /** The last look at the counter. */
  method LookAtCounter<T(!new)>(c: Config<T>, shared: Shared, ghost t0: Thread<T>)
    returns (ghost t: Thread<T>, ghost seen: seq<Seen<T>>)
    requires t0.at.FinalCheck?
    modifies shared
    ensures Took(c, t0, seen, t, old(shared.log), shared.log, []) && t == t0.(at := NextFile)
  {
    ghost var l0 := shared.log;
    var reached := LimitReached(c, shared);
    t, seen := Stepped(c, t0, [], t0, Seen([], shared.counter, shared.flag), l0, l0, shared.log);
    if reached {
      ghost var l1 := shared.log;
      shared.Raise();
      t, seen := Stepped(c, t0, seen, t, Seen([], 0, false), l0, l1, shared.log);
    }
  }

  /** The end of a file: what is left in the buffer is sent and counted, the limit is checked. */
  method EndOfFile<T(!new)>(c: Config<T>, codec: Codec<T>, filling: array<Byte>, offset: nat, inBuffer: nat,
                            shared: Shared,
                            port: SendPort, ghost base: seq<seq<Byte>>, ghost n: nat, ghost t0: Thread<T>)
    returns (ghost t: Thread<T>, ghost seen: seq<Seen<T>>)
    requires n <= |t0.sent| && t0.uncounted == 0 && inBuffer == |t0.buffer| && t0.hand == []
    requires (t0.at.Read? && t0.rest == []) || (t0.at.FinalCheck? && t0.buffer == [])
    requires Carries(codec, port, base, t0.sent[n..]) &&
      (inBuffer > 0 ==> HoldsRecords(c, codec, filling, offset, t0.buffer))
    modifies shared, port
    ensures Took(c, t0, seen, t, old(shared.log), shared.log, [])
    ensures t.at.NextFile? && t0.sent <= t.sent && t.uncounted == 0 && t.buffer == [] && t.hand == []
    ensures !port.pending && Carries(codec, port, base, t.sent[n..])
  {
    ghost var l0, l1 := shared.log, shared.log;
    t, seen := t0, [];
    if t0.at.Read? {
      t, seen := Stepped(c, t0, [], t0, Seen([], 0, false), l0, l0, l0);
    }
    ghost var u, more;
    if inBuffer != 0 {
      u, more := SendAndCount(c, codec, filling, offset, inBuffer, shared, port, base, n, t);
      seen := Joined(c, t0, seen, t, more, u, l0, l1, shared.log);
      t, l1 := u, shared.log;
    }
    u, more := LookAtCounter(c, shared, t);
    seen := Joined(c, t0, seen, t, more, u, l0, l1, shared.log);
    t := u;
    port.Wait();
  }

  /** Reads a file and sends the records that match, through two buffers in turn: all of them, in order,
      unless a look at the flag or the counter has stopped it. */
  method ReadAndSend<T(!new)>(c: Config<T>, codec: Codec<T>, file: seq<T>, shared: Shared, port: SendPort,
                              buff0: array<Byte>, buff1: array<Byte>, ghost n: nat, ghost base: seq<seq<Byte>>,
                              ghost t0: Thread<T>)
    returns (ghost t: Thread<T>, ghost seen: seq<Seen<T>>)
    requires OneSize(c, codec) && buff0 != buff1 && buff0.Length == buff1.Length == XCHG_BUFF_SIZE
    requires t0.at.Read? && t0.rest == file && t0.buffer == [] && t0.hand == [] && t0.uncounted == 0 && n <= |t0.sent|
    requires !port.pending && Carries(codec, port, base, t0.sent[n..])
    modifies shared, port, buff0, buff1
    ensures Took(c, t0, seen, t, old(shared.log), shared.log, [])
    ensures t.at.NextFile? && t0.sent <= t.sent && t.uncounted == 0 && t.buffer == [] && t.hand == []
    ensures !port.pending && Carries(codec, port, base, t.sent[n..])
    ensures Handled(c, t0, t, file, shared.log[|old(shared.log)|..])
  {
    ghost var l0, l1 := shared.log, shared.log;
    var cursor: nat := 0;
    var filling, other := buff0, buff1;
    var offset: nat, inBuffer: nat := 0, 0;
    var broke := false;
    t, seen := t0, [];
    NoneHeld(c, codec, filling);
    while cursor < |file| && !broke
      invariant cursor <= |file| && Took(c, t0, seen, t, l0, shared.log, []) && t0.sent <= t.sent && t.uncounted == 0
      invariant (filling == buff0 && other == buff1) || (filling == buff1 && other == buff0)
      invariant t.hand == [] && inBuffer == |t.buffer| && Carries(codec, port, base, t.sent[n..])
      invariant if broke then t.at.FinalCheck? && t.buffer == [] else t.at.Read? && t.rest == file[cursor..]
      invariant !broke ==> HoldsRecords(c, codec, filling, offset, t.buffer) && (port.pending ==> port.buffer == other)
      decreases |file| - cursor
    {
      ghost var u, more;
      l1 := shared.log;
      broke, filling, other, offset, inBuffer, u, more :=
        OneRecord(c, codec, file[cursor], filling, other, offset, inBuffer, shared, port, base, n, t);
      seen := Joined(c, t0, seen, t, more, u, l0, l1, shared.log);
      t := u;
      cursor := cursor + 1;
    }
    l1 := shared.log;
    ghost var u, more := EndOfFile(c, codec, filling, offset, inBuffer, shared, port, base, n, t);
    seen := Joined(c, t0, seen, t, more, u, l0, l1, shared.log);
    t := u;
    assert shared.log[|l0|..] == AccessesOf(c, t0, seen) && file + [] == file;
    PathTidy(c, t0, seen, t);
    PathHandles(c, t0, seen, t);
  }

  /** One record of a file. */
  method OneRecord<T(!new)>(c: Config<T>, codec: Codec<T>, record: T, filling: array<Byte>, other: array<Byte>,
                            offset: nat,
                            inBuffer: nat, shared: Shared, port: SendPort, ghost base: seq<seq<Byte>>, ghost n: nat,
                            ghost t0: Thread<T>)
    returns (broke: bool, filling': array<Byte>, other': array<Byte>, offset': nat, inBuffer': nat,
             ghost t: Thread<T>, ghost seen: seq<Seen<T>>)
    requires OneSize(c, codec) && filling != other && other.Length == XCHG_BUFF_SIZE && n <= |t0.sent|
    requires t0.at.Read? && |t0.rest| > 0 && t0.rest[0] == record && t0.hand == [] && t0.uncounted == 0 &&
      inBuffer == |t0.buffer|
    requires Carries(codec, port, base, t0.sent[n..]) && HoldsRecords(c, codec, filling, offset, t0.buffer)
    requires port.pending ==> port.buffer == other
    modifies shared, port, filling, other
    ensures Took(c, t0, seen, t, old(shared.log), shared.log, [])
    ensures t0.sent <= t.sent && t.uncounted == 0 && t.hand == [] && inBuffer' == |t.buffer|
    ensures (filling' == filling && other' == other) || (filling' == other && other' == filling)
    ensures Carries(codec, port, base, t.sent[n..])
    ensures if broke then t.at.FinalCheck? && t.buffer == [] else t.at.Read? && t.rest == t0.rest[1..]
    ensures !broke ==> HoldsRecords(c, codec, filling', offset', t.buffer) && (port.pending ==> port.buffer == other')
  {
    ghost var l0 := shared.log;
    broke, filling', other', offset', inBuffer', t, seen := false, filling, other, offset, inBuffer, t0, [];
    t, seen := Stepped(c, t0, [], t0, Seen([], 0, false), l0, l0, l0);
    if !c.matches(record) {
      return;
    }
    ghost var held := t0.buffer;
    if c.Full(inBuffer) {
      ghost var u, more;
      broke, u, more := FullBuffer(c, codec, filling, offset, inBuffer, shared, port, base, n, t);
      seen := Joined(c, t0, seen, t, more, u, l0, l0, shared.log);
      t := u;
      if broke {
        inBuffer' := 0;
        return;
      }
      filling', other', offset', inBuffer', held := other, filling, 0, 0, [];
      NoneHeld(c, codec, filling');
    }
    offset' := Store(c, codec, record, filling', offset', held);
    inBuffer' := inBuffer' + 1;
  }

  /** One file of a thread: it is passed over if the flag is up already. */
  method ProcessFile<T(!new)>(c: Config<T>, codec: Codec<T>, file: seq<T>, shared: Shared, port: SendPort,
                              buff0: array<Byte>, buff1: array<Byte>, ghost t0: Thread<T>)
    returns (ghost t: Thread<T>, ghost seen: seq<Seen<T>>)
    requires OneSize(c, codec) && buff0 != buff1 && buff0.Length == buff1.Length == XCHG_BUFF_SIZE
    requires t0.at.NextFile? && t0.buffer == [] && t0.hand == [] && t0.uncounted == 0
    requires !port.pending && Carries(codec, port, [], t0.sent)
    modifies shared, port, buff0, buff1
    ensures Took(c, t0, seen, t, old(shared.log), shared.log, [file])
    ensures t.at.NextFile? && t.buffer == [] && t.hand == [] && t.uncounted == 0
    ensures !port.pending && Carries(codec, port, [], t.sent)
  {
    ghost var l0 := shared.log;
    assert t0.sent[0..] == t0.sent;
    ghost var o := Seen([file], 0, false);
    TookNext(c, t0, [], t0, o, l0, l0, l0, []);
    t, seen := After(c, t0, o), [o];
    var flag := shared.ReadFlag();
    o := Seen([], shared.counter, flag);
    TookNext(c, t0, seen, t, o, l0, l0, shared.log, [file]);
    t, seen := After(c, t, o), seen + [o];
    if !flag {
      ghost var l1 := shared.log;
      ghost var u, more := ReadAndSend(c, codec, file, shared, port, buff0, buff1, 0, [], t);
      TookAppend(c, t0, seen, t, more, u, l0, l1, shared.log, [file], []);
      t, seen := u, seen + more;
      assert t.sent[0..] == t.sent;
    }
  }

  /** A whole thread, for the files it is given, each opened once and in order. Whatever it finds in the
      shared data, its messages are those of the steps it has taken, and it has added as many records to
      the counter as it has sent. Every matching record is sent, in order, unless a look at the flag or the
      counter has stopped the thread; otherwise it is sent or given up. */
  method RunThread<T(!new)>(c: Config<T>, codec: Codec<T>, mine: seq<seq<T>>, shared: Shared)
    returns (sent: seq<seq<Byte>>, ghost t: Thread<T>, ghost seen: seq<Seen<T>>)
    requires OneSize(c, codec)
    modifies shared
    ensures Took(c, Fresh(), seen, t, old(shared.log), shared.log, mine) && t.at.Done?
    ensures sent == Messages(codec.EncodedEach(t.sent))
    ensures Handled(c, Fresh(), t, Flatten(mine), shared.log[|old(shared.log)|..]) && Sound(c, t)
    ensures Undisturbed(c, shared.log[|old(shared.log)|..]) ==>
      Flatten(t.sent) == Matching(c, Flatten(mine)) && t.lost == []
  {
    ghost var l0, l1 := shared.log, shared.log;
    var port := new SendPort();
    var buff0, buff1 := new Byte[XCHG_BUFF_SIZE], new Byte[XCHG_BUFF_SIZE];
    t, seen := Fresh(), [];
    for i := 0 to |mine|
      invariant Took(c, Fresh(), seen, t, l0, shared.log, mine[..i])
      invariant t.at.NextFile? && t.buffer == [] && t.hand == [] && t.uncounted == 0
      invariant !port.pending && Carries(codec, port, [], t.sent)
    {
      l1 := shared.log;
      ghost var u, more := ProcessFile(c, codec, mine[i], shared, port, buff0, buff1, t);
      TookAppend(c, Fresh(), seen, t, more, u, l0, l1, shared.log, mine[..i], [mine[i]]);
      assert mine[..i + 1] == mine[..i] + [mine[i]];
      t, seen := u, seen + more;
    }
    ghost var u, more := SendTerminator(c, codec, port, t, shared.log);
    TookAppend(c, Fresh(), seen, t, more, u, l0, shared.log, shared.log, mine, []);
    t, seen := u, seen + more;
    sent := port.sent;
    assert mine[..|mine|] == mine && mine + [] == mine;
    RunHandles(c, seen, t, l0, shared.log, mine);
  }

  lemma RunHandles<T(!new)>(c: Config<T>, seen: seq<Seen<T>>, t: Thread<T>, l0: seq<Access>, l1: seq<Access>,
                            mine: seq<seq<T>>)
    requires c.Valid() && Took(c, Fresh(), seen, t, l0, l1, mine) && t.at.Done?
    ensures Handled(c, Fresh(), t, Flatten(mine), l1[|l0|..]) && Sound(c, t)
    ensures Undisturbed(c, l1[|l0|..]) ==> Flatten(t.sent) == Matching(c, Flatten(mine)) && t.lost == []
  {
    assert l1[|l0|..] == AccessesOf(c, Fresh(), seen) && [] + Flatten(mine) == Flatten(mine);
    PathTidy(c, Fresh(), seen, t);
    PathHandles(c, Fresh(), seen, t);
    PathSound(c, Fresh(), seen, t);
    assert [] + Matching(c, Flatten(mine)) == Matching(c, Flatten(mine));
  }

  method SendTerminator<T(!new)>(c: Config<T>, codec: Codec<T>, port: SendPort, ghost t0: Thread<T>,
                                 ghost log: seq<Access>)
    returns (ghost t: Thread<T>, ghost seen: seq<Seen<T>>)
    requires t0.at.NextFile? && !port.pending && Carries(codec, port, [], t0.sent)
    modifies port
    ensures Took(c, t0, seen, t, log, log, []) && t.at.Done?
    ensures port.sent == Messages(codec.EncodedEach(t.sent))
  {
    ghost var o := Seen([], 0, false);
    t, seen := Stepped(c, t0, [], t0, o, log, log, log);
    t, seen := Stepped(c, t0, seen, t, o, log, log, log);
    ghost var none: seq<seq<Byte>> := [];
    assert port.Queued() == port.sent + none == port.sent;
    assert none + Messages(codec.EncodedEach(t0.sent)) == Messages(codec.EncodedEach(t0.sent));
    port.Send([]);
    assert t.sent == t0.sent + [[]];
    EncodedLast(codec, t0.sent);
  }

  lemma EncodedLast<T(!new)>(codec: Codec<T>, sent: seq<seq<T>>)
    ensures Messages(codec.EncodedEach(sent + [[]])) == Messages(codec.EncodedEach(sent)) + [[]]
  {
    var nothing: seq<T> := [];
    var none: seq<Raw> := [];
    assert codec.Encoded(nothing) == none;
    assert codec.EncodedEach(sent + [nothing]) == codec.EncodedEach(sent) + [none];
    GroupSent(codec.EncodedEach(sent), none);
    assert Frames(none) == [];
    assert sent + [[]] == sent + [nothing];
  }
}
