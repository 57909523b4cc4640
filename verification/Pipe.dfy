/** A pipe over a ring buffer, with one reading and one writing task that poll, park and
    are woken through waker queues. */
module Pipe {
  import opened ByteSeqs
  import opened RingBuffer
  import opened Wrappers

  /** The pipe's shared record. All wakers in a queue belong to the one task of that end, so
      a queue is its length. */
  datatype Meta = Meta(ring: Ring, writeClosed: bool, readClosed: bool, readWakers: nat, writeWakers: nat)

  datatype Poll = Pending | ReadyIn | ReadyHup | ReadyOut | ReadyErr

  function PollRead(m: Meta, wantsIn: bool): (Meta, Poll) {
    if wantsIn && m.ring.state != EMPTY then (m, ReadyIn)
    else if m.writeClosed then (m, ReadyHup)
    else (m.(readWakers := m.readWakers + 1), Pending)
  }

  function PollWrite(m: Meta, wantsOut: bool): (Meta, Poll) {
    if m.readClosed then (m, ReadyErr)
    else if wantsOut && m.ring.state != FULL then (m, ReadyOut)
    else (m.(writeWakers := m.writeWakers + 1), Pending)
  }

  /** What a base poll reports: events, and the other end's closing. */
  function BaseRead(m: Meta, wantsIn: bool): (Meta, bool, bool) {
    if wantsIn && m.ring.state != EMPTY then (m, true, m.writeClosed)
    else (m.(readWakers := m.readWakers + 1), false, m.writeClosed)
  }

  function BaseWrite(m: Meta, wantsOut: bool): (Meta, bool, bool) {
    if wantsOut && m.ring.state != FULL then (m, true, m.readClosed)
    else (m.(writeWakers := m.writeWakers + 1), false, m.readClosed)
  }

  function Pop(wakers: nat): nat {
    if wakers == 0 then 0 else wakers - 1
  }

  /** Bytes out of the buffer; one waiting writer is woken. */
  function Take(m: Meta, len: nat): (Meta, nat)
    requires Valid(m.ring)
  {
    var n := Min(Length(m.ring), len);
    (m.(ring := DequeueAll(m.ring, n), writeWakers := Pop(m.writeWakers)), n)
  }

  /** Bytes into the buffer; one waiting reader is woken. */
  function Put(m: Meta, buf: seq<Byte>): (Meta, nat)
    requires Valid(m.ring)
  {
    var n := Min(|m.ring.arr| - Length(m.ring), |buf|);
    (m.(ring := EnqueueAll(m.ring, buf[..n]), readWakers := Pop(m.readWakers)), n)
  }

  // ---------- the two tasks ----------

  /** Where a task stands: outside a call, parked in one, woken and about to poll again, or
      past a successful poll and about to transfer. */
  datatype Phase = Idle | Parked | Woken | Ready

  /** The wakers an end has left in its queue so far, and those that were taken and fired. */
  datatype Books = Books(left: nat, fired: nat)

  /** The whole system, with the bytes written and read so far, whether end-of-file has been
      reported, how many writes have ended in a broken pipe, and the wakers of both ends. */
  datatype System = System(meta: Meta, reader: Phase, writer: Phase, written: seq<Byte>, read: seq<Byte>,
                           eof: bool, broken: nat, readers: Books, writers: Books)

  datatype Action =
    | ReadPoll
    | ReadTransfer(len: nat)
    | ReadBasePoll(wantsIn: bool)
    | WritePoll
    | WriteTransfer(buf: seq<Byte>)
    | WriteBasePoll(wantsOut: bool)
    | CloseRead
    | CloseWrite
    | StrayWakeReader
    | StrayWakeWriter

  /** What a popped waker does to its task. */
  function Notify(p: Phase, wakers: nat): Phase {
    if p == Parked && wakers > 0 then Woken else p
  }

  function Leave(b: Books, leaves: bool): Books {
    if leaves then b.(left := b.left + 1) else b
  }

  function Fire(b: Books, n: nat): Books {
    b.(fired := b.fired + n)
  }

  predicate Enabled(s: System, a: Action) {
    match a
    case ReadPoll => s.reader in {Idle, Woken} && !s.meta.readClosed
    case ReadTransfer(_) => s.reader == Ready
    case ReadBasePoll(_) => s.reader == Idle && !s.meta.readClosed
    case CloseRead => s.reader == Idle && !s.meta.readClosed
    case StrayWakeReader => s.reader == Parked
    case WritePoll => s.writer in {Idle, Woken} && !s.meta.writeClosed
    case WriteTransfer(_) => s.writer == Ready
    case WriteBasePoll(_) => s.writer == Idle && !s.meta.writeClosed
    case CloseWrite => s.writer == Idle && !s.meta.writeClosed
    case StrayWakeWriter => s.writer == Parked
  }

  function Step(s: System, a: Action): System
    requires Valid(s.meta.ring)
  {
    var m := s.meta;
    match a
    case ReadPoll =>
      var (m', p) := PollRead(m, true);
      s.(meta := m', reader := if p == ReadyIn then Ready else if p == ReadyHup then Idle else Parked,
         eof := s.eof || p == ReadyHup, readers := Leave(s.readers, p == Pending))
    case ReadTransfer(len) =>
      var (m', n) := Take(m, len);
      s.(meta := m', reader := Idle, writer := Notify(s.writer, m.writeWakers), read := s.read + Contents(m.ring)[..n],
         writers := Fire(s.writers, Min(1, m.writeWakers)))
    case ReadBasePoll(wantsIn) =>
      var (m', ready, _) := BaseRead(m, wantsIn);
      s.(meta := m', readers := Leave(s.readers, !ready))
    case CloseRead =>
      s.(meta := m.(readClosed := true, writeWakers := 0), writer := Notify(s.writer, m.writeWakers),
         writers := Fire(s.writers, m.writeWakers))
    case StrayWakeReader => s.(reader := Woken)
    case WritePoll =>
      var (m', p) := PollWrite(m, true);
      s.(meta := m', writer := if p == ReadyOut then Ready else if p == ReadyErr then Idle else Parked,
         broken := if p == ReadyErr then s.broken + 1 else s.broken, writers := Leave(s.writers, p == Pending))
    case WriteTransfer(buf) =>
      var (m', n) := Put(m, buf);
      s.(meta := m', writer := Idle, reader := Notify(s.reader, m.readWakers), written := s.written + buf[..n],
         readers := Fire(s.readers, Min(1, m.readWakers)))
    case WriteBasePoll(wantsOut) =>
      var (m', ready, _) := BaseWrite(m, wantsOut);
      s.(meta := m', writers := Leave(s.writers, !ready))
    case CloseWrite =>
      s.(meta := m.(writeClosed := true, readWakers := 0), reader := Notify(s.reader, m.readWakers),
         readers := Fire(s.readers, m.readWakers))
    case StrayWakeWriter => s.(writer := Woken)
  }

  /** What holds in every reachable system. */
  ghost predicate Inv(s: System) {
    && Valid(s.meta.ring)
    // no byte is lost, duplicated or reordered
    && s.written == s.read + Contents(s.meta.ring)
    // a parked, un-notified task has a waker queued and nothing it could do
    && (s.reader == Parked ==> s.meta.ring.state == EMPTY && !s.meta.writeClosed && s.meta.readWakers > 0)
    && (s.writer == Parked ==> s.meta.ring.state == FULL && !s.meta.readClosed && s.meta.writeWakers > 0)
    // a successful poll still holds when the transfer happens
    && (s.reader == Ready ==> s.meta.ring.state != EMPTY)
    && (s.writer == Ready ==> s.meta.ring.state != FULL)
    && (s.meta.readClosed ==> s.reader == Idle)
    && (s.meta.writeClosed ==> s.writer == Idle)
    // end-of-file is reported only when nothing is left and nothing can come
    && (s.eof ==> s.meta.writeClosed && s.read == s.written)
    // a write breaks only on a closed read end
    && (s.broken > 0 ==> s.meta.readClosed)
    // a waker left in a queue is still there or was fired, once
    && s.readers.left == s.readers.fired + s.meta.readWakers
    && s.writers.left == s.writers.fired + s.meta.writeWakers
  }

  function Initial(capacity: nat): System
    requires capacity > 0
  {
    System(Meta(Ring(seq(capacity, _ => 0), 0, 0, EMPTY), false, false, 0, 0), Idle, Idle, [], [],
           false, 0, Books(0, 0), Books(0, 0))
  }

  lemma InitialInv(capacity: nat)
    requires capacity > 0
    ensures Inv(Initial(capacity))
  {
  }

  lemma LengthOfState(r: Ring)
    requires Valid(r)
    ensures r.state == EMPTY <==> Length(r) == 0
    ensures r.state == FULL <==> Length(r) == |r.arr|
    ensures 0 <= Length(r) <= |r.arr|
  {
  }

  lemma TakeFacts(r: Ring, n: nat)
    requires Valid(r) && n <= Length(r)
    ensures var r' := DequeueAll(r, n);
            && Valid(r') && Contents(r) == Contents(r)[..n] + Contents(r')
            && (r.state != FULL ==> r'.state != FULL)
  {
    hide Contents, DequeueAll, Length;
    DequeueAllDrops(r, n);
    LengthOfState(r);
    LengthOfState(DequeueAll(r, n));
    assert Contents(r) == Contents(r)[..n] + Contents(r)[n..];
  }

  lemma PutFacts(r: Ring, bs: seq<Byte>)
    requires Valid(r) && |bs| <= |r.arr| - Length(r)
    ensures var r' := EnqueueAll(r, bs);
            && Valid(r') && Contents(r') == Contents(r) + bs
            && (r.state != EMPTY ==> r'.state != EMPTY)
  {
    hide Contents, EnqueueAll, Length;
    EnqueueAllAppends(r, bs);
    LengthOfState(r);
    LengthOfState(EnqueueAll(r, bs));
  }

  lemma ReadTransferKeepsInv(s: System, len: nat)
    requires Inv(s) && s.reader == Ready
    ensures Inv(Step(s, ReadTransfer(len)))
    ensures len > 0 ==> |Step(s, ReadTransfer(len)).read| > |s.read|
  {
    hide Contents, DequeueAll, Length, Valid;
    var r := s.meta.ring;
    LengthOfState(r);
    var n := Min(Length(r), len);
    TakeFacts(r, n);
    assert s.read + Contents(r) == (s.read + Contents(r)[..n]) + Contents(DequeueAll(r, n));
    assert |s.written| == |s.read| + |Contents(r)|;
  }

  lemma WriteTransferKeepsInv(s: System, buf: seq<Byte>)
    requires Inv(s) && s.writer == Ready
    ensures Inv(Step(s, WriteTransfer(buf)))
    ensures buf != [] ==> |Step(s, WriteTransfer(buf)).written| > |s.written|
  {
    hide Contents, EnqueueAll, Length, Valid;
    var r := s.meta.ring;
    LengthOfState(r);
    var n := Min(|r.arr| - Length(r), |buf|);
    PutFacts(r, buf[..n]);
    assert s.read + (Contents(r) + buf[..n]) == s.written + buf[..n];
  }

  lemma StepKeepsInv(s: System, a: Action)
    requires Inv(s) && Enabled(s, a)
    ensures Inv(Step(s, a))
  {
    LengthOfState(s.meta.ring);
    match a
    case ReadTransfer(len) => ReadTransferKeepsInv(s, len);
    case WriteTransfer(buf) => WriteTransferKeepsInv(s, buf);
    case _ =>
  }

  // ---------- runs ----------

  /** Every state the system can be in after some sequence of enabled actions. */
  ghost predicate Reaches(s: System, actions: seq<Action>, t: System)
    requires Inv(s)
    decreases |actions|
  {
    if actions == [] then t == s
    else
      Enabled(s, actions[0]) &&
      (StepKeepsInv(s, actions[0]); Reaches(Step(s, actions[0]), actions[1..], t))
  }

  /** In every run: bytes come out in the order they went in, none lost or invented; no task
      stays parked when it could go on; end-of-file means closed and drained. */
  lemma {:induction false} RunsKeepInv(s: System, actions: seq<Action>, t: System)
    requires Inv(s) && Reaches(s, actions, t)
    ensures Inv(t)
    ensures s.read <= t.read && s.written <= t.written
    decreases |actions|
  {
    if actions != [] {
      StepKeepsInv(s, actions[0]);
      RunsKeepInv(Step(s, actions[0]), actions[1..], t);
    }
  }

  /** The two ends are never both parked: the pipe does not deadlock by itself. */
  lemma NeverBothParked(s: System)
    requires Inv(s)
    ensures !(s.reader == Parked && s.writer == Parked)
  {
  }

  /** After end-of-file no run brings another byte. */
  lemma {:induction false} EndOfFileIsFinal(s: System, actions: seq<Action>, t: System)
    requires Inv(s) && s.eof && Reaches(s, actions, t)
    ensures t.eof && t.read == s.read && t.written == s.written
    decreases |actions|
  {
    if actions != [] {
      StepKeepsInv(s, actions[0]);
      ClosedWriterWritesNothing(s, actions[0]);
      EndOfFileIsFinal(Step(s, actions[0]), actions[1..], t);
    }
  }

  lemma ClosedWriterWritesNothing(s: System, a: Action)
    requires Inv(s) && s.eof && Enabled(s, a)
    ensures var s' := Step(s, a); s'.eof && s'.written == s.written && s'.read == s.read
  {
    LengthOfState(s.meta.ring);
    assert |Contents(s.meta.ring)| == |s.written| - |s.read|;
  }

  /** A write poll ends with the error exactly when the read end is closed, and gets ready
      exactly when it is open and there is room. */
  lemma WritePollAnswers(s: System)
    requires Inv(s) && Enabled(s, WritePoll)
    ensures var s' := Step(s, WritePoll);
            && s'.broken == (if s.meta.readClosed then s.broken + 1 else s.broken)
            && (s'.writer == Idle <==> s.meta.readClosed)
            && (s'.writer == Ready <==> !s.meta.readClosed && |Contents(s.meta.ring)| < |s.meta.ring.arr|)
  {
    LengthOfState(s.meta.ring);
  }

  /** A read poll reports end-of-file exactly when the write end is closed and everything
      written has been read, and gets ready exactly when something has not. */
  lemma ReadPollAnswers(s: System)
    requires Inv(s) && Enabled(s, ReadPoll)
    ensures var s' := Step(s, ReadPoll);
            && (s'.reader == Idle <==> s.meta.writeClosed && s.read == s.written)
            && (s'.reader == Idle ==> s'.eof)
            && (s'.reader == Ready <==> s.read != s.written)
  {
    LengthOfState(s.meta.ring);
    assert |Contents(s.meta.ring)| == |s.written| - |s.read|;
  }

  /** A base poll that finds nothing to do leaves a waker, and only then; it reports readiness
      and closing as they are. */
  lemma BasePollsAnswer(m: Meta, wants: bool)
    requires Valid(m.ring)
    ensures var (m', ready, hup) := BaseRead(m, wants);
            && (ready <==> wants && Contents(m.ring) != []) && hup == m.writeClosed
            && m' == m.(readWakers := m.readWakers + if ready then 0 else 1)
    ensures var (m', ready, err) := BaseWrite(m, wants);
            && (ready <==> wants && |Contents(m.ring)| < |m.ring.arr|) && err == m.readClosed
            && m' == m.(writeWakers := m.writeWakers + if ready then 0 else 1)
  {
    LengthOfState(m.ring);
  }

  function WritePolls(actions: seq<Action>): nat {
    if actions == [] then 0 else (if actions[0].WritePoll? then 1 else 0) + WritePolls(actions[1..])
  }

  /** Once the read end is closed and the writer is not past its poll, no run brings another
      byte into the pipe, and every write of the run breaks. */
  lemma {:induction false} BrokenPipeIsFinal(s: System, actions: seq<Action>, t: System)
    requires Inv(s) && s.meta.readClosed && s.writer != Ready && Reaches(s, actions, t)
    ensures t.meta.readClosed && t.writer != Ready && t.written == s.written && t.read == s.read
    ensures t.broken == s.broken + WritePolls(actions)
    decreases |actions|
  {
    if actions != [] {
      StepKeepsInv(s, actions[0]);
      ClosedReaderTakesNothing(s, actions[0]);
      BrokenPipeIsFinal(Step(s, actions[0]), actions[1..], t);
    }
  }

  lemma ClosedReaderTakesNothing(s: System, a: Action)
    requires Inv(s) && s.meta.readClosed && s.writer != Ready && Enabled(s, a)
    ensures var s' := Step(s, a);
            && s'.meta.readClosed && s'.writer != Ready && s'.written == s.written && s'.read == s.read
            && s'.broken == s.broken + if a.WritePoll? then 1 else 0
  {
  }

  /** Closing an end is final and releases whoever is parked at the other one. */
  lemma ClosingReleases(s: System)
    requires Inv(s)
    ensures Enabled(s, CloseRead) ==>
              var s' := Step(s, CloseRead);
              s'.meta.readClosed && s'.writer != Parked && s'.meta.writeWakers == 0 && s'.meta.ring == s.meta.ring
    ensures Enabled(s, CloseWrite) ==>
              var s' := Step(s, CloseWrite);
              s'.meta.writeClosed && s'.reader != Parked && s'.meta.readWakers == 0 && s'.meta.ring == s.meta.ring
  {
  }

  // ---------- the shared record in place ----------

  class PipeMeta {
    var isWriteClosed: bool
    var isReadClosed: bool
    const ring: RingBuffer
    var readWakers: nat
    var writeWakers: nat

    ghost function Value(): Meta
      reads this, ring, ring.arr
    {
      Meta(ring.Value(), isWriteClosed, isReadClosed, readWakers, writeWakers)
    }

    constructor (len: nat)
      requires len > 0
      ensures fresh(ring) && fresh(ring.arr)
      ensures Valid(Value().ring) && Contents(Value().ring) == [] && |Value().ring.arr| == len
      ensures !isWriteClosed && !isReadClosed && readWakers == 0 && writeWakers == 0
    {
      isWriteClosed, isReadClosed := false, false;
      ring := new RingBuffer(len);
      readWakers, writeWakers := 0, 0;
    }

    method PollReader(wantsIn: bool) returns (p: Poll)
      modifies this
      ensures (Value(), p) == PollRead(old(Value()), wantsIn)
    {
      if wantsIn && ring.state != EMPTY {
        return ReadyIn;
      } else {
        if isWriteClosed {
          return ReadyHup;
        }
        readWakers := readWakers + 1;
        return Pending;
      }
    }

    method PollWriter(wantsOut: bool) returns (p: Poll)
      modifies this
      ensures (Value(), p) == PollWrite(old(Value()), wantsOut)
    {
      if isReadClosed {
        return ReadyErr;
      }
      if wantsOut && ring.state != FULL {
        return ReadyOut;
      } else {
        writeWakers := writeWakers + 1;
        return Pending;
      }
    }

    method BasePollReader(wantsIn: bool) returns (ready: bool, hup: bool)
      modifies this
      ensures (Value(), ready, hup) == BaseRead(old(Value()), wantsIn)
    {
      hup := isWriteClosed;
      ready := wantsIn && ring.state != EMPTY;
      if !ready {
        readWakers := readWakers + 1;
      }
    }

    method BasePollWriter(wantsOut: bool) returns (ready: bool, err: bool)
      modifies this
      ensures (Value(), ready, err) == BaseWrite(old(Value()), wantsOut)
    {
      err := isReadClosed;
      ready := wantsOut && ring.state != FULL;
      if !ready {
        writeWakers := writeWakers + 1;
      }
    }

    method Read(buf: array<Byte>) returns (n: nat)
      requires Valid(Value().ring) && buf != ring.arr
      modifies this, ring, buf
      ensures (Value(), n) == Take(old(Value()), buf.Length)
      ensures buf[..] == Overlay(old(buf[..]), 0, old(Contents(Value().ring))[..n])
    {
      n := ring.Read(buf);
      if writeWakers > 0 {
        writeWakers := writeWakers - 1;
      }
    }

    method Write(buf: seq<Byte>) returns (n: nat)
      requires Valid(Value().ring)
      modifies this, ring, ring.arr
      ensures (Value(), n) == Put(old(Value()), buf)
    {
      n := ring.Write(buf);
      if readWakers > 0 {
        readWakers := readWakers - 1;
      }
    }

    method DropReader()
      modifies this
      ensures Value() == old(Value()).(readClosed := true, writeWakers := 0)
    {
      isReadClosed := true;
      while writeWakers > 0
        invariant ring.Value() == old(ring.Value()) && isWriteClosed == old(isWriteClosed)
        invariant isReadClosed && readWakers == old(readWakers)
      {
        writeWakers := writeWakers - 1;
      }
    }

    method DropWriter()
      modifies this
      ensures Value() == old(Value()).(writeClosed := true, readWakers := 0)
    {
      isWriteClosed := true;
      while readWakers > 0
        invariant ring.Value() == old(ring.Value()) && isReadClosed == old(isReadClosed)
        invariant isWriteClosed && writeWakers == old(writeWakers)
      {
        readWakers := readWakers - 1;
      }
    }
  }
}
