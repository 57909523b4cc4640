/** A byte ring buffer whose head and tail coincide both when it is empty and when it is
    full; a state flag tells the two apart. */
module RingBuffer {
  import opened ByteSeqs
  import opened Wrappers

  datatype State = EMPTY | FULL | NORMAL

  /** The fields of a buffer as one value. */
  datatype Ring = Ring(arr: seq<Byte>, head: nat, tail: nat, state: State)

  predicate Valid(r: Ring) {
    && r.head < |r.arr| && r.tail < |r.arr|
    && (r.head == r.tail <==> r.state != NORMAL)
  }

  /** The number of bytes held. */
  function Length(r: Ring): nat
    requires Valid(r)
  {
    if r.state == EMPTY then 0
    else if r.head < r.tail then r.tail - r.head
    else |r.arr| - r.head + r.tail
  }

  function Wrap(i: nat, n: nat): nat {
    if i < n then i else i - n
  }

  /** The bytes held, oldest first. */
  function Contents(r: Ring): (s: seq<Byte>)
    requires Valid(r)
    ensures |s| == Length(r)
    ensures forall k | 0 <= k < |s| :: s[k] == r.arr[Wrap(r.head + k, |r.arr|)]
  {
    seq(Length(r), k requires 0 <= k < Length(r) => r.arr[Wrap(r.head + k, |r.arr|)])
  }

  /** A position moved on modulo the capacity. */
  function Advance(i: nat, k: nat, n: nat): nat
    requires n > 0
  {
    (i + k) % n
  }

  lemma WrapOnce(x: nat, n: nat)
    requires n <= x < 2 * n
    ensures x % n == x - n
  {
    var d, m := x / n, x % n;
    assert x == d * n + m;
    assert d >= 2 ==> d * n >= 2 * n;
    assert d <= 0 ==> d * n <= 0;
  }

  lemma AdvanceWraps(i: nat, k: nat, n: nat)
    requires i < n && k <= n
    ensures Advance(i, k, n) == Wrap(i + k, n)
  {
    if i + k >= n {
      WrapOnce(i + k, n);
    }
  }

  function StateAfter(head: nat, tail: nat, meet: State): State {
    if head == tail then meet else NORMAL
  }

  // ---------- one byte at a time ----------

  function Enqueue(r: Ring, b: Byte): (Ring, Option<()>)
    requires Valid(r)
  {
    if r.state == FULL then (r, None)
    else
      var tail := Advance(r.tail, 1, |r.arr|);
      (Ring(r.arr[r.tail := b], r.head, tail, StateAfter(r.head, tail, FULL)), Some(()))
  }

  function Dequeue(r: Ring): (Ring, Option<Byte>)
    requires Valid(r)
  {
    if r.state == EMPTY then (r, None)
    else
      var head := Advance(r.head, 1, |r.arr|);
      (Ring(r.arr, head, r.tail, StateAfter(head, r.tail, EMPTY)), Some(r.arr[r.head]))
  }

  /** Enqueue appends, and refuses exactly when the buffer is full. */
  lemma EnqueueAppends(r: Ring, b: Byte)
    requires Valid(r)
    ensures var (r', ok) := Enqueue(r, b);
            && Valid(r') && |r'.arr| == |r.arr|
            && (ok.Some? <==> Length(r) < |r.arr|) && (ok.Some? ==> Length(r') == Length(r) + 1)
            && Contents(r') == if ok.Some? then Contents(r) + [b] else Contents(r)
  {
    hide Advance;
    AdvanceWraps(r.tail, 1, |r.arr|);
    var (r', ok) := Enqueue(r, b);
    if ok.Some? {
      forall k | 0 <= k < Length(r') ensures Contents(r')[k] == (Contents(r) + [b])[k] {
        if k < Length(r) {
          assert Wrap(r.head + k, |r.arr|) != r.tail;
        } else {
          assert Wrap(r.head + k, |r.arr|) == r.tail;
        }
      }
    }
  }

  /** Dequeue takes the oldest byte, and refuses exactly when the buffer is empty. */
  lemma DequeueTakesFirst(r: Ring)
    requires Valid(r)
    ensures var (r', b) := Dequeue(r);
            && Valid(r') && |r'.arr| == |r.arr|
            && (b == None <==> Contents(r) == [])
            && (b.Some? ==> Contents(r) == [b.value] + Contents(r') && Length(r) == Length(r') + 1)
            && (b == None ==> r' == r)
  {
    hide Advance;
    AdvanceWraps(r.head, 1, |r.arr|);
    var (r', b) := Dequeue(r);
    if b.Some? {
      assert Contents(r)[0] == b.value;
      forall k | 0 <= k < Length(r') ensures Contents(r)[k + 1] == Contents(r')[k] {
        assert Wrap(r.head + (k + 1), |r.arr|) == Wrap(r'.head + k, |r.arr|);
      }
    }
  }

  // ---------- many bytes ----------

  function EnqueueAll(r: Ring, bs: seq<Byte>): Ring
    requires Valid(r)
    decreases |bs|
  {
    if bs == [] then r
    else
      EnqueueAppends(r, bs[0]);
      EnqueueAll(Enqueue(r, bs[0]).0, bs[1..])
  }

  /** The state after dequeuing n times. */
  function DequeueAll(r: Ring, n: nat): Ring
    requires Valid(r)
    decreases n
  {
    if n == 0 then r
    else
      DequeueTakesFirst(r);
      DequeueAll(Dequeue(r).0, n - 1)
  }

  /** The array with a run of bytes laid down from a position, wrapping at the end. */
  function Spliced(arr: seq<Byte>, from: nat, bs: seq<Byte>): (s: seq<Byte>)
    requires from < |arr| && |bs| <= |arr|
    ensures |s| == |arr|
    ensures forall j | 0 <= j < |s| ::
              var d := if j >= from then j - from else j + |arr| - from;
              s[j] == if d < |bs| then bs[d] else arr[j]
  {
    seq(|arr|, j requires 0 <= j < |arr| =>
      var d := if j >= from then j - from else j + |arr| - from;
      if d < |bs| then bs[d] else arr[j])
  }

  lemma SplicedStep(arr: seq<Byte>, from: nat, bs: seq<Byte>)
    requires from < |arr| && 0 < |bs| <= |arr|
    ensures Spliced(arr[from := bs[0]], Wrap(from + 1, |arr|), bs[1..]) == Spliced(arr, from, bs)
  {
  }

  lemma SplicedOne(arr: seq<Byte>, from: nat, bs: seq<Byte>)
    requires from < |arr| && |bs| == 1
    ensures Spliced(arr, from, bs) == arr[from := bs[0]]
  {
  }

  lemma EnqueueState(r: Ring, b: Byte)
    requires Valid(r) && Length(r) < |r.arr|
    ensures var tail := Wrap(r.tail + 1, |r.arr|);
            Enqueue(r, b).0 == Ring(r.arr[r.tail := b], r.head, tail, StateAfter(r.head, tail, FULL))
  {
    AdvanceWraps(r.tail, 1, |r.arr|);
    hide Advance;
  }

  /** The concrete state after enqueuing a run that fits, in closed form. */
  lemma {:induction false} EnqueueAllState(r: Ring, bs: seq<Byte>)
    requires Valid(r) && |bs| <= |r.arr| - Length(r)
    ensures var tail := Wrap(r.tail + |bs|, |r.arr|);
            EnqueueAll(r, bs) == if bs == [] then r
                                 else Ring(Spliced(r.arr, r.tail, bs), r.head, tail, StateAfter(r.head, tail, FULL))
    decreases |bs|
  {
    if bs != [] {
      hide Contents, Spliced, Enqueue;
      var r1 := Enqueue(r, bs[0]).0;
      EnqueueAppends(r, bs[0]);
      EnqueueState(r, bs[0]);
      EnqueueAllState(r1, bs[1..]);
      SplicedStep(r.arr, r.tail, bs);
      if |bs| == 1 {
        SplicedOne(r.arr, r.tail, bs);
      }
    }
  }

  /** The concrete state after dequeuing n held bytes, in closed form. */
  lemma {:induction false} DequeueAllState(r: Ring, n: nat)
    requires Valid(r) && n <= Length(r)
    ensures var head := Wrap(r.head + n, |r.arr|);
            DequeueAll(r, n) == if n == 0 then r else Ring(r.arr, head, r.tail, StateAfter(head, r.tail, EMPTY))
    decreases n
  {
    hide Advance, Contents;
    if n > 0 {
      var r1 := Dequeue(r).0;
      DequeueTakesFirst(r);
      AdvanceWraps(r.head, 1, |r.arr|);
      DequeueAllState(r1, n - 1);
    }
  }

  /** Enqueuing what fits appends it. */
  lemma {:induction false} EnqueueAllAppends(r: Ring, bs: seq<Byte>)
    requires Valid(r) && |bs| <= |r.arr| - Length(r)
    ensures Valid(EnqueueAll(r, bs)) && Contents(EnqueueAll(r, bs)) == Contents(r) + bs
    ensures |EnqueueAll(r, bs).arr| == |r.arr|
    decreases |bs|
  {
    hide Advance, Contents, Enqueue;
    if bs != [] {
      var r1 := Enqueue(r, bs[0]).0;
      EnqueueAppends(r, bs[0]);
      EnqueueAllAppends(r1, bs[1..]);
      assert Contents(r) + bs == (Contents(r) + [bs[0]]) + bs[1..];
    } else {
      assert Contents(r) + bs == Contents(r);
    }
  }

  /** Dequeuing n held bytes drops the n oldest. */
  lemma {:induction false} DequeueAllDrops(r: Ring, n: nat)
    requires Valid(r) && n <= Length(r)
    ensures Valid(DequeueAll(r, n)) && Contents(DequeueAll(r, n)) == Contents(r)[n..]
    ensures |DequeueAll(r, n).arr| == |r.arr|
    decreases n
  {
    hide Advance, Contents, Dequeue;
    if n > 0 {
      var r1 := Dequeue(r).0;
      DequeueTakesFirst(r);
      DequeueAllDrops(r1, n - 1);
      assert Contents(r)[n..] == Contents(r1)[n - 1..];
    }
  }

  function Min(a: nat, b: nat): nat { if a <= b then a else b }

  // ---------- slice copies ----------

  lemma SplicedInOnePiece(arr: seq<Byte>, from: nat, bs: seq<Byte>)
    requires from < |arr| && from + |bs| <= |arr|
    ensures Spliced(arr, from, bs) == Overlay(arr, from, bs)
  {
  }

  lemma SplicedInTwoPieces(arr: seq<Byte>, from: nat, bs: seq<Byte>)
    requires from < |arr| < from + |bs| && |bs| <= |arr|
    ensures var k := |arr| - from;
            Spliced(arr, from, bs) == Overlay(Overlay(arr, from, bs[..k]), 0, bs[k..])
  {
  }

  lemma ContentsInOnePiece(r: Ring, n: nat)
    requires Valid(r) && n <= Length(r) && r.head + n <= |r.arr|
    ensures Contents(r)[..n] == r.arr[r.head..r.head + n]
  {
  }

  lemma ContentsInTwoPieces(r: Ring, n: nat)
    requires Valid(r) && n <= Length(r) && |r.arr| < r.head + n
    ensures Contents(r)[..n] == r.arr[r.head..] + r.arr[..n - (|r.arr| - r.head)]
  {
  }

  // ---------- the buffer in place ----------

  class RingBuffer {
    const arr: array<Byte>
    var head: nat
    var tail: nat
    var state: State

    ghost function Value(): Ring
      reads this, arr
    {
      Ring(arr[..], head, tail, state)
    }

    constructor (len: nat)
      requires len > 0
      ensures fresh(arr) && arr.Length == len
      ensures Valid(Value()) && Contents(Value()) == []
    {
      arr := new Byte[len](_ => 0);
      head, tail, state := 0, 0, EMPTY;
    }

    /** Copies the n oldest bytes, in one piece or in two around the end of the array. */
    method CopyOut(buf: array<Byte>, n: nat)
      requires Valid(Value()) && buf != arr && n <= Length(Value()) && n <= buf.Length
      modifies buf
      ensures buf[..] == Overlay(old(buf[..]), 0, Contents(Value())[..n])
    {
      hide Contents, Overlay;
      ghost var r, b := Value(), buf[..];
      var rightLen := arr.Length - head;
      if head < tail || n <= rightLen {
        ContentsInOnePiece(r, n);
        CopyFromSlice(buf, 0, arr[head..head + n]);
      } else {
        ContentsInTwoPieces(r, n);
        OverlayTwice(b, 0, arr[head..], arr[..n - rightLen]);
        CopyFromSlice(buf, 0, arr[head..]);
        CopyFromSlice(buf, rightLen, arr[..n - rightLen]);
      }
    }

    /** Reads as much as fits; ends in the same concrete state as that many dequeues. */
    method Read(buf: array<Byte>) returns (n: nat)
      requires Valid(Value()) && buf != arr
      modifies this`head, this`state, buf
      ensures n == Min(old(Length(Value())), buf.Length)
      ensures buf[..] == Overlay(old(buf[..]), 0, old(Contents(Value()))[..n])
      ensures Value() == DequeueAll(old(Value()), n)
    {
      hide Contents, DequeueAll, Overlay, Advance;
      ghost var r := Value();
      if state == EMPTY || buf.Length == 0 {
        DequeueAllState(r, 0);
        OverlayNothing(buf[..]);
        return 0;
      }
      var len := arr.Length;
      n := Min(if head < tail then tail - head else len - head + tail, buf.Length);
      CopyOut(buf, n);
      DequeueAllState(r, n);
      AdvanceWraps(head, n, len);
      head := Advance(head, n, len);
      if head == tail {
        state := EMPTY;
      } else {
        state := NORMAL;
      }
    }

    /** Writes as much as fits; ends in the same concrete state as that many enqueues. */
    method Write(buf: seq<Byte>) returns (n: nat)
      requires Valid(Value())
      modifies this`tail, this`state, arr
      ensures n == Min(arr.Length - old(Length(Value())), |buf|)
      ensures Value() == EnqueueAll(old(Value()), buf[..n])
    {
      hide Contents, EnqueueAll, Spliced, Overlay, Advance;
      ghost var r := Value();
      if state == FULL || |buf| == 0 {
        EnqueueAllState(r, buf[..0]);
        return 0;
      }
      var len := arr.Length;
      if head <= tail {
        n := Min(len - (tail - head), |buf|);
        if n <= len - tail {
          SplicedInOnePiece(r.arr, tail, buf[..n]);
          CopyFromSlice(arr, tail, buf[..n]);
        } else {
          SplicedInTwoPieces(r.arr, tail, buf[..n]);
          assert buf[..n][..len - tail] == buf[..len - tail] && buf[..n][len - tail..] == buf[len - tail..n];
          CopyFromSlice(arr, tail, buf[..len - tail]);
          CopyFromSlice(arr, 0, buf[len - tail..n]);
        }
      } else {
        n := Min(head - tail, |buf|);
        SplicedInOnePiece(r.arr, tail, buf[..n]);
        CopyFromSlice(arr, tail, buf[..n]);
      }
      EnqueueAllState(r, buf[..n]);
      AdvanceWraps(tail, n, len);
      tail := Advance(tail, n, len);
      if head == tail {
        state := FULL;
      } else {
        state := NORMAL;
      }
    }

    method DequeueByte() returns (b: Option<Byte>)
      requires Valid(Value())
      modifies this`head, this`state
      ensures (Value(), b) == Dequeue(old(Value()))
    {
      if state == EMPTY {
        return None;
      }
      var c := arr[head];
      head := Advance(head, 1, arr.Length);
      if head == tail {
        state := EMPTY;
      } else {
        state := NORMAL;
      }
      return Some(c);
    }

    method EnqueueByte(b: Byte) returns (ok: Option<()>)
      requires Valid(Value())
      modifies this`tail, this`state, arr
      ensures (Value(), ok) == Enqueue(old(Value()), b)
    {
      if state == FULL {
        return None;
      }
      arr[tail] := b;
      tail := Advance(tail, 1, arr.Length);
      if head == tail {
        state := FULL;
      } else {
        state := NORMAL;
      }
      return Some(());
    }
  }
}
