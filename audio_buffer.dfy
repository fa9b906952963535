/**
 * AudioBuffer: fixed-capacity, lossy, single-producer/single-consumer ring
 * of fixed-size items stored back to back in one flat array. The byte
 * variant (items of `itemSize` bytes) and the 16-bit sample variant (frames
 * of `frameSize` samples) share this integer logic; the element type is the
 * class's type parameter.
 *
 * The abstract state is `State()`, a `RingSpec.RingState`; every operation
 * is proved to move it exactly as the corresponding RingSpec function, and
 * `Valid()` ties every retrievable item, element for element, to the array
 * slot `seq % capacity` it was copied into.
 */
module AudioBuffer {
  import opened Wrappers
  import RingSpec

  /** Summary returned by `stats()` (the drop-rate average is not modelled). */
  datatype Stats = Stats(produced: nat, consumed: nat, overruns: nat, capacity: nat, size: nat)

  lemma MulMono(a: nat, b: nat, k: nat)
    requires a <= b
    ensures a * k <= b * k
  {
  }

  lemma MulSign(k: int, c: nat)
    ensures k <= 0 ==> k * c <= 0
    ensures k >= 1 ==> k * c >= c
    decreases if k < 0 then -k else k
  {
    if k > 1 { MulSign(k - 1, c); assert k * c == (k - 1) * c + c; }
    else if k < 0 { MulSign(k + 1, c); assert k * c == (k + 1) * c - c; }
  }

  /** Two sequence numbers less than `capacity` apart use different slots. */
  lemma DistinctSlots(a: nat, b: nat, capacity: nat)
    requires capacity > 0 && a < b < a + capacity
    ensures a % capacity != b % capacity
  {
    var qa, qb := a / capacity, b / capacity;
    var ra, rb := a % capacity, b % capacity;
    assert a == qa * capacity + ra;
    assert b == qb * capacity + rb;
    if ra == rb {
      var k := qb - qa;
      assert k * capacity == qb * capacity - qa * capacity;
      assert k * capacity == b - a;
      MulSign(k, capacity);
    }
  }

  /** The storage ranges of two different slots do not overlap. */
  lemma DisjointRanges(i: nat, j: nat, itemSize: nat)
    requires i != j
    ensures i * itemSize + itemSize <= j * itemSize || j * itemSize + itemSize <= i * itemSize
  {
    if i < j { MulMono(i + 1, j, itemSize); } else { MulMono(j + 1, i, itemSize); }
  }

  /** Offset of the slot used by sequence number `s`: (s % capacity) * itemSize. */
  function Offset(s: nat, capacity: nat, itemSize: nat): (p: nat)
    requires capacity > 0
    ensures p + itemSize <= capacity * itemSize
  {
    MulMono(s % capacity + 1, capacity, itemSize);
    (s % capacity) * itemSize
  }

  /** Storage `f` holds `history[s]` in its slot for every s in [lo, hi). */
  ghost predicate Holds<T>(f: seq<T>, capacity: nat, itemSize: nat, history: seq<seq<T>>, lo: nat, hi: nat)
    requires capacity > 0 && |f| == capacity * itemSize && hi <= |history|
  {
    forall s :: lo <= s < hi ==>
      f[Offset(s, capacity, itemSize)..Offset(s, capacity, itemSize) + itemSize] == history[s]
  }

  /** Writing one slot for sequence number `head` keeps every other retrievable item intact. */
  lemma WriteKeepsOthers<T>(f: seq<T>, g: seq<T>, capacity: nat, itemSize: nat,
                            history: seq<seq<T>>, item: seq<T>, lo: nat, lo': nat, head: nat)
    requires capacity > 0 && |f| == |g| == capacity * itemSize
    requires head == |history| && lo <= lo' && head + 1 - capacity <= lo' && lo' <= head + 1
    requires Holds(f, capacity, itemSize, history, lo, head)
    requires g[Offset(head, capacity, itemSize)..Offset(head, capacity, itemSize) + itemSize] == item
    requires forall k :: 0 <= k < |f| && !(Offset(head, capacity, itemSize) <= k < Offset(head, capacity, itemSize) + itemSize)
                      ==> g[k] == f[k]
    ensures Holds(g, capacity, itemSize, history + [item], lo', head + 1)
  {
    var h := history + [item];
    forall s | lo' <= s < head + 1
      ensures g[Offset(s, capacity, itemSize)..Offset(s, capacity, itemSize) + itemSize] == h[s]
    {
      if s < head {
        DistinctSlots(s, head, capacity);
        DisjointRanges(s % capacity, head % capacity, itemSize);
        var o := Offset(s, capacity, itemSize);
        assert g[o..o + itemSize] == f[o..o + itemSize];
      }
    }
  }

  class Ring<T(0)> {
    const capacity: nat
    const itemSize: nat
    const frames: array<T>
    var head: nat
    var tail: nat
    var produced: nat
    var consumed: nat
    var overruns: nat
    /** Every item ever pushed, by sequence number (proof bookkeeping only). */
    ghost var history: seq<seq<T>>

    ghost function State(): RingSpec.RingState<T>
      reads this
    {
      RingSpec.RingState(capacity, head, tail, produced, consumed, overruns, history)
    }

    /** Offset in `frames` of the item with sequence number `s` (`pointer(seq)`). */
    function Pointer(s: nat): (p: nat)
      requires capacity > 0 && frames.Length == capacity * itemSize
      ensures p + itemSize <= frames.Length
      ensures p == (s % capacity) * itemSize
    {
      Offset(s, capacity, itemSize)
    }

    ghost predicate Valid()
      reads this, frames
    {
      && RingSpec.Inv(State())
      && frames.Length == capacity * itemSize
      && (forall s :: 0 <= s < |history| ==> |history[s]| == itemSize)
      && Holds(frames[..], capacity, itemSize, history, RingSpec.ReadFrom(State()), head)
    }

    /** The items still retrievable, oldest first. */
    ghost function Contents(): seq<seq<T>>
      reads this, frames
      requires Valid()
    {
      RingSpec.Contents(State())
    }

    constructor (capacity: nat, itemSize: nat)
      requires capacity > 0
      ensures Valid() && fresh(frames)
      ensures this.capacity == capacity && this.itemSize == itemSize
      ensures frames.Length == capacity * itemSize
      ensures head == tail == produced == consumed == overruns == 0 && history == []
      ensures Contents() == []
    {
      this.capacity := capacity;
      this.itemSize := itemSize;
      frames := new T[capacity * itemSize];
      head, tail, produced, consumed, overruns := 0, 0, 0, 0, 0;
      history := [];
    }

    /** Occupied slots: min(head - tail, capacity). */
    function Size(): (n: nat)
      reads this, frames
      requires Valid()
      ensures n == |Contents()| && n <= capacity
    {
      if head - tail <= capacity then head - tail else capacity
    }

    function GetStats(): (st: Stats)
      reads this, frames
      requires Valid()
      ensures st.size == Size() && st.capacity == capacity
      ensures st.produced == st.consumed + st.overruns + st.size
    {
      Stats(produced, consumed, overruns, capacity, Size())
    }

    /** Copy `item` element by element into `frames` from offset `p`; nothing else is touched. */
    method CopyIn(p: nat, item: seq<T>)
      requires p + |item| <= frames.Length
      modifies frames
      ensures frames[p..p + |item|] == item
      ensures forall k :: 0 <= k < frames.Length && !(p <= k < p + |item|) ==> frames[k] == old(frames[k])
    {
      for j := 0 to |item|
        invariant frames[p..p + j] == item[..j]
        invariant forall k :: 0 <= k < frames.Length && !(p <= k < p + |item|) ==> frames[k] == old(frames[k])
      {
        frames[p + j] := item[j];
      }
    }

    /** Copy `item` into the slot of sequence number `head`, then publish it. */
    method Push(item: seq<T>)
      requires Valid() && |item| == itemSize
      modifies this, frames
      ensures Valid()
      ensures State() == RingSpec.Push(old(State()), item)
      ensures Contents() == RingSpec.Newest(capacity, old(Contents()) + [item])
    {
      ghost var oldState := State();
      var p := Pointer(head);
      ghost var before := frames[..];
      CopyIn(p, item);
      Publish(item);
      WriteKeepsOthers(before, frames[..], capacity, itemSize, oldState.history, item,
                       RingSpec.ReadFrom(oldState), RingSpec.ReadFrom(State()), oldState.head);
    }

    /** The counter side of `push`: count an overrun when the ring was full, then advance head and produced. */
    method Publish(ghost item: seq<T>)
      requires RingSpec.Inv(State())
      modifies this
      ensures State() == RingSpec.Push(old(State()), item)
    {
      if head + 1 - tail > capacity {
        overruns := overruns + 1;
      }
      head := head + 1;
      produced := produced + 1;
      history := history + [item];
    }

    /** Raise a tail that the producer has lapped to head - capacity; no counter changes. */
    method FastForwardOverrun()
      requires Valid()
      modifies this
      ensures Valid()
      ensures State() == RingSpec.FastForward(old(State()))
    {
      if head - tail > capacity {
        tail := head - capacity;
      }
    }

    /** Trim the backlog to its newest `count` items; skipped items count as overruns. */
    method DropExceptLast(count: nat)
      requires Valid()
      modifies this
      ensures Valid()
      ensures State() == RingSpec.DropExceptLast(old(State()), count)
      ensures Contents() == RingSpec.Newest(count, old(Contents()))
    {
      FastForwardOverrun();
      var newTail := head - RingSpec.Min(count, head - tail);
      if newTail > tail {
        var drops := newTail - tail;
        overruns := overruns + drops;
        tail := newTail;
      }
    }

    /**
     * Hand the oldest retrievable item to the caller (the visitor) and
     * release its slot; `ok` is false, and no item is handed out, when empty.
     */
    method PopNowait() returns (ok: bool, item: seq<T>)
      requires Valid()
      modifies this
      ensures Valid()
      ensures (State(), if ok then Some(item) else None) == RingSpec.Pop(old(State()))
      ensures ok <==> old(Contents()) != []
      ensures ok ==> item == old(Contents())[0] && |item| == itemSize
    {
      FastForwardOverrun();
      if tail == head {
        return false, [];
      }
      var p := Pointer(tail);
      item := frames[p..p + itemSize];
      tail := tail + 1;
      consumed := consumed + 1;
      ok := true;
    }
  }
}
