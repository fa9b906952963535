/**
 * The integer bookkeeping of the lossy single-producer/single-consumer frame
 * ring (AudioBuffer), as pure functions over its abstract state.
 *
 * `head` and `tail` are monotone sequence numbers; the item with sequence
 * number `s` lives in storage slot `s % capacity`. The producer never moves
 * `tail`; the consumer lazily "fast-forwards" a tail that the producer has
 * lapped. `history` is the ghost record of every item ever pushed
 * (`history[s]` is the item pushed with sequence number `s`).
 */
module RingSpec {
  import opened Wrappers
  import SeqFacts
  import Time

  datatype RingState<T> = RingState(
    capacity: nat,
    head: nat,
    tail: nat,
    produced: nat,
    consumed: nat,
    overruns: nat,
    history: seq<seq<T>>)

  function Min(a: nat, b: nat): nat { if a <= b then a else b }

  /** The newest `n` elements of `s` (all of `s` if it is shorter). */
  function Newest<T>(n: nat, s: seq<T>): (r: seq<T>)
    ensures |r| == Min(n, |s|)
    ensures r == s[|s| - |r|..]
  {
    s[|s| - Min(n, |s|)..]
  }

  /** Structural invariant: capacity > 0 (slots are `seq % capacity`), tail <= head. */
  predicate Wf<T>(r: RingState<T>)
  {
    r.capacity > 0 && r.tail <= r.head && |r.history| == r.head
  }

  /** Number of occupied slots, as `size()` computes it: min(head - tail, capacity). */
  function Size<T>(r: RingState<T>): (n: nat)
    requires Wf(r)
    ensures n <= r.capacity && n <= r.head - r.tail
  {
    Min(r.head - r.tail, r.capacity)
  }

  /** The sequence number of the oldest item still retrievable. */
  function ReadFrom<T>(r: RingState<T>): (s: nat)
    requires Wf(r)
    ensures r.tail <= s <= r.head && r.head - s == Size(r)
  {
    if r.head - r.tail > r.capacity then r.head - r.capacity else r.tail
  }

  /** The items a consumer can still retrieve, oldest first. */
  function Contents<T>(r: RingState<T>): (c: seq<seq<T>>)
    requires Wf(r)
    ensures |c| == Size(r) <= r.capacity
  {
    r.history[ReadFrom(r)..r.head]
  }

  /** Counter conservation: every produced item is consumed, dropped, or still held. */
  predicate Conserved<T>(r: RingState<T>)
    requires Wf(r)
  {
    r.produced == r.head && r.produced == r.consumed + r.overruns + Size(r)
  }

  predicate Inv<T>(r: RingState<T>)
  {
    Wf(r) && Conserved(r)
  }

  /** A freshly constructed ring: all counters zero. */
  function Init<T>(capacity: nat): (r: RingState<T>)
    requires capacity > 0
    ensures Inv(r) && Contents(r) == [] && r.capacity == capacity
  {
    RingState(capacity, 0, 0, 0, 0, 0, [])
  }

  /** Consumer-side reconciliation of a lapped tail; touches no counter. */
  function FastForward<T>(r: RingState<T>): (f: RingState<T>)
    requires Wf(r)
    ensures Wf(f) && f.tail >= r.tail
    ensures f == r.(tail := f.tail)
    ensures f.tail == (if r.head - r.tail > r.capacity then r.head - r.capacity else r.tail)
    ensures f.head - f.tail <= f.capacity
    ensures Contents(f) == Contents(r)
  {
    if r.head - r.tail > r.capacity then r.(tail := r.head - r.capacity) else r
  }

  /** `push`: write at sequence number `head`; one overrun iff head + 1 - tail > capacity. */
  function Push<T>(r: RingState<T>, item: seq<T>): (p: RingState<T>)
    requires Inv(r)
    ensures Inv(p)
    ensures p.tail == r.tail && p.head == r.head + 1 && p.produced == r.produced + 1
    ensures p.consumed == r.consumed
    ensures p.overruns == r.overruns + (if r.head + 1 - r.tail > r.capacity then 1 else 0)
    ensures Contents(p) == Newest(r.capacity, Contents(r) + [item])
  {
    PushContents(r, item);
    r.(head := r.head + 1, produced := r.produced + 1,
       overruns := r.overruns + (if r.head + 1 - r.tail > r.capacity then 1 else 0),
       history := r.history + [item])
  }

  /** The retrievable window after a push: the old window plus the item, cut to the newest `capacity`. */
  lemma PushContents<T>(r: RingState<T>, item: seq<T>)
    requires Inv(r)
    ensures var p := r.(head := r.head + 1, history := r.history + [item]);
            Wf(p) && Contents(p) == Newest(r.capacity, Contents(r) + [item])
  {
    var p := r.(head := r.head + 1, history := r.history + [item]);
    var h := p.history;
    var a := ReadFrom(r);
    var x := Contents(r) + [item];
    assert x == h[a..p.head];
    var m := Min(r.capacity, |x|);
    assert ReadFrom(p) == p.head - m;
    assert Newest(r.capacity, x) == h[p.head - m..p.head];
  }

  /** `pop_nowait`: the oldest retrievable item, or None when the ring is empty. */
  function Pop<T>(r: RingState<T>): (res: (RingState<T>, Option<seq<T>>))
    requires Inv(r)
    ensures Inv(res.0)
    ensures res.1.None? <==> Contents(r) == []
    ensures res.1.None? ==> res.0.tail == r.tail && res.0.consumed == r.consumed
    ensures res.1.Some? ==> res.1.value == Contents(r)[0] && res.0.consumed == r.consumed + 1
    ensures Contents(res.0) == if res.1.None? then Contents(r) else Contents(r)[1..]
    ensures res.0.head == r.head && res.0.produced == r.produced && res.0.overruns == r.overruns
  {
    var f := FastForward(r);
    if f.tail == f.head then (f, None)
    else (f.(tail := f.tail + 1, consumed := f.consumed + 1), Some(f.history[f.tail]))
  }

  /** `drop_except_last(n)`: keep only the newest min(n, size) items; skipped items count as overruns. */
  function DropExceptLast<T>(r: RingState<T>, n: nat): (d: RingState<T>)
    requires Inv(r)
    ensures Inv(d)
    ensures Contents(d) == Newest(n, Contents(r))
    ensures d.overruns == r.overruns + (Size(r) - Min(n, Size(r)))
    ensures d.head == r.head && d.produced == r.produced && d.consumed == r.consumed
    ensures d.head - d.tail == Min(n, Size(r))
  {
    var f := FastForward(r);
    var newTail := f.head - Min(n, f.head - f.tail);
    if newTail > f.tail then f.(tail := newTail, overruns := f.overruns + (newTail - f.tail)) else f
  }

  /** The producer pushing `items` in order, with no consumer activity in between. */
  function PushAll<T>(r: RingState<T>, items: seq<seq<T>>): (p: RingState<T>)
    requires Inv(r)
    ensures Inv(p) && p.capacity == r.capacity
    ensures p.produced == r.produced + |items| && p.consumed == r.consumed
    decreases |items|
  {
    if items == [] then r else PushAll(Push(r, items[0]), items[1..])
  }

  /** The consumer popping until `pop_nowait` reports empty; returns the items handed out. */
  function Drain<T>(r: RingState<T>): (res: (RingState<T>, seq<seq<T>>))
    requires Inv(r)
    ensures Inv(res.0)
    ensures res.1 == Contents(r) && Contents(res.0) == []
    ensures res.0.overruns == r.overruns && res.0.consumed == r.consumed + |Contents(r)|
    ensures res.0.capacity == r.capacity
    decreases |Contents(r)|
  {
    var (p, o) := Pop(r);
    if o.None? then (p, [])
    else
      assert Contents(r) == [o.value] + Contents(p);
      var (q, rest) := Drain(p);
      (q, [o.value] + rest)
  }

  /** Pushing a batch keeps the newest `capacity` items. */
  lemma {:induction false} PushAllContents<T>(r: RingState<T>, items: seq<seq<T>>)
    requires Inv(r)
    ensures Contents(PushAll(r, items)) == Newest(r.capacity, Contents(r) + items)
    decreases |items|
  {
    if items == [] {
      assert Contents(r) + items == Contents(r);
    } else {
      var p := Push(r, items[0]);
      PushAllContents(p, items[1..]);
      var c := Contents(r);
      NewestOfNewestSeq(r.capacity, c, items[0], items[1..]);
      SeqFacts.ConsSplit(items);
      SeqFacts.AppendAssoc(c, [items[0]], items[1..]);
    }
  }

  /** Pushing a batch counts every displaced item as an overrun, and consumes nothing. */
  lemma PushAllOverruns<T>(r: RingState<T>, items: seq<seq<T>>)
    requires Inv(r)
    ensures PushAll(r, items).overruns
            == r.overruns + (|Contents(r)| + |items| - Min(r.capacity, |Contents(r)| + |items|))
    ensures PushAll(r, items).consumed == r.consumed
  {
    PushAllContents(r, items);
  }

  lemma NewestOfNewestSeq<T>(n: nat, s: seq<T>, x: T, rest: seq<T>)
    requires n > 0
    ensures Newest(n, Newest(n, s + [x]) + rest) == Newest(n, s + [x] + rest)
  {
    var u := s + [x];
    var t := Newest(n, u);
    assert t + rest == (u + rest)[|u| - |t|..];
  }

  /** Pushing into a fresh ring: what is retrievable and how many items were lost. */
  lemma {:induction false} PushIntoFresh<T>(capacity: nat, items: seq<seq<T>>)
    requires capacity > 0
    ensures Contents(PushAll(Init<T>(capacity), items)) == Newest(capacity, items)
    ensures PushAll(Init<T>(capacity), items).overruns == |items| - Min(capacity, |items|)
  {
    FreshContents<T>(capacity, items);
    FreshOverruns<T>(capacity, items);
  }

  lemma {:induction false} FreshContents<T>(capacity: nat, items: seq<seq<T>>)
    requires capacity > 0
    ensures Contents(PushAll(Init<T>(capacity), items)) == Newest(capacity, items)
  {
    var r := Init<T>(capacity);
    assert Contents(r) == [] && r.capacity == capacity;
    assert Contents(r) + items == items;
    PushAllContents(r, items);
  }

  lemma {:induction false} FreshOverruns<T>(capacity: nat, items: seq<seq<T>>)
    requires capacity > 0
    ensures PushAll(Init<T>(capacity), items).overruns == |items| - Min(capacity, |items|)
  {
    EmptyOverruns(Init<T>(capacity), items);
  }

  /** Into an empty ring, a batch overruns by as much as it exceeds the capacity. */
  lemma {:induction false} EmptyOverruns<T>(r: RingState<T>, items: seq<seq<T>>)
    requires Inv(r) && Contents(r) == []
    ensures PushAll(r, items).overruns == r.overruns + (|items| - Min(r.capacity, |items|))
  {
    PushAllOverruns(r, items);
    assert |Contents(r)| == 0;
  }

  /**
   * Pushing capacity + k items into a fresh ring and then draining it yields
   * exactly the newest `capacity` items, in push order, and k overruns.
   */
  lemma OverrunScenario<T>(capacity: nat, items: seq<seq<T>>)
    requires capacity > 0 && |items| >= capacity
    ensures Drain(PushAll(Init<T>(capacity), items)).1 == items[|items| - capacity..]
    ensures Drain(PushAll(Init<T>(capacity), items)).0.overruns == |items| - capacity
  {
    PushIntoFresh(capacity, items);
  }

  /** Pushing one more item after a batch is pushing the extended batch. */
  lemma {:induction false} PushAllSnoc<T>(r: RingState<T>, items: seq<seq<T>>, x: seq<T>)
    requires Inv(r)
    ensures PushAll(r, items + [x]) == Push(PushAll(r, items), x)
    decreases |items|
  {
    if items == [] {
      assert PushAll(Push(r, x), []) == Push(r, x);
      assert [x][1..] == [];
    } else {
      assert (items + [x])[0] == items[0] && (items + [x])[1..] == items[1..] + [x];
      PushAllSnoc(Push(r, items[0]), items[1..], x);
    }
  }

  /**
   * The 32-bit target: `head`, `tail` and the three statistics counters are
   * `std::size_t`, so what the ring stores is the count modulo 2^32. The
   * functions above use the true counts.
   */
  const Two32: int := Time.Two32

  function Wrap32(n: int): (w: nat)
    ensures w < Two32
    ensures 0 <= n < Two32 ==> w == n
  {
    n % Two32
  }

  /** Unsigned subtraction of the stored counters gives the true distance while it is below 2^32. */
  lemma WrappedDistance(head: nat, tail: nat)
    requires tail <= head < tail + Two32
    ensures Wrap32(Wrap32(head) - Wrap32(tail)) == head - tail
  {
    var qh, qt := head / Two32, tail / Two32;
    assert head - tail == (qh - qt) * Two32 + (Wrap32(head) - Wrap32(tail));
    if Wrap32(head) >= Wrap32(tail) {
      assert qh == qt;
    } else {
      assert qh == qt + 1;
    }
  }

  /**
   * `pointer(seq)` takes the stored sequence number modulo the capacity;
   * when the capacity divides 2^32 that is the slot of the true number.
   */
  lemma WrappedSlot(s: nat, capacity: nat)
    requires 0 < capacity && Two32 % capacity == 0
    ensures Wrap32(s) % capacity == s % capacity
  {
    var k := Two32 / capacity;
    assert Two32 == k * capacity;
    var q := s / Two32;
    assert s == q * Two32 + Wrap32(s);
    assert q * Two32 == (q * k) * capacity;
    MultipleMod(q * k, capacity, Wrap32(s));
  }

  lemma MultipleMod(m: nat, c: nat, w: nat)
    requires 0 < c
    ensures (m * c + w) % c == w % c
  {
    var q, r := w / c, w % c;
    assert w == c * q + r;
    assert m * c + w == c * (m + q) + r;
    Time.DivUnique(m * c + w, c, m + q, r);
  }

  /**
   * The new stored tail of `drop_except_last(count)` on the stored counters
   * (after the fast-forward, which subtraction keeps right): the test
   * `new_tail > tail` compares wrapped sequence numbers.
   */
  function DropTail32(head: nat, tail: nat, count: nat): (t: nat)
    ensures t < Two32
  {
    var h, t := Wrap32(head), Wrap32(tail);
    var newTail := Wrap32(h - Min(count, Wrap32(h - t)));
    if newTail > t then newTail else t
  }

  /** While head and tail lie in the same 2^32 window, the stored tail is the true new tail, wrapped. */
  lemma DropTail32Agrees(head: nat, tail: nat, count: nat)
    requires tail <= head && head / Two32 == tail / Two32
    ensures DropTail32(head, tail, count) == Wrap32(head - Min(count, head - tail))
  {
    var q := head / Two32;
    assert head == q * Two32 + Wrap32(head) && tail == q * Two32 + Wrap32(tail);
    assert Wrap32(Wrap32(head) - Wrap32(tail)) == head - tail;
    var m := Min(count, head - tail);
    assert head - m == q * Two32 + (Wrap32(head) - m);
    assert Wrap32(head - m) == Wrap32(head) - m;
  }

  /**
   * Four items held across the wrap (true `tail` 2^32 - 1, true `head`
   * 2^32 + 3): `DropExceptLast(r, 1)` keeps one, but on the stored counters
   * the wrapped new tail 2 is not greater than the stored tail 2^32 - 1,
   * so nothing is dropped and all four stay.
   */
  lemma DropAcrossWrap<T>(r: RingState<T>)
    requires Inv(r) && r.capacity >= 4 && r.head == Two32 + 3 && r.tail == Two32 - 1
    ensures DropExceptLast(r, 1).head - DropExceptLast(r, 1).tail == 1
    ensures DropTail32(r.head, r.tail, 1) == Wrap32(r.tail)
    ensures Wrap32(Wrap32(r.head) - DropTail32(r.head, r.tail, 1)) == 4
  {
    assert Size(r) == 4;
    assert Wrap32(r.head) == 3 && Wrap32(r.tail) == Two32 - 1;
  }
}
