/**
 * The stream task shared by main/WsStreamer.cpp and main/MarvinSession.cpp:
 * wait for the WebSocket to connect (10 s), wait for the session to start
 * streaming (500 ms), send the start message, then, while `running_`, either
 * send the closing text message once the session has stopped streaming, or
 * send every frame the ring hands out. The two files differ only in the
 * closing message's type ("end" / "stop") and in how a frame becomes bytes.
 *
 * Another task pushes into the ring and flips `streaming_` meanwhile; the
 * model takes, for each pass of the loop, the frames pushed since the last
 * pass (`arrivals`) and the value of `streaming_` the pass reads (`seen`).
 * The WebSocket is the list of messages sent.
 */
module Streaming {
  import opened Pcm
  import opened Time
  import opened Wait
  import RingSpec
  import SeqFacts
  import Wrappers
  import AudioBuffer

  /** The messages, as records: the JSON encoding is not modelled. */
  datatype Message =
    | Start(deviceId: string, fmt: string, sampleRate: nat, frameSamples: nat,
            channels: nat, endian: string, gain: real)
    | Control(kind: string)
    | Binary(data: seq<Byte>)

  /** The start message's fixed fields. */
  function StartMessage(deviceId: string): Message {
    Start(deviceId, "pcm16_le", 16000, 320, 1, "le", 1.0)
  }

  const ConnectTimeout: U32 := 10000
  const StreamingTimeout: U32 := 500

  /** One `waitUntil`: the clock at its start and one probe per test of the predicate. */
  datatype Poll = Poll(start: U32, probes: seq<Probe>)

  /** One binary message per frame, in order. */
  function Binaries<T>(items: seq<seq<T>>, encode: seq<T> -> seq<Byte>): (ms: seq<Message>)
    ensures |ms| == |items|
  {
    if items == [] then [] else Binaries(items[..|items| - 1], encode) + [Binary(encode(items[|items| - 1]))]
  }

  /** The i-th message carries the i-th frame, encoded. */
  lemma {:induction false} BinariesEach<T>(items: seq<seq<T>>, encode: seq<T> -> seq<Byte>)
    ensures forall i :: 0 <= i < |items| ==> Binaries(items, encode)[i] == Binary(encode(items[i]))
    decreases |items|
  {
    if items != [] {
      var front := items[..|items| - 1];
      BinariesEach(front, encode);
      forall i | 0 <= i < |items| - 1
        ensures Binaries(items, encode)[i] == Binary(encode(items[i]))
      {
        assert front[i] == items[i];
      }
    }
  }

  lemma BinariesAppend<T>(a: seq<seq<T>>, b: seq<seq<T>>, encode: seq<T> -> seq<Byte>)
    ensures Binaries(a + b, encode) == Binaries(a, encode) + Binaries(b, encode)
  {
    var l, r := Binaries(a + b, encode), Binaries(a, encode) + Binaries(b, encode);
    BinariesEach(a + b, encode);
    BinariesEach(a, encode);
    BinariesEach(b, encode);
    forall i | 0 <= i < |l|
      ensures l[i] == r[i]
    {
      if i < |a| {
        assert (a + b)[i] == a[i];
      } else {
        assert (a + b)[i] == b[i - |a|];
      }
    }
  }

  /** Every frame of every batch fits the ring's item size. */
  ghost predicate Fits<T>(arrivals: seq<seq<seq<T>>>, itemSize: nat) {
    forall k, j :: 0 <= k < |arrivals| && 0 <= j < |arrivals[k]| ==> |arrivals[k][j]| == itemSize
  }

  /** The outcome of the loop: the ring afterwards, the frames sent, and whether the closing message went out. */
  datatype Pass<T> = Pass(ring: RingSpec.RingState<T>, sent: seq<seq<T>>, stopped: bool)

  /**
   * The loop over the passes: each pass first sees the producer's new
   * frames, then reads `streaming_`; false ends the loop, true drains the ring.
   */
  function Passes<T>(r: RingSpec.RingState<T>, running: bool, seen: seq<bool>, arrivals: seq<seq<seq<T>>>): (p: Pass<T>)
    requires RingSpec.Inv(r) && |arrivals| == |seen|
    ensures RingSpec.Inv(p.ring) && p.ring.capacity == r.capacity
    decreases |seen|
  {
    if !running || seen == [] then Pass(r, [], false)
    else
      var q := RingSpec.PushAll(r, arrivals[0]);
      if !seen[0] then Pass(q, [], true)
      else
        var d := RingSpec.Drain(q);
        var rest := Passes(d.0, running, seen[1..], arrivals[1..]);
        Pass(rest.ring, d.1 + rest.sent, rest.stopped)
  }

  /** The number of passes before the first that reads `streaming_` false. */
  function StopAt(seen: seq<bool>): (n: nat)
    ensures n <= |seen|
    ensures forall k :: 0 <= k < n ==> seen[k]
    ensures n < |seen| ==> !seen[n]
  {
    if seen == [] || !seen[0] then 0 else 1 + StopAt(seen[1..])
  }

  function Flatten<T>(batches: seq<seq<T>>): seq<T> {
    if batches == [] then [] else batches[0] + Flatten(batches[1..])
  }

  /** While running, the closing message is sent exactly when some pass reads `streaming_` false. */
  lemma {:induction false} PassesStop<T>(r: RingSpec.RingState<T>, running: bool, seen: seq<bool>, arrivals: seq<seq<seq<T>>>)
    requires RingSpec.Inv(r) && |arrivals| == |seen|
    ensures Passes(r, running, seen, arrivals).stopped <==> running && StopAt(seen) < |seen|
    decreases |seen|
  {
    if running && seen != [] && seen[0] {
      var d := RingSpec.Drain(RingSpec.PushAll(r, arrivals[0]));
      PassesStop(d.0, running, seen[1..], arrivals[1..]);
    }
  }

  /** An empty ring given a batch it can hold hands the whole batch back and is empty again. */
  lemma DrainBatch<T>(r: RingSpec.RingState<T>, batch: seq<seq<T>>)
    requires RingSpec.Inv(r) && RingSpec.Contents(r) == [] && |batch| <= r.capacity
    ensures var d := RingSpec.Drain(RingSpec.PushAll(r, batch));
            d.1 == batch && RingSpec.Contents(d.0) == [] && d.0.capacity == r.capacity
  {
    RingSpec.PushAllContents(r, batch);
    assert RingSpec.Contents(r) + batch == batch;
  }

  lemma FlattenFront<T>(a: seq<seq<T>>, n: nat)
    requires n < |a|
    ensures Flatten(a[..n + 1]) == a[0] + Flatten(a[1..][..n])
  {
    assert a[..n + 1][0] == a[0] && a[..n + 1][1..] == a[1..][..n];
  }

  /**
   * When the ring starts empty and no batch overflows it, nothing is lost:
   * the frames sent are all frames pushed before the stopping pass, in push order.
   */
  lemma {:induction false} PassesLossless<T>(r: RingSpec.RingState<T>, seen: seq<bool>, arrivals: seq<seq<seq<T>>>)
    requires RingSpec.Inv(r) && RingSpec.Contents(r) == [] && |arrivals| == |seen|
    requires forall k :: 0 <= k < |arrivals| ==> |arrivals[k]| <= r.capacity
    ensures Passes(r, true, seen, arrivals).sent == Flatten(arrivals[..StopAt(seen)])
    decreases |seen|
  {
    if seen != [] && seen[0] {
      DrainBatch(r, arrivals[0]);
      var d := RingSpec.Drain(RingSpec.PushAll(r, arrivals[0]));
      var later := arrivals[1..];
      assert forall k :: 0 <= k < |later| ==> |later[k]| <= d.0.capacity by {
        forall k | 0 <= k < |later| ensures |later[k]| <= d.0.capacity {
          assert later[k] == arrivals[k + 1];
        }
      }
      PassesLossless(d.0, seen[1..], later);
      LosslessPass(r, seen, arrivals);
    } else {
      assert StopAt(seen) == 0;
      assert arrivals[..0] == [];
    }
  }

  /** The inductive step of `PassesLossless`: a draining pass sends its batch, then the rest follows. */
  lemma {:induction false} LosslessPass<T>(r: RingSpec.RingState<T>, seen: seq<bool>, arrivals: seq<seq<seq<T>>>)
    requires RingSpec.Inv(r) && |arrivals| == |seen| && seen != [] && seen[0]
    requires var d := RingSpec.Drain(RingSpec.PushAll(r, arrivals[0]));
             && d.1 == arrivals[0]
             && Passes(d.0, true, seen[1..], arrivals[1..]).sent == Flatten(arrivals[1..][..StopAt(seen[1..])])
    ensures Passes(r, true, seen, arrivals).sent == Flatten(arrivals[..StopAt(seen)])
  {
    var d := RingSpec.Drain(RingSpec.PushAll(r, arrivals[0]));
    var rest := Passes(d.0, true, seen[1..], arrivals[1..]).sent;
    var n := StopAt(seen[1..]);
    PassesUnfold(r, seen, arrivals);
    StopAtCons(seen);
    FlattenFront(arrivals, n);
    Rejoin(Passes(r, true, seen, arrivals).sent, d.1, rest, arrivals[0], Flatten(arrivals[1..][..n]),
           Flatten(arrivals[..StopAt(seen)]));
  }

  lemma Rejoin<X>(whole: seq<X>, a: seq<X>, b: seq<X>, a': seq<X>, b': seq<X>, target: seq<X>)
    requires whole == a + b && a == a' && b == b' && target == a' + b'
    ensures whole == target
  {
  }

  lemma StopAtCons(seen: seq<bool>)
    requires seen != [] && seen[0]
    ensures StopAt(seen) == 1 + StopAt(seen[1..])
  {
  }

  lemma {:induction false} PassesUnfold<T>(r: RingSpec.RingState<T>, seen: seq<bool>, arrivals: seq<seq<seq<T>>>)
    requires RingSpec.Inv(r) && |arrivals| == |seen| && seen != [] && seen[0]
    ensures var d := RingSpec.Drain(RingSpec.PushAll(r, arrivals[0]));
            Passes(r, true, seen, arrivals).sent == d.1 + Passes(d.0, true, seen[1..], arrivals[1..]).sent
  {
  }

  /** The producer task pushing one batch between two passes. */
  method Produce<T(0)>(ring: AudioBuffer.Ring<T>, items: seq<seq<T>>)
    requires ring.Valid() && forall i :: 0 <= i < |items| ==> |items[i]| == ring.itemSize
    modifies ring, ring.frames
    ensures ring.Valid()
    ensures ring.State() == RingSpec.PushAll(old(ring.State()), items)
  {
    for j := 0 to |items|
      invariant ring.Valid()
      invariant ring.State() == RingSpec.PushAll(old(ring.State()), items[..j])
    {
      SeqFacts.TakeSnoc(items, j);
      RingSpec.PushAllSnoc(old(ring.State()), items[..j], items[j]);
      ring.Push(items[j]);
    }
    SeqFacts.TakeAll(items);
  }

  /** One pass's inner loop: pop until `pop_nowait` reports empty, sending each frame. */
  method DrainPass<T(0)>(ring: AudioBuffer.Ring<T>, encode: seq<T> -> seq<Byte>) returns (items: seq<seq<T>>, msgs: seq<Message>)
    requires ring.Valid()
    modifies ring
    ensures ring.Valid()
    ensures (ring.State(), items) == RingSpec.Drain(old(ring.State()))
    ensures msgs == Binaries(items, encode)
  {
    items, msgs := [], [];
    ghost var before := ring.State();
    var ok, item := ring.PopNowait();
    while ok
      invariant ring.Valid() && RingSpec.Inv(before)
      invariant (ring.State(), if ok then Wrappers.Some(item) else Wrappers.None) == RingSpec.Pop(before)
      invariant RingSpec.Drain(before).0 == RingSpec.Drain(old(ring.State())).0
      invariant items + RingSpec.Drain(before).1 == RingSpec.Drain(old(ring.State())).1
      invariant msgs == Binaries(items, encode)
      decreases |ring.Contents()| + (if ok then 1 else 0)
    {
      SeqFacts.AppendAssoc(items, [item], RingSpec.Drain(ring.State()).1);
      SeqFacts.SnocParts(items, item);
      msgs := msgs + [Binary(encode(item))];
      items := items + [item];
      before := ring.State();
      ok, item := ring.PopNowait();
    }
    SeqFacts.AppendEmpty(items);
  }

  /** The `while (running_)` loop of the stream task. */
  method StreamLoop<T(0)>(ring: AudioBuffer.Ring<T>, running: bool, seen: seq<bool>, arrivals: seq<seq<seq<T>>>,
                          closing: string, encode: seq<T> -> seq<Byte>)
    returns (msgs: seq<Message>, stopped: bool)
    requires ring.Valid() && |arrivals| == |seen| && Fits(arrivals, ring.itemSize)
    modifies ring, ring.frames
    ensures ring.Valid()
    ensures var p := Passes(old(ring.State()), running, seen, arrivals);
            && ring.State() == p.ring && stopped == p.stopped
            && msgs == Binaries(p.sent, encode) + (if p.stopped then [Control(closing)] else [])
  {
    msgs, stopped := [], false;
    ghost var done: seq<seq<T>> := [];
    ghost var whole := Passes(ring.State(), running, seen, arrivals);
    BetweenStart(ring.State(), running, seen, arrivals);
    var k := 0;
    while running && k < |seen|
      invariant ring.Valid() && Between(whole, ring.State(), running, seen, arrivals, k, done)
      invariant msgs == Binaries(done, encode)
    {
      var stop;
      msgs, stop, done := Round(ring, whole, running, seen, arrivals, k, done, msgs, closing, encode);
      if stop {
        stopped := true;
        return;
      }
      k := k + 1;
    }
    BetweenEnd(whole, ring.State(), running, seen, arrivals, k, done);
  }

  /** One pass of the loop, with the messages it sends: the frames drained, or the closing message. */
  method Round<T(0)>(ring: AudioBuffer.Ring<T>, ghost whole: Pass<T>, running: bool, seen: seq<bool>, arrivals: seq<seq<seq<T>>>,
                     k: nat, ghost done: seq<seq<T>>, msgs: seq<Message>, closing: string, encode: seq<T> -> seq<Byte>)
    returns (msgs': seq<Message>, stop: bool, ghost done': seq<seq<T>>)
    requires ring.Valid() && Fits(arrivals, ring.itemSize) && running && k < |seen|
    requires Between(whole, ring.State(), running, seen, arrivals, k, done) && msgs == Binaries(done, encode)
    modifies ring, ring.frames
    ensures ring.Valid()
    ensures stop == !seen[k]
    ensures stop ==> whole == Pass(ring.State(), done, true) && msgs' == msgs + [Control(closing)]
    ensures !stop ==> Between(whole, ring.State(), running, seen, arrivals, k + 1, done') && msgs' == Binaries(done', encode)
  {
    FitsAt(arrivals, ring.itemSize, k);
    ghost var r := ring.State();
    var items, bins := OnePass(ring, arrivals[k], seen[k], encode);
    PassStep(whole, r, running, seen, arrivals, k, done);
    stop := !seen[k];
    if stop {
      msgs', done' := msgs + [Control(closing)], done;
    } else {
      BinariesAppend(done, items, encode);
      msgs', done' := msgs + bins, done + items;
    }
  }

  /** `Passes` from pass `k` on, indexing the oracles instead of slicing them. */
  function PassesFrom<T>(r: RingSpec.RingState<T>, running: bool, seen: seq<bool>, arrivals: seq<seq<seq<T>>>, k: nat): (p: Pass<T>)
    requires RingSpec.Inv(r) && |arrivals| == |seen| && k <= |seen|
    ensures RingSpec.Inv(p.ring)
    decreases |seen| - k
  {
    if !running || k == |seen| then Pass(r, [], false)
    else
      var q := RingSpec.PushAll(r, arrivals[k]);
      if !seen[k] then Pass(q, [], true)
      else
        var d := RingSpec.Drain(q);
        var rest := PassesFrom(d.0, running, seen, arrivals, k + 1);
        Pass(rest.ring, d.1 + rest.sent, rest.stopped)
  }

  lemma PassesFromAt<T>(r: RingSpec.RingState<T>, running: bool, seen: seq<bool>, arrivals: seq<seq<seq<T>>>, k: nat)
    requires RingSpec.Inv(r) && |arrivals| == |seen| && running && k < |seen|
    ensures var q := RingSpec.PushAll(r, arrivals[k]);
            && (!seen[k] ==> PassesFrom(r, running, seen, arrivals, k) == Pass(q, [], true))
            && (seen[k] ==>
                  var d := RingSpec.Drain(q);
                  var rest := PassesFrom(d.0, running, seen, arrivals, k + 1);
                  PassesFrom(r, running, seen, arrivals, k) == Pass(rest.ring, d.1 + rest.sent, rest.stopped))
  {
  }

  /** The loop's invariant: `whole` is the frames already sent followed by the passes from `k` on. */
  ghost predicate Between<T>(whole: Pass<T>, r: RingSpec.RingState<T>, running: bool, seen: seq<bool>,
                             arrivals: seq<seq<seq<T>>>, k: nat, done: seq<seq<T>>)
  {
    RingSpec.Inv(r) && |arrivals| == |seen| && k <= |seen|
    && var p := PassesFrom(r, running, seen, arrivals, k);
       whole == Pass(p.ring, done + p.sent, p.stopped)
  }

  lemma BetweenStart<T>(r: RingSpec.RingState<T>, running: bool, seen: seq<bool>, arrivals: seq<seq<seq<T>>>)
    requires RingSpec.Inv(r) && |arrivals| == |seen|
    ensures Between(Passes(r, running, seen, arrivals), r, running, seen, arrivals, 0, [])
  {
    PassesFromIsPasses(r, running, seen, arrivals, 0);
    assert seen[0..] == seen && arrivals[0..] == arrivals;
    SeqFacts.AppendEmpty(PassesFrom(r, running, seen, arrivals, 0).sent);
  }

  /** One pass across the invariant: a stopping pass ends the whole, a draining pass moves its frames to `done`. */
  lemma PassStep<T>(whole: Pass<T>, r: RingSpec.RingState<T>, running: bool, seen: seq<bool>, arrivals: seq<seq<seq<T>>>, k: nat,
                    done: seq<seq<T>>)
    requires Between(whole, r, running, seen, arrivals, k, done) && running && k < |seen|
    ensures !seen[k] ==> whole == Pass(RingSpec.PushAll(r, arrivals[k]), done, true)
    ensures seen[k] ==>
              var d := RingSpec.Drain(RingSpec.PushAll(r, arrivals[k]));
              Between(whole, d.0, running, seen, arrivals, k + 1, done + d.1)
  {
    PassesFromAt(r, running, seen, arrivals, k);
    var q := RingSpec.PushAll(r, arrivals[k]);
    if seen[k] {
      var d := RingSpec.Drain(q);
      SeqFacts.AppendAssoc(done, d.1, PassesFrom(d.0, running, seen, arrivals, k + 1).sent);
    } else {
      SeqFacts.AppendEmpty(done);
    }
  }

  /** Once the loop's condition fails, the frames already sent are the whole. */
  lemma BetweenEnd<T>(whole: Pass<T>, r: RingSpec.RingState<T>, running: bool, seen: seq<bool>, arrivals: seq<seq<seq<T>>>, k: nat,
                      done: seq<seq<T>>)
    requires Between(whole, r, running, seen, arrivals, k, done) && !(running && k < |seen|)
    ensures whole == Pass(r, done, false)
  {
    SeqFacts.AppendEmpty(done);
  }

  lemma {:induction false} PassesFromIsPasses<T>(r: RingSpec.RingState<T>, running: bool, seen: seq<bool>, arrivals: seq<seq<seq<T>>>, k: nat)
    requires RingSpec.Inv(r) && |arrivals| == |seen| && k <= |seen|
    ensures PassesFrom(r, running, seen, arrivals, k) == Passes(r, running, seen[k..], arrivals[k..])
    decreases |seen| - k
  {
    if running && k < |seen| {
      assert seen[k..][0] == seen[k] && seen[k..][1..] == seen[k + 1..];
      assert arrivals[k..][0] == arrivals[k] && arrivals[k..][1..] == arrivals[k + 1..];
      var d := RingSpec.Drain(RingSpec.PushAll(r, arrivals[k]));
      PassesFromIsPasses(d.0, running, seen, arrivals, k + 1);
    }
  }

  /** The frames of one batch fit the ring's item size. */
  lemma FitsAt<T>(arrivals: seq<seq<seq<T>>>, itemSize: nat, k: nat)
    requires Fits(arrivals, itemSize) && k < |arrivals|
    ensures forall i :: 0 <= i < |arrivals[k]| ==> |arrivals[k][i]| == itemSize
  {
  }

  /**
   * The body of the loop: the producer's batch arrives; then, if `streaming_`
   * reads true, the ring is drained and each frame sent.
   */
  method OnePass<T(0)>(ring: AudioBuffer.Ring<T>, batch: seq<seq<T>>, streaming: bool, encode: seq<T> -> seq<Byte>)
    returns (items: seq<seq<T>>, bins: seq<Message>)
    requires ring.Valid() && forall i :: 0 <= i < |batch| ==> |batch[i]| == ring.itemSize
    modifies ring, ring.frames
    ensures ring.Valid()
    ensures var q := RingSpec.PushAll(old(ring.State()), batch);
            && (!streaming ==> ring.State() == q)
            && (streaming ==> (ring.State(), items) == RingSpec.Drain(q) && bins == Binaries(items, encode))
  {
    items, bins := [], [];
    Produce(ring, batch);
    if streaming {
      items, bins := DrainPass(ring, encode);
    }
  }

  /** What a stream task that got through both waits sends: start, the frames, and the closing message if a pass stopped. */
  function Transcript<T>(deviceId: string, p: Pass<T>, closing: string, encode: seq<T> -> seq<Byte>): (ms: seq<Message>)
    ensures |ms| == 1 + |p.sent| + (if p.stopped then 1 else 0) && ms[0] == StartMessage(deviceId)
    ensures p.stopped ==> ms[|ms| - 1] == Control(closing)
  {
    [StartMessage(deviceId)] + Binaries(p.sent, encode) + (if p.stopped then [Control(closing)] else [])
  }

  /** Between the start message and the closing one, message i carries the i-th frame sent. */
  lemma TranscriptFrames<T>(deviceId: string, p: Pass<T>, closing: string, encode: seq<T> -> seq<Byte>)
    ensures var ms := Transcript(deviceId, p, closing, encode);
            forall i :: 1 <= i <= |p.sent| ==> ms[i] == Binary(encode(p.sent[i - 1]))
  {
    BinariesEach(p.sent, encode);
  }

  /**
   * One utterance from an empty ring with no batch overflowing it: the task
   * sends the start message, every frame pushed before the pass that sees
   * `streaming_` false, in push order, and exactly one closing message.
   */
  lemma UtteranceTranscript<T>(r: RingSpec.RingState<T>, deviceId: string, seen: seq<bool>,
                               arrivals: seq<seq<seq<T>>>, closing: string, encode: seq<T> -> seq<Byte>)
    requires RingSpec.Inv(r) && RingSpec.Contents(r) == [] && |arrivals| == |seen|
    requires forall k :: 0 <= k < |arrivals| ==> |arrivals[k]| <= r.capacity
    requires StopAt(seen) < |seen|
    ensures Transcript(deviceId, Passes(r, true, seen, arrivals), closing, encode)
            == [StartMessage(deviceId)] + Binaries(Flatten(arrivals[..StopAt(seen)]), encode) + [Control(closing)]
  {
    PassesLossless(r, seen, arrivals);
    PassesStop(r, true, seen, arrivals);
  }

  /** How the stream task ended. */
  datatype End = NoConnection | NoStartSignal | LoopDone(stopped: bool)

  /**
   * The stream task up to its cleanup: both waits, subtracting clock
   * readings as `clock` says, the start message, the loop. A wait that
   * fails, or does not decide within the oracle, ends the
   * task with nothing sent and the ring untouched.
   */
  method StreamTask<T(0)>(ring: AudioBuffer.Ring<T>, deviceId: string, running: bool, clock: Clock, connect: Poll, streaming: Poll,
                          seen: seq<bool>, arrivals: seq<seq<seq<T>>>, closing: string, encode: seq<T> -> seq<Byte>)
    returns (msgs: seq<Message>, end: End)
    requires ring.Valid() && |arrivals| == |seen| && Fits(arrivals, ring.itemSize)
    modifies ring, ring.frames
    ensures ring.Valid()
    ensures !Decide(clock, connect.start, connect.probes, ConnectTimeout).Satisfied? ==>
              end == NoConnection && msgs == [] && ring.State() == old(ring.State())
    ensures Decide(clock, connect.start, connect.probes, ConnectTimeout).Satisfied?
            && !Decide(clock, streaming.start, streaming.probes, StreamingTimeout).Satisfied? ==>
              end == NoStartSignal && msgs == [] && ring.State() == old(ring.State())
    ensures Decide(clock, connect.start, connect.probes, ConnectTimeout).Satisfied?
            && Decide(clock, streaming.start, streaming.probes, StreamingTimeout).Satisfied? ==>
              var p := Passes(old(ring.State()), running, seen, arrivals);
              && end == LoopDone(p.stopped) && ring.State() == p.ring
              && msgs == Transcript(deviceId, p, closing, encode)
  {
    var w := WaitUntil(clock, connect.start, connect.probes, ConnectTimeout);
    if !w.Satisfied? {
      return [], NoConnection;
    }
    w := WaitUntil(clock, streaming.start, streaming.probes, StreamingTimeout);
    if !w.Satisfied? {
      return [], NoStartSignal;
    }
    var rest, stopped := StreamLoop(ring, running, seen, arrivals, closing, encode);
    msgs := [StartMessage(deviceId)] + rest;
    SeqFacts.AppendAssoc([StartMessage(deviceId)], Binaries(Passes(old(ring.State()), running, seen, arrivals).sent, encode),
                         if stopped then [Control(closing)] else []);
    end := LoopDone(stopped);
  }
}
