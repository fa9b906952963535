/**
 * The detect task of `AfeSession` (main/AfeSession.cpp). It differs from
 * the AudioSession detector in three ways, kept apart here on purpose:
 * the first failed fetch ends the task, each silent frame adds 2 to the
 * silence run (so 20 silent frames end an utterance), and on the way back
 * to idle the wake word engine is re-enabled before the silence event.
 * Its ring holds bytes: each fetched chunk of 16-bit samples is pushed as
 * its little-endian byte image.
 */
module AfeSession {
  import opened Pcm
  import opened Utterance
  import RingSpec
  import AudioBuffer
  import SeqFacts

  const DropAfterVerifyFrames: nat := 3
  const SilenceFramesToIdle: nat := 40
  const RingCapacity: nat := 16

  /**
   * One iteration after a successful fetch: push, then the phase switch.
   * The phase only ever advances one step around the cycle, firing the
   * event due in the phase it leaves. `Task` never applies a step to a
   * failed fetch, which ends the loop; there `Step` is the identity.
   */
  function Step(d: Detector, f: Fetch<Sample>): (res: (Detector, seq<Action>))
    ensures f.FetchFailed? ==> res == (d, [])
    ensures f.Fetched? ==> |res.1| >= 1 && res.1[0] == Pushed && Pushes(res.1) == 1
    ensures res.0.phase == d.phase ==> res.1 == (if f.Fetched? then [Pushed] else [])
    ensures res.0.phase != d.phase ==> res.0.phase == After(d.phase) && Lifecycle(res.1) == [Due(d.phase)]
  {
    match f
    case FetchFailed => (d, [])
    case Fetched(wake, vad, _) =>
      match d.phase
      case Idle =>
        if wake == WakeChannelVerified then
          (Detector(Armed, DropAfterVerifyFrames, 0), [Pushed, WakenetDisabled, Detected])
        else (d, [Pushed])
      case Armed =>
        if d.dropGuard > 0 then (d.(dropGuard := d.dropGuard - 1), [Pushed])
        else if vad == VadSpeech then (d.(phase := Feeding, silenceRun := 0), [Pushed, Started])
        else (d, [Pushed])
      case Feeding =>
        if vad == VadSilence then
          var run := d.silenceRun + 2;
          if run >= SilenceFramesToIdle then (d.(phase := Idle, silenceRun := run), [Pushed, WakenetEnabled, Silenced])
          else (d.(silenceRun := run), [Pushed])
        else (d.(silenceRun := 0), [Pushed])
  }

  /** The transitions of each phase on a successful fetch. */
  lemma StepTransitions(d: Detector, f: Fetch<Sample>)
    requires f.Fetched?
    ensures d.phase == Idle ==> (Step(d, f).0.phase == Armed <==> f.wake == WakeChannelVerified)
    ensures d.phase == Idle && Step(d, f).0.phase == Armed ==> Step(d, f) == (Detector(Armed, DropAfterVerifyFrames, 0), [Pushed, WakenetDisabled, Detected])
    ensures d.phase == Armed ==> (Step(d, f).0.phase == Feeding <==> d.dropGuard == 0 && f.vad == VadSpeech)
    ensures d.phase == Armed && Step(d, f).0.phase == Feeding ==> Step(d, f) == (d.(phase := Feeding, silenceRun := 0), [Pushed, Started])
    ensures d.phase == Armed && Step(d, f).0.phase == Armed ==> Step(d, f).0 == (if d.dropGuard > 0 then d.(dropGuard := d.dropGuard - 1) else d)
    ensures d.phase == Feeding ==> Step(d, f).0.silenceRun == (if f.vad == VadSilence then d.silenceRun + 2 else 0)
    ensures d.phase == Feeding ==> (Step(d, f).0.phase == Idle <==> f.vad == VadSilence && d.silenceRun + 2 >= SilenceFramesToIdle)
    ensures d.phase == Feeding && Step(d, f).0.phase == Idle ==> Step(d, f).1 == [Pushed, WakenetEnabled, Silenced]
  {
  }

  /** The number of fetches the task processes: those before the first failure. */
  function FirstFailure(fs: seq<Fetch<Sample>>): (k: nat)
    ensures k <= |fs| && AllOk(fs[..k])
    ensures k < |fs| ==> fs[k].FetchFailed?
  {
    if fs == [] then 0
    else if fs[0].FetchFailed? then 0
    else
      var k := FirstFailure(fs[1..]);
      assert fs[..k + 1] == [fs[0]] + fs[1..][..k];
      AllOkAppend([fs[0]], fs[1..][..k]);
      k + 1
  }

  /** The loop over fetches: the final state and the whole log. */
  function Run(d: Detector, fs: seq<Fetch<Sample>>): (res: (Detector, seq<Action>))
    ensures Pushes(res.1) == |Frames(fs)|
  {
    if fs == [] then (d, [])
    else
      var p := Run(d, fs[..|fs| - 1]);
      var s := Step(p.0, fs[|fs| - 1]);
      PushesAppend(p.1, s.1);
      (s.0, p.1 + s.1)
  }

  /** The whole task: it processes the fetches up to the first failure and then returns. */
  function Task(fs: seq<Fetch<Sample>>): (res: (Detector, seq<Action>))
    ensures Pushes(res.1) == FirstFailure(fs)
  {
    FramesOfAllOk(fs[..FirstFailure(fs)]);
    Run(Initial, fs[..FirstFailure(fs)])
  }

  /** The byte images of a sequence of chunks, in order. */
  function EncodeAll(frames: seq<seq<Sample>>): (items: seq<seq<Byte>>)
    ensures |items| == |frames|
  {
    if frames == [] then [] else EncodeAll(frames[..|frames| - 1]) + [Encode(frames[|frames| - 1])]
  }

  /** The image at each position is that chunk's, and decodes back to it. */
  lemma {:induction false} EncodeAllDecodes(frames: seq<seq<Sample>>, i: nat)
    requires i < |frames|
    ensures EncodeAll(frames)[i] == Encode(frames[i])
    ensures Decode(EncodeAll(frames)[i]) == frames[i]
    decreases |frames|
  {
    if i < |frames| - 1 {
      EncodeAllDecodes(frames[..|frames| - 1], i);
    } else {
      DecodeEncode(frames[i]);
    }
  }

  /** The bytes the task pushes into the ring: one image per processed chunk. */
  function PushedBytes(fs: seq<Fetch<Sample>>): (items: seq<seq<Byte>>)
    ensures |items| == FirstFailure(fs)
  {
    FramesOfAllOk(fs[..FirstFailure(fs)]);
    EncodeAll(Frames(fs[..FirstFailure(fs)]))
  }

  lemma RunSnoc(d: Detector, fs: seq<Fetch<Sample>>, f: Fetch<Sample>)
    ensures Run(d, fs + [f]) == (Step(Run(d, fs).0, f).0, Run(d, fs).1 + Step(Run(d, fs).0, f).1)
  {
    SeqFacts.SnocParts(fs, f);
  }

  lemma {:induction false} RunAppend(d: Detector, a: seq<Fetch<Sample>>, b: seq<Fetch<Sample>>)
    ensures Run(d, a + b) == (Run(Run(d, a).0, b).0, Run(d, a).1 + Run(Run(d, a).0, b).1)
    decreases |b|
  {
    var x := Run(d, a);
    if b == [] {
      SeqFacts.AppendEmpty(a);
      SeqFacts.AppendEmpty(x.1);
    } else {
      var b', f := b[..|b| - 1], b[|b| - 1];
      var y := Run(x.0, b');
      var s := Step(y.0, f);
      SeqFacts.SnocSplit(b);
      SeqFacts.AppendAssoc(a, b', [f]);
      RunSnoc(d, a + b', f);
      RunAppend(d, a, b');
      SeqFacts.AppendAssoc(x.1, y.1, s.1);
      RunSnoc(x.0, b', f);
    }
  }

  /** A run split in two: the state threads through, the lifecycle events concatenate. */
  lemma RunThrough(d: Detector, a: seq<Fetch<Sample>>, b: seq<Fetch<Sample>>)
    ensures Run(d, a + b).0 == Run(Run(d, a).0, b).0
    ensures Lifecycle(Run(d, a + b).1) == Lifecycle(Run(d, a).1) + Lifecycle(Run(Run(d, a).0, b).1)
  {
    RunAppend(d, a, b);
    LifecycleAppend(Run(d, a).1, Run(Run(d, a).0, b).1);
  }

  /** No failure before `j` means the task gets at least as far as `j`. */
  lemma {:induction false} ProcessedAtLeast(fs: seq<Fetch<Sample>>, j: nat)
    requires j <= |fs| && AllOk(fs[..j])
    ensures FirstFailure(fs) >= j
  {
    if j > 0 {
      assert fs[..j][0] == fs[0];
      assert fs[1..][..j - 1] == fs[..j][1..];
      ProcessedAtLeast(fs[1..], j - 1);
    }
  }

  /** A failure at `j` means the task stops at `j` at the latest. */
  lemma {:induction false} ProcessedAtMost(fs: seq<Fetch<Sample>>, j: nat)
    requires j < |fs| && fs[j].FetchFailed?
    ensures FirstFailure(fs) <= j
  {
    if fs[0].Fetched? {
      assert fs[1..][j - 1] == fs[j];
      ProcessedAtMost(fs[1..], j - 1);
    }
  }

  /** A failure ends the task: whatever is fetched after it is never processed. */
  lemma StopsAtFailure(fs: seq<Fetch<Sample>>, rest: seq<Fetch<Sample>>)
    requires AllOk(fs)
    ensures Task(fs + [FetchFailed] + rest) == Run(Initial, fs)
  {
    var all := fs + [FetchFailed] + rest;
    assert all[..|fs|] == fs;
    assert all[|fs|] == FetchFailed;
    ProcessedAtLeast(all, |fs|);
    ProcessedAtMost(all, |fs|);
  }

  /** Without a failure the task processes every fetch. */
  lemma NoFailureRunsAll(fs: seq<Fetch<Sample>>)
    requires AllOk(fs)
    ensures Task(fs) == Run(Initial, fs)
  {
    assert fs[..|fs|] == fs;
    ProcessedAtLeast(fs, |fs|);
    var k := FirstFailure(fs);
    assert k == |fs|;
    assert fs[..k] == fs;
  }

  /**
   * The counters stay in range: the guard never exceeds 3, and while
   * feeding the silence run is even and below 40.
   */
  ghost predicate Inv(d: Detector) {
    (d.phase == Armed ==> d.dropGuard <= DropAfterVerifyFrames)
    && (d.phase == Feeding ==> d.silenceRun < SilenceFramesToIdle && d.silenceRun % 2 == 0)
  }

  lemma {:induction false} RunKeepsInv(d: Detector, fs: seq<Fetch<Sample>>)
    requires Inv(d)
    ensures Inv(Run(d, fs).0)
    decreases |fs|
  {
    if fs != [] {
      var f := fs[|fs| - 1];
      RunKeepsInv(d, fs[..|fs| - 1]);
      if f.Fetched? {
        StepTransitions(Run(d, fs[..|fs| - 1]).0, f);
      }
    }
  }

  /**
   * Lifecycle events come in the cyclic order detect, start, silence,
   * starting with the event due in the initial phase, and the final phase is
   * the one that many events later.
   */
  lemma {:induction false} RunCyclic(d: Detector, fs: seq<Fetch<Sample>>)
    ensures Cyclic(d.phase, Lifecycle(Run(d, fs).1))
    ensures Run(d, fs).0.phase == PhaseAfter(d.phase, |Lifecycle(Run(d, fs).1)|)
    decreases |fs|
  {
    if fs != [] {
      var p := Run(d, fs[..|fs| - 1]);
      var s := Step(p.0, fs[|fs| - 1]);
      RunCyclic(d, fs[..|fs| - 1]);
      LifecycleAppend(p.1, s.1);
      if s.0.phase == p.0.phase {
        SeqFacts.AppendEmpty(Lifecycle(p.1));
      } else {
        CyclicSnoc(d.phase, Lifecycle(p.1), Due(p.0.phase));
      }
    }
  }

  /**
   * A step's effect on the wake word engine: it is switched off on arming,
   * back on on returning to idle, and left alone otherwise.
   */
  lemma StepWakenet(d: Detector, f: Fetch<Sample>, on: bool)
    ensures var s := Step(d, f);
            WakenetAfter(on, s.1) == if s.0.phase == d.phase || s.0.phase == Feeding then on else s.0.phase == Idle
  {
    var s := Step(d, f);
    if s.1 == [Pushed, WakenetDisabled, Detected] {
      assert s.1[..2] == [Pushed, WakenetDisabled];
    } else if s.1 == [Pushed, WakenetEnabled, Silenced] {
      assert s.1[..2] == [Pushed, WakenetEnabled];
    } else if s.1 == [Pushed, Started] {
      assert s.1[..1] == [Pushed];
    }
  }

  /** The wake word engine is switched on exactly while idle. */
  lemma {:induction false} WakenetOnlyWhileIdle(d: Detector, fs: seq<Fetch<Sample>>)
    ensures WakenetAfter(d.phase == Idle, Run(d, fs).1) <==> Run(d, fs).0.phase == Idle
    decreases |fs|
  {
    if fs != [] {
      var f := fs[|fs| - 1];
      var p := Run(d, fs[..|fs| - 1]);
      WakenetOnlyWhileIdle(d, fs[..|fs| - 1]);
      StepWakenet(p.0, f, WakenetAfter(d.phase == Idle, p.1));
      WakenetAfterAppend(d.phase == Idle, p.1, Step(p.0, f).1);
    }
  }

  /** While the guard lasts, frames only count it down; no event fires. */
  lemma {:induction false} GuardHoldsArmed(g: nat, r: nat, fs: seq<Fetch<Sample>>)
    requires AllOk(fs) && |fs| <= g
    ensures Run(Detector(Armed, g, r), fs).0 == Detector(Armed, g - |fs|, r)
    ensures Lifecycle(Run(Detector(Armed, g, r), fs).1) == []
    decreases |fs|
  {
    if fs != [] {
      var d := Detector(Armed, g, r);
      var p := Run(d, fs[..|fs| - 1]);
      var s := Step(p.0, fs[|fs| - 1]);
      GuardHoldsArmed(g, r, fs[..|fs| - 1]);
      StepTransitions(p.0, fs[|fs| - 1]);
      LifecycleAppend(p.1, s.1);
    }
  }

  /** The start event is not reported before the fourth frame after the verifying one. */
  lemma NoStartDuringGuard(d: Detector, f: Fetch<Sample>, fs: seq<Fetch<Sample>>)
    requires d.phase == Idle && f.Fetched? && f.wake == WakeChannelVerified
    requires AllOk(fs) && |fs| <= DropAfterVerifyFrames
    ensures Started !in Run(Step(d, f).0, fs).1
    ensures Run(Step(d, f).0, fs).0.phase == Armed
  {
    GuardHoldsArmed(DropAfterVerifyFrames, 0, fs);
    StepTransitions(d, f);
    LifecycleMembers(Run(Step(d, f).0, fs).1, Started);
  }

  /** Silent frames short of the threshold only lengthen the silence run, by 2 each. */
  lemma {:induction false} SilenceKeepsFeeding(d: Detector, fs: seq<Fetch<Sample>>)
    requires d.phase == Feeding && AllFetched(fs, VadSilence)
    requires d.silenceRun + 2 * |fs| < SilenceFramesToIdle
    ensures Run(d, fs).0 == d.(silenceRun := d.silenceRun + 2 * |fs|)
    ensures Lifecycle(Run(d, fs).1) == []
    decreases |fs|
  {
    if fs != [] {
      SilenceKeepsFeeding(d, fs[..|fs| - 1]);
      var p := Run(d, fs[..|fs| - 1]);
      var s := Step(p.0, fs[|fs| - 1]);
      StepTransitions(p.0, fs[|fs| - 1]);
      LifecycleAppend(p.1, s.1);
    }
  }

  /**
   * From the start of feeding, 20 silent frames (not 40) return the machine
   * to idle; the silence event fires on the twentieth only.
   */
  lemma TwentySilentFramesEndFeeding(d: Detector, fs: seq<Fetch<Sample>>)
    requires d.phase == Feeding && d.silenceRun == 0
    requires AllFetched(fs, VadSilence) && |fs| == SilenceFramesToIdle / 2
    ensures Lifecycle(Run(d, fs[..|fs| - 1]).1) == []
    ensures Run(d, fs).0.phase == Idle
    ensures Lifecycle(Run(d, fs).1) == [Silenced]
  {
    SilenceKeepsFeeding(d, fs[..|fs| - 1]);
    var p := Run(d, fs[..|fs| - 1]);
    var s := Step(p.0, fs[|fs| - 1]);
    StepTransitions(p.0, fs[|fs| - 1]);
    LifecycleAppend(p.1, s.1);
  }

  /** One more successful fetch extends the run by one step and the pushed bytes by its image. */
  lemma ProcessOne(fs: seq<Fetch<Sample>>, i: nat)
    requires i < |fs| && fs[i].Fetched?
    ensures Run(Initial, fs[..i + 1]) == (Step(Run(Initial, fs[..i]).0, fs[i]).0, Run(Initial, fs[..i]).1 + Step(Run(Initial, fs[..i]).0, fs[i]).1)
    ensures EncodeAll(Frames(fs[..i + 1])) == EncodeAll(Frames(fs[..i])) + [Encode(fs[i].data)]
  {
    SeqFacts.TakeSnoc(fs, i);
    RunSnoc(Initial, fs[..i], fs[i]);
    FramesSnoc(fs[..i], fs[i]);
    SeqFacts.SnocParts(Frames(fs[..i]), fs[i].data);
  }

  /**
   * The session object as far as the detect task sees it: the feed buffer
   * sized in the constructor and the ring of 16 chunks of
   * fetch-channels times fetch-chunksize 16-bit samples, held as bytes.
   */
  class Session {
    var buffer: seq<Sample>
    const ring: AudioBuffer.Ring<Byte>

    ghost predicate Valid()
      reads this, ring, ring.frames
    {
      ring.Valid() && ring.capacity == RingCapacity
    }

    constructor (feedChannels: nat, feedChunksize: nat, fetchChannels: nat, fetchChunksize: nat)
      ensures Valid() && fresh(ring) && fresh(ring.frames)
      ensures |buffer| == feedChannels * feedChunksize
      ensures ring.itemSize == fetchChannels * fetchChunksize * 2
      ensures ring.Contents() == [] && ring.GetStats() == AudioBuffer.Stats(0, 0, 0, RingCapacity, 0)
    {
      buffer := seq(feedChannels * feedChunksize, _ => 0);
      ring := new AudioBuffer.Ring(RingCapacity, fetchChannels * fetchChunksize * 2);
    }

    /**
     * The detect task: it processes fetches until the first failure, at
     * which point it returns; each processed chunk's bytes are pushed into
     * the ring before the phase switch.
     */
    method DetectTask(fetches: seq<Fetch<Sample>>) returns (final: Detector, log: seq<Action>)
      requires Valid()
      requires forall i :: 0 <= i < |fetches| && fetches[i].Fetched? ==> 2 * |fetches[i].data| == ring.itemSize
      modifies ring, ring.frames
      ensures Valid()
      ensures (final, log) == Task(fetches)
      ensures ring.State() == RingSpec.PushAll(old(ring.State()), PushedBytes(fetches))
    {
      final, log := Initial, [];
      var i := 0;
      while i < |fetches|
        invariant 0 <= i <= FirstFailure(fetches) && Valid()
        invariant (final, log) == Run(Initial, fetches[..i])
        invariant ring.State() == RingSpec.PushAll(old(ring.State()), EncodeAll(Frames(fetches[..i])))
      {
        var f := fetches[i];
        if f.FetchFailed? {
          ProcessedAtMost(fetches, i);
          break;
        }
        ProcessOne(fetches, i);
        RingSpec.PushAllSnoc(old(ring.State()), EncodeAll(Frames(fetches[..i])), Encode(f.data));
        ring.Push(Encode(f.data));
        var s := Step(final, f);
        final, log := s.0, log + s.1;
        i := i + 1;
      }
    }
  }
}
