/**
 * The detect task of `AudioSession` (main/AudioSession.cpp): it fetches
 * processed chunks from the audio front end, pushes every successful chunk
 * into the 16-frame ring of 16-bit samples, and runs the idle / armed /
 * feeding phase machine that fires the detect, speech and silence events
 * and switches the wake word engine off and on.
 *
 * `Step` is one iteration of the task's loop; `Run` is the loop over a
 * sequence of fetches; `Session.DetectTask` is the loop itself, pushing into
 * the ring, proved to act as `Run` and `RingSpec.PushAll`.
 */
module AudioSession {
  import opened Pcm
  import opened Utterance
  import RingSpec
  import AudioBuffer
  import SeqFacts

  const DropAfterVerifyFrames: nat := 3
  const SilenceFramesToIdle: nat := 40
  const RingCapacity: nat := 16

  /**
   * One iteration: a failed fetch is skipped and the loop goes on; a
   * successful one is pushed first and then drives the phase switch. The
   * phase only ever advances one step around the cycle, firing the event
   * due in the phase it leaves.
   */
  function Step(d: Detector, f: Fetch<Sample>): (res: (Detector, seq<Action>))
    ensures f.FetchFailed? ==> res == (d, [])
    ensures f.Fetched? ==> |res.1| >= 1 && res.1[0] == Pushed && Pushes(res.1) == 1
    ensures res.0.phase == d.phase ==> res.1 == (if f.Fetched? then [Pushed] else [])
    ensures res.0.phase != d.phase ==> res.0.phase == After(d.phase) && Lifecycle(res.1) == [Due(d.phase)]
  {
    match f
    case FetchFailed => (d, [])
    case Fetched(wake, vad, _) =>
      match d.phase
      case Idle =>
        if wake == WakeChannelVerified then
          (Detector(Armed, DropAfterVerifyFrames, 0), [Pushed, WakenetDisabled, Detected])
        else (d, [Pushed])
      case Armed =>
        if d.dropGuard > 0 then (d.(dropGuard := d.dropGuard - 1), [Pushed])
        else if vad == VadSpeech then (d.(phase := Feeding, silenceRun := 0), [Pushed, Started])
        else (d, [Pushed])
      case Feeding =>
        if vad == VadSilence then
          var run := d.silenceRun + 1;
          if run >= SilenceFramesToIdle then (d.(phase := Idle, silenceRun := run), [Pushed, Silenced, WakenetEnabled])
          else (d.(silenceRun := run), [Pushed])
        else (d.(silenceRun := 0), [Pushed])
  }

  /** The transitions of each phase. */
  lemma StepTransitions(d: Detector, f: Fetch<Sample>)
    ensures d.phase == Idle ==> (Step(d, f).0.phase == Armed <==> f.Fetched? && f.wake == WakeChannelVerified)
    ensures d.phase == Idle && Step(d, f).0.phase == Armed ==> Step(d, f) == (Detector(Armed, DropAfterVerifyFrames, 0), [Pushed, WakenetDisabled, Detected])
    ensures d.phase == Armed ==> (Step(d, f).0.phase == Feeding <==> f.Fetched? && d.dropGuard == 0 && f.vad == VadSpeech)
    ensures d.phase == Armed && Step(d, f).0.phase == Feeding ==> Step(d, f) == (d.(phase := Feeding, silenceRun := 0), [Pushed, Started])
    ensures d.phase == Armed && Step(d, f).0.phase == Armed ==> Step(d, f).0 == (if f.Fetched? && d.dropGuard > 0 then d.(dropGuard := d.dropGuard - 1) else d)
    ensures d.phase == Feeding && f.Fetched? ==> Step(d, f).0.silenceRun == (if f.vad == VadSilence then d.silenceRun + 1 else 0)
    ensures d.phase == Feeding ==> (Step(d, f).0.phase == Idle <==> f.Fetched? && f.vad == VadSilence && d.silenceRun + 1 >= SilenceFramesToIdle)
    ensures d.phase == Feeding && Step(d, f).0.phase == Idle ==> Step(d, f).1 == [Pushed, Silenced, WakenetEnabled]
  {
  }

  /** The loop over a sequence of fetches: the final state and the whole log. */
  function Run(d: Detector, fs: seq<Fetch<Sample>>): (res: (Detector, seq<Action>))
    ensures Pushes(res.1) == |Frames(fs)|
  {
    if fs == [] then (d, [])
    else
      var p := Run(d, fs[..|fs| - 1]);
      var s := Step(p.0, fs[|fs| - 1]);
      PushesAppend(p.1, s.1);
      (s.0, p.1 + s.1)
  }

  lemma RunSnoc(d: Detector, fs: seq<Fetch<Sample>>, f: Fetch<Sample>)
    ensures Run(d, fs + [f]) == (Step(Run(d, fs).0, f).0, Run(d, fs).1 + Step(Run(d, fs).0, f).1)
  {
    SeqFacts.SnocParts(fs, f);
  }

  lemma {:induction false} RunAppend(d: Detector, a: seq<Fetch<Sample>>, b: seq<Fetch<Sample>>)
    ensures Run(d, a + b) == (Run(Run(d, a).0, b).0, Run(d, a).1 + Run(Run(d, a).0, b).1)
    decreases |b|
  {
    var x := Run(d, a);
    if b == [] {
      SeqFacts.AppendEmpty(a);
      SeqFacts.AppendEmpty(x.1);
    } else {
      var b', f := b[..|b| - 1], b[|b| - 1];
      var y := Run(x.0, b');
      var s := Step(y.0, f);
      SeqFacts.SnocSplit(b);
      SeqFacts.AppendAssoc(a, b', [f]);
      RunSnoc(d, a + b', f);
      RunAppend(d, a, b');
      SeqFacts.AppendAssoc(x.1, y.1, s.1);
      RunSnoc(x.0, b', f);
    }
  }

  /** The counters stay in range: the guard never exceeds 3, and feeding never holds 40 silent frames. */
  ghost predicate Inv(d: Detector) {
    (d.phase == Armed ==> d.dropGuard <= DropAfterVerifyFrames)
    && (d.phase == Feeding ==> d.silenceRun < SilenceFramesToIdle)
  }

  lemma {:induction false} RunKeepsInv(d: Detector, fs: seq<Fetch<Sample>>)
    requires Inv(d)
    ensures Inv(Run(d, fs).0)
    decreases |fs|
  {
    if fs != [] {
      RunKeepsInv(d, fs[..|fs| - 1]);
      StepTransitions(Run(d, fs[..|fs| - 1]).0, fs[|fs| - 1]);
    }
  }

  /**
   * Lifecycle events come in the cyclic order detect, speech, silence,
   * starting with the event due in the initial phase, and the final phase is
   * the one that many events later.
   */
  lemma {:induction false} RunCyclic(d: Detector, fs: seq<Fetch<Sample>>)
    ensures Cyclic(d.phase, Lifecycle(Run(d, fs).1))
    ensures Run(d, fs).0.phase == PhaseAfter(d.phase, |Lifecycle(Run(d, fs).1)|)
    decreases |fs|
  {
    if fs != [] {
      var p := Run(d, fs[..|fs| - 1]);
      var s := Step(p.0, fs[|fs| - 1]);
      RunCyclic(d, fs[..|fs| - 1]);
      LifecycleAppend(p.1, s.1);
      if s.0.phase == p.0.phase {
        SeqFacts.AppendEmpty(Lifecycle(p.1));
      } else {
        CyclicSnoc(d.phase, Lifecycle(p.1), Due(p.0.phase));
      }
    }
  }

  /**
   * A step's effect on the wake word engine: it is switched off on arming,
   * back on on returning to idle, and left alone otherwise.
   */
  lemma StepWakenet(d: Detector, f: Fetch<Sample>, on: bool)
    ensures var s := Step(d, f);
            WakenetAfter(on, s.1) == if s.0.phase == d.phase || s.0.phase == Feeding then on else s.0.phase == Idle
  {
    var s := Step(d, f);
    if s.1 == [Pushed, WakenetDisabled, Detected] {
      assert s.1[..2] == [Pushed, WakenetDisabled];
    } else if s.1 == [Pushed, Started] {
      assert s.1[..1] == [Pushed];
    }
  }

  /**
   * The wake word engine is switched on exactly while idle: starting idle
   * with the engine on (or in another phase with it off), every log leaves
   * it on iff the final phase is idle.
   */
  lemma {:induction false} WakenetOnlyWhileIdle(d: Detector, fs: seq<Fetch<Sample>>)
    ensures WakenetAfter(d.phase == Idle, Run(d, fs).1) <==> Run(d, fs).0.phase == Idle
    decreases |fs|
  {
    if fs != [] {
      var f := fs[|fs| - 1];
      var p := Run(d, fs[..|fs| - 1]);
      WakenetOnlyWhileIdle(d, fs[..|fs| - 1]);
      StepWakenet(p.0, f, WakenetAfter(d.phase == Idle, p.1));
      WakenetAfterAppend(d.phase == Idle, p.1, Step(p.0, f).1);
    }
  }

  /** While the guard lasts, successful frames only count it down; no event fires. */
  lemma {:induction false} GuardHoldsArmed(g: nat, r: nat, fs: seq<Fetch<Sample>>)
    requires |Frames(fs)| <= g
    ensures Run(Detector(Armed, g, r), fs).0 == Detector(Armed, g - |Frames(fs)|, r)
    ensures Lifecycle(Run(Detector(Armed, g, r), fs).1) == []
    decreases |fs|
  {
    if fs != [] {
      var d := Detector(Armed, g, r);
      var p := Run(d, fs[..|fs| - 1]);
      var s := Step(p.0, fs[|fs| - 1]);
      GuardHoldsArmed(g, r, fs[..|fs| - 1]);
      StepTransitions(p.0, fs[|fs| - 1]);
      LifecycleAppend(p.1, s.1);
    }
  }

  /**
   * After the verifying frame, speech is reported no earlier than on the
   * fourth successful frame: the three guarded frames are never examined.
   */
  lemma NoSpeechDuringGuard(d: Detector, f: Fetch<Sample>, fs: seq<Fetch<Sample>>)
    requires d.phase == Idle && f.Fetched? && f.wake == WakeChannelVerified
    requires |Frames(fs)| <= DropAfterVerifyFrames
    ensures Started !in Run(Step(d, f).0, fs).1
    ensures Run(Step(d, f).0, fs).0.phase == Armed
  {
    GuardHoldsArmed(DropAfterVerifyFrames, 0, fs);
    StepTransitions(d, f);
    LifecycleMembers(Run(Step(d, f).0, fs).1, Started);
  }

  /** Silent frames short of the threshold only lengthen the silence run. */
  lemma {:induction false} SilenceKeepsFeeding(d: Detector, fs: seq<Fetch<Sample>>)
    requires d.phase == Feeding && AllFetched(fs, VadSilence)
    requires d.silenceRun + |fs| < SilenceFramesToIdle
    ensures Run(d, fs).0 == d.(silenceRun := d.silenceRun + |fs|)
    ensures Lifecycle(Run(d, fs).1) == []
    decreases |fs|
  {
    if fs != [] {
      var p := Run(d, fs[..|fs| - 1]);
      var s := Step(p.0, fs[|fs| - 1]);
      SilenceKeepsFeeding(d, fs[..|fs| - 1]);
      StepTransitions(p.0, fs[|fs| - 1]);
      LifecycleAppend(p.1, s.1);
    }
  }

  /**
   * From feeding, exactly 40 - silenceRun further silent frames return the
   * machine to idle; the silence event fires on the last of them only.
   */
  lemma SilenceEndsFeeding(d: Detector, fs: seq<Fetch<Sample>>)
    requires d.phase == Feeding && d.silenceRun < SilenceFramesToIdle
    requires AllFetched(fs, VadSilence) && |fs| == SilenceFramesToIdle - d.silenceRun
    ensures Lifecycle(Run(d, fs[..|fs| - 1]).1) == []
    ensures Run(d, fs).0.phase == Idle
    ensures Lifecycle(Run(d, fs).1) == [Silenced]
  {
    var p := Run(d, fs[..|fs| - 1]);
    SilenceKeepsFeeding(d, fs[..|fs| - 1]);
    var s := Step(p.0, fs[|fs| - 1]);
    StepTransitions(p.0, fs[|fs| - 1]);
    LifecycleAppend(p.1, s.1);
  }

  /** A run split in two: the state threads through, the lifecycle events concatenate. */
  lemma RunThrough(d: Detector, a: seq<Fetch<Sample>>, b: seq<Fetch<Sample>>)
    ensures Run(d, a + b).0 == Run(Run(d, a).0, b).0
    ensures Lifecycle(Run(d, a + b).1) == Lifecycle(Run(d, a).1) + Lifecycle(Run(Run(d, a).0, b).1)
  {
    RunAppend(d, a, b);
    LifecycleAppend(Run(d, a).1, Run(Run(d, a).0, b).1);
  }

  lemma RunOne(d: Detector, f: Fetch<Sample>)
    ensures Run(d, [f]) == Step(d, f)
  {
    RunSnoc(d, [], f);
    SeqFacts.AppendEmpty([f]);
    SeqFacts.AppendEmpty(Step(d, f).1);
  }

  lemma ArmThenGuard(d: Detector, v: Fetch<Sample>, guard: seq<Fetch<Sample>>)
    requires d.phase == Idle && v.Fetched? && v.wake == WakeChannelVerified
    requires |guard| == DropAfterVerifyFrames && AllOk(guard)
    ensures Run(d, [v] + guard).0 == Detector(Armed, 0, 0)
    ensures Lifecycle(Run(d, [v] + guard).1) == [Detected]
  {
    RunOne(d, v);
    StepTransitions(d, v);
    FramesOfAllOk(guard);
    GuardHoldsArmed(DropAfterVerifyFrames, 0, guard);
    RunThrough(d, [v], guard);
  }

  lemma SpeechThenSilence(speech: Fetch<Sample>, silence: seq<Fetch<Sample>>)
    requires speech.Fetched? && speech.vad == VadSpeech
    requires AllFetched(silence, VadSilence) && |silence| == SilenceFramesToIdle
    ensures Run(Detector(Armed, 0, 0), [speech] + silence).0.phase == Idle
    ensures Lifecycle(Run(Detector(Armed, 0, 0), [speech] + silence).1) == [Started, Silenced]
  {
    var x := Detector(Armed, 0, 0);
    RunOne(x, speech);
    assert Step(x, speech).0 == Detector(Feeding, 0, 0);
    SilenceEndsFeeding(Detector(Feeding, 0, 0), silence);
    RunThrough(x, [speech], silence);
  }

  /**
   * A whole utterance: the verified frame, any three frames, a speech frame
   * and 40 silent frames take the idle machine around the cycle once,
   * pushing every frame.
   */
  lemma FullUtterance(d: Detector, v: Fetch<Sample>, guard: seq<Fetch<Sample>>,
                      speech: Fetch<Sample>, silence: seq<Fetch<Sample>>)
    requires d.phase == Idle && v.Fetched? && v.wake == WakeChannelVerified
    requires |guard| == DropAfterVerifyFrames && AllOk(guard)
    requires speech.Fetched? && speech.vad == VadSpeech
    requires AllFetched(silence, VadSilence) && |silence| == SilenceFramesToIdle
    ensures Run(d, [v] + guard + [speech] + silence).0.phase == Idle
    ensures Lifecycle(Run(d, [v] + guard + [speech] + silence).1) == [Detected, Started, Silenced]
  {
    SeqFacts.AppendAssoc([v] + guard, [speech], silence);
    ArmThenGuard(d, v, guard);
    SpeechThenSilence(speech, silence);
    RunThrough(d, [v] + guard, [speech] + silence);
  }

  /** One more fetch extends the run by one step and the pushed frames by its data, if any. */
  lemma ProcessOne(fs: seq<Fetch<Sample>>, i: nat)
    requires i < |fs|
    ensures Run(Initial, fs[..i + 1]) == (Step(Run(Initial, fs[..i]).0, fs[i]).0, Run(Initial, fs[..i]).1 + Step(Run(Initial, fs[..i]).0, fs[i]).1)
    ensures fs[i].Fetched? ==> Frames(fs[..i + 1]) == Frames(fs[..i]) + [fs[i].data]
    ensures fs[i].FetchFailed? ==> Frames(fs[..i + 1]) == Frames(fs[..i])
  {
    SeqFacts.TakeSnoc(fs, i);
    RunSnoc(Initial, fs[..i], fs[i]);
    FramesSnoc(fs[..i], fs[i]);
    SeqFacts.AppendEmpty(Frames(fs[..i]));
  }

  /**
   * The session object as far as the detect task sees it: the ring the
   * task pushes into, 16 frames of fetch-channels times fetch-chunksize
   * samples.
   */
  class Session {
    const ring: AudioBuffer.Ring<Sample>

    ghost predicate Valid()
      reads this, ring, ring.frames
    {
      ring.Valid() && ring.capacity == RingCapacity
    }

    constructor (fetchChannelNum: nat, fetchChunksize: nat)
      ensures Valid() && fresh(ring) && fresh(ring.frames)
      ensures ring.itemSize == fetchChannelNum * fetchChunksize
      ensures ring.Contents() == [] && ring.GetStats() == AudioBuffer.Stats(0, 0, 0, RingCapacity, 0)
    {
      ring := new AudioBuffer.Ring(RingCapacity, fetchChannelNum * fetchChunksize);
    }

    /**
     * The detect task over the fetches made while the session runs: every
     * successful chunk is pushed into the ring, in fetch order, and the
     * phase machine produces the log of `Run`.
     */
    method DetectTask(fetches: seq<Fetch<Sample>>) returns (final: Detector, log: seq<Action>)
      requires Valid()
      requires forall i :: 0 <= i < |fetches| && fetches[i].Fetched? ==> |fetches[i].data| == ring.itemSize
      modifies ring, ring.frames
      ensures Valid()
      ensures (final, log) == Run(Initial, fetches)
      ensures ring.State() == RingSpec.PushAll(old(ring.State()), Frames(fetches))
    {
      final, log := Initial, [];
      var i := 0;
      while i < |fetches|
        invariant 0 <= i <= |fetches| && Valid()
        invariant (final, log) == Run(Initial, fetches[..i])
        invariant ring.State() == RingSpec.PushAll(old(ring.State()), Frames(fetches[..i]))
      {
        var f := fetches[i];
        ProcessOne(fetches, i);
        if f.Fetched? {
          RingSpec.PushAllSnoc(old(ring.State()), Frames(fetches[..i]), f.data);
          ring.Push(f.data);
        }
        var s := Step(final, f);
        final, log := s.0, log + s.1;
        i := i + 1;
      }
      SeqFacts.TakeAll(fetches);
    }
  }
}
