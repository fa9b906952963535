/**
 * Vocabulary shared by the two utterance detectors (AudioSession and
 * AfeSession): what the audio front end hands out per fetch, the detector's
 * local state, and the log of actions one fetch causes. The two detectors'
 * transition functions differ and live in their own modules.
 */
module Utterance {
  datatype Phase = Idle | Armed | Feeding

  /** The wake word engine's verdict for one fetched chunk. */
  datatype WakeState = WakeNoDetect | WakeDetected | WakeChannelVerified

  /** The voice activity detector's verdict for one fetched chunk. */
  datatype VadState = VadSilence | VadSpeech

  /**
   * One call of the front end's fetch: `FetchFailed` stands for both a null
   * result and a result whose return value is ESP_FAIL.
   */
  datatype Fetch<T> = FetchFailed | Fetched(wake: WakeState, vad: VadState, data: seq<T>)

  /** The detect task's local variables. */
  datatype Detector = Detector(phase: Phase, dropGuard: nat, silenceRun: nat)

  /** The detector's state when its task starts. */
  const Initial := Detector(Idle, 0, 0)

  /**
   * What a fetch causes, in order: the ring push, the wake word engine being
   * switched off or on, and the three lifecycle events (wake word detected,
   * speech started, silence reached).
   */
  datatype Action = Pushed | WakenetDisabled | WakenetEnabled | Detected | Started | Silenced

  predicate IsLifecycle(a: Action) {
    a.Detected? || a.Started? || a.Silenced?
  }

  /** The lifecycle events of a log, in order. */
  function Lifecycle(log: seq<Action>): (evs: seq<Action>)
    ensures |evs| <= |log|
  {
    if log == [] then []
    else (if IsLifecycle(log[0]) then [log[0]] else []) + Lifecycle(log[1..])
  }

  /** The lifecycle events of a log are exactly its entries that are lifecycle events. */
  lemma {:induction false} LifecycleMembers(log: seq<Action>, e: Action)
    ensures e in Lifecycle(log) <==> e in log && IsLifecycle(e)
  {
    if log != [] {
      LifecycleMembers(log[1..], e);
      assert log == [log[0]] + log[1..];
    }
  }

  lemma {:induction false} LifecycleAppend(a: seq<Action>, b: seq<Action>)
    ensures Lifecycle(a + b) == Lifecycle(a) + Lifecycle(b)
  {
    if a != [] {
      assert (a + b)[0] == a[0] && (a + b)[1..] == a[1..] + b;
      LifecycleAppend(a[1..], b);
    } else {
      assert a + b == b;
    }
  }

  /** The number of ring pushes in a log. */
  function Pushes(log: seq<Action>): (n: nat)
    ensures n <= |log|
  {
    if log == [] then 0 else (if log[0] == Pushed then 1 else 0) + Pushes(log[1..])
  }

  lemma {:induction false} PushesAppend(a: seq<Action>, b: seq<Action>)
    ensures Pushes(a + b) == Pushes(a) + Pushes(b)
  {
    if a != [] {
      assert (a + b)[0] == a[0] && (a + b)[1..] == a[1..] + b;
      PushesAppend(a[1..], b);
    } else {
      assert a + b == b;
    }
  }

  /** The lifecycle event that ends each phase. */
  function Due(p: Phase): (e: Action)
    ensures IsLifecycle(e)
  {
    match p
    case Idle => Detected
    case Armed => Started
    case Feeding => Silenced
  }

  /** The phase that follows each phase. */
  function After(p: Phase): (q: Phase)
    ensures q != p
  {
    match p
    case Idle => Armed
    case Armed => Feeding
    case Feeding => Idle
  }

  /** The phase reached from `p` after `n` phase changes. */
  function PhaseAfter(p: Phase, n: nat): Phase
  {
    if n == 0 then p else After(PhaseAfter(p, n - 1))
  }

  /**
   * `evs` is the cyclic sequence detect, start, silence, detect, ... begun at
   * the event due in phase `p`.
   */
  predicate Cyclic(p: Phase, evs: seq<Action>) {
    forall i :: 0 <= i < |evs| ==> evs[i] == Due(PhaseAfter(p, i))
  }

  /** Extending a cyclic sequence by the event due next keeps it cyclic. */
  lemma CyclicSnoc(p: Phase, evs: seq<Action>, e: Action)
    requires Cyclic(p, evs) && e == Due(PhaseAfter(p, |evs|))
    ensures Cyclic(p, evs + [e])
    ensures PhaseAfter(p, |evs + [e]|) == After(PhaseAfter(p, |evs|))
  {
    assert forall i :: 0 <= i < |evs| ==> (evs + [e])[i] == evs[i];
  }

  /** The data of the successful fetches, in fetch order. */
  function Frames<T>(fs: seq<Fetch<T>>): (frames: seq<seq<T>>)
    ensures |frames| <= |fs|
  {
    if fs == [] then []
    else Frames(fs[..|fs| - 1]) + (if fs[|fs| - 1].Fetched? then [fs[|fs| - 1].data] else [])
  }

  lemma FramesSnoc<T>(fs: seq<Fetch<T>>, f: Fetch<T>)
    ensures Frames(fs + [f]) == Frames(fs) + (if f.Fetched? then [f.data] else [])
  {
    assert (fs + [f])[..|fs|] == fs;
  }

  /** Every fetch in `fs` succeeded and reported `vad`. */
  predicate AllFetched<T>(fs: seq<Fetch<T>>, vad: VadState) {
    forall i :: 0 <= i < |fs| ==> fs[i].Fetched? && fs[i].vad == vad
  }

  /**
   * Whether the wake word engine is switched on after the toggles in `log`,
   * starting from `on`: the last toggle wins.
   */
  function WakenetAfter(on: bool, log: seq<Action>): (r: bool)
    ensures WakenetEnabled !in log && WakenetDisabled !in log ==> r == on
  {
    if log == [] then on
    else if log[|log| - 1] == WakenetEnabled then true
    else if log[|log| - 1] == WakenetDisabled then false
    else WakenetAfter(on, log[..|log| - 1])
  }

  lemma {:induction false} WakenetAfterAppend(on: bool, a: seq<Action>, b: seq<Action>)
    ensures WakenetAfter(on, a + b) == WakenetAfter(WakenetAfter(on, a), b)
    decreases |b|
  {
    if b == [] {
      assert a + b == a;
    } else {
      assert (a + b)[..|a + b| - 1] == a + b[..|b| - 1];
      WakenetAfterAppend(on, a, b[..|b| - 1]);
    }
  }

  /** Every fetch in `fs` succeeded. */
  predicate AllOk<T>(fs: seq<Fetch<T>>) {
    forall i :: 0 <= i < |fs| ==> fs[i].Fetched?
  }

  lemma {:induction false} FramesOfAllOk<T>(fs: seq<Fetch<T>>)
    requires AllOk(fs)
    ensures |Frames(fs)| == |fs|
  {
    if fs != [] {
      FramesOfAllOk(fs[..|fs| - 1]);
    }
  }

  lemma AllOkAppend<T>(a: seq<Fetch<T>>, b: seq<Fetch<T>>)
    requires AllOk(a) && AllOk(b)
    ensures AllOk(a + b)
  {
    forall i | 0 <= i < |a + b| ensures (a + b)[i].Fetched? {
      if i >= |a| { assert (a + b)[i] == b[i - |a|]; }
    }
  }
}
