/**
 * The `WsStreamer` class of main/wstreamer.cpp itself: its fields, updated
 * in place by the event hooks, the loop and the client/timer callbacks.
 * Each method moves `State()` exactly as the function of the same name in
 * `KeepAliveSpec`, where the properties are proved.
 */
module KeepAliveStreamer {
  import opened Wrappers
  import opened Time
  import opened Pcm
  import RingSpec
  import SeqFacts
  import Spec = KeepAliveSpec
  import opened KeepAliveSpec

  /** The component: the state of `KeepAliveSpec.Ws` held in fields that the callbacks update in place. */
  class Streamer {
    const opt: Options
    var hasClient: bool
    var hbTimer: bool
    var retryTimer: bool
    var streaming: bool
    var armed: bool
    var bytesInflight: nat
    var starting: bool
    var pingInflight: bool
    var missedPongs: U32
    var ring: seq<Frame>
    var calls: seq<Call>

    function State(): Ws
      reads this
    {
      Ws(hasClient, hbTimer, retryTimer, streaming, armed, bytesInflight, starting, pingInflight, missedPongs, ring, calls)
    }

    /** Nothing is ever left in flight: every send takes back what it added. */
    predicate Valid()
      reads this
    {
      bytesInflight == 0
    }

    constructor (opt: Options, ring: seq<Frame>)
      ensures Valid() && this.opt == opt && State() == Initial(ring)
    {
      this.opt := opt;
      hasClient, hbTimer, retryTimer := false, false, false;
      streaming, armed := false, false;
      bytesInflight := 0;
      starting, pingInflight := false, false;
      missedPongs := 0;
      this.ring := ring;
      calls := [];
    }

    /** `is_connected()`. */
    function Connected(link: bool): (c: bool)
      reads this
      ensures c == IsConnected(State(), link)
    {
      hasClient && link
    }

    method EnsureClient()
      modifies this
      ensures State() == Spec.EnsureClient(old(State()), opt)
    {
      if hasClient {
        return;
      }
      calls := calls + [ClientInit(Uri(opt)), RegisterEvents];
      hasClient := true;
    }

    method EnsureTimers()
      modifies this
      ensures State() == Spec.EnsureTimers(old(State()))
    {
      if !hbTimer {
        calls := calls + [HbTimerCreate];
        hbTimer := true;
      }
      if !retryTimer {
        calls := calls + [RetryTimerCreate];
        retryTimer := true;
      }
    }

    method StartClientIfNeeded(link: bool)
      modifies this
      ensures State() == Spec.StartClientIfNeeded(old(State()), opt, link)
    {
      if !hasClient {
        EnsureClient();
      }
      if !Connected(link) && !starting {
        starting := true;
        calls := calls + [ClientStart];
      }
    }

    method StopClient()
      modifies this
      ensures State() == Spec.StopClient(old(State()))
    {
      if hasClient {
        calls := calls + [ClientStop];
        if hbTimer {
          calls := calls + [HbStop];
        }
        pingInflight := false;
        missedPongs := 0;
      }
      streaming := false;
      armed := false;
    }

    method DetectEvent(link: bool)
      modifies this
      ensures State() == Spec.DetectEvent(old(State()), opt, link)
    {
      EnsureClient();
      EnsureTimers();
      StartClientIfNeeded(link);
      armed := true;
    }

    method SendAudioFrame(link: bool, f: Frame, ok: bool) returns (sent: bool)
      requires Valid()
      modifies this
      ensures Valid()
      ensures State() == (if IsConnected(old(State()), link) then old(State()).(calls := old(calls) + [SendBin(f)]) else old(State()))
      ensures sent == (IsConnected(old(State()), link) && ok)
    {
      if !Connected(link) {
        return false;
      }
      calls := calls + [SendBin(f)];
      if !ok {
        return false;
      }
      bytesInflight := bytesInflight + |f|;
      bytesInflight := bytesInflight - |f|;
      sent := true;
    }

    /** `startEventWithPreroll`: the preroll is sent frame by frame, whatever each send returns. */
    method StartEventWithPreroll(n: nat, link: bool, oks: seq<bool>)
      requires Valid()
      modifies this
      ensures Valid()
      ensures State() == Spec.StartEventWithPreroll(old(State()), n, link)
    {
      if !Connected(link) {
        return;
      }
      streaming := true;
      var pre := RingSpec.Newest(n, ring);
      ring := [];
      SendPreroll(pre, link, oks);
    }

    /** The preroll frames sent one by one, oldest first, whatever each send returns. */
    method SendPreroll(pre: seq<Frame>, link: bool, oks: seq<bool>)
      requires Valid() && Connected(link)
      modifies this
      ensures Valid()
      ensures State() == old(State()).(calls := old(calls) + Bins(pre))
    {
      ghost var s0 := State();
      for i := 0 to |pre|
        invariant Valid() && hasClient
        invariant State() == s0.(calls := s0.calls + Bins(pre[..i]))
      {
        SeqFacts.TakeSnoc(pre, i);
        BinsSnoc(pre[..i], pre[i]);
        SeqFacts.AppendAssoc(s0.calls, Bins(pre[..i]), [SendBin(pre[i])]);
        var _ := SendAudioFrame(link, pre[i], OkAt(oks, i));
      }
      assert pre[..|pre|] == pre;
    }

    method SilenceEvent(link: bool)
      modifies this
      ensures State() == Spec.SilenceEvent(old(State()), opt, link)
    {
      if Connected(link) {
        calls := calls + [SendText(Eos), SendPing];
      }
      streaming := false;
      if !opt.keepOpenAfterEos {
        StopClient();
      } else {
        armed := false;
      }
    }

    /** `loop`: one round of the streaming task. */
    method Loop(link: bool, oks: seq<bool>)
      requires Valid()
      modifies this
      ensures Valid()
      ensures State() == Spec.Loop(old(State()), opt, link, oks)
    {
      if !streaming {
        calls := calls + [Sleep(2)];
        return;
      }
      if !Connected(link) {
        StartClientIfNeeded(link);
        calls := calls + [Sleep(10)];
        return;
      }
      LoopDrains(State(), opt, link, oks);
      var sentThisRound := Drain(link, oks);
      if sentThisRound == 0 {
        calls := calls + [Sleep(2)];
      }
    }

    /** The pop/send/release loop of `loop`, with the bytes it sent this round. */
    method Drain(link: bool, oks: seq<bool>) returns (sentThisRound: nat)
      requires Valid() && streaming && Connected(link)
      modifies this
      ensures Valid()
      ensures (State(), sentThisRound) == DrainFrom(old(State()), opt, link, oks, 0, 0)
    {
      ghost var target := DrainFrom(State(), opt, link, oks, 0, 0);
      sentThisRound := 0;
      var i: nat := 0;
      while ring != []
        invariant Valid() && hasClient && streaming
        invariant DrainFrom(State(), opt, link, oks, i, sentThisRound) == target
        decreases |ring|
      {
        DrainUnfold(State(), opt, link, oks, i, sentThisRound);
        var ok, n := PopSendRelease(link, OkAt(oks, i));
        if !ok {
          return;
        }
        sentThisRound := sentThisRound + n;
        if bytesInflight > opt.softBacklogBytes {
          return;
        }
        i := i + 1;
      }
    }

    /** One turn of the drain: pop the oldest frame, send it, release it. */
    method PopSendRelease(link: bool, ok: bool) returns (sent: bool, n: nat)
      requires Valid() && Connected(link) && ring != []
      modifies this
      ensures Valid() && hasClient && streaming == old(streaming)
      ensures sent == ok && n == |old(ring[0])|
      ensures State() == old(State()).(ring := old(ring[1..]), calls := old(calls) + [SendBin(old(ring[0])), Release(old(ring[0]))])
    {
      var f := ring[0];
      ring := ring[1..];
      sent := SendAudioFrame(link, f, ok);
      calls := calls + [Release(f)];
      n := |f|;
    }

    method OnWsEvent(e: WsEvent)
      modifies this
      ensures State() == Spec.OnWsEvent(old(State()), opt, e)
    {
      match e
      case Connected =>
        starting := false;
        if hbTimer {
          calls := calls + [HbStartPeriodic(HbPeriodUs(opt))];
        }
        missedPongs := 0;
        pingInflight := false;
      case Disconnected =>
        starting := false;
        if hbTimer {
          calls := calls + [HbStop];
        }
        pingInflight := false;
        if retryTimer {
          calls := calls + [RetryOnce(RetryDelayUs)];
        }
      case Data(op) =>
        if op == PongOpCode {
          pingInflight := false;
          missedPongs := 0;
        }
      case OtherEvent =>
    }

    method OnHbTick(link: bool, pingOk: bool)
      modifies this
      ensures State() == Spec.OnHbTick(old(State()), opt, link, pingOk)
    {
      if !Connected(link) {
        return;
      }
      if pingInflight {
        missedPongs := ((missedPongs as int + 1) % Two32) as U32;
        if missedPongs >= opt.hbMaxMissed {
          calls := calls + [ClientStop];
          return;
        }
      }
      calls := calls + [SendPing];
      if pingOk {
        pingInflight := true;
      }
    }

    method OnRetry(link: bool)
      modifies this
      ensures State() == Spec.OnRetry(old(State()), opt, link)
    {
      if !Connected(link) {
        StartClientIfNeeded(link);
      }
    }
  }
}
