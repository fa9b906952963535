/**
 * The header-only `WsStreamer` of main/wstreamer.cpp: a WebSocket client
 * that is opened on the detect event, streams a preroll and then live
 * frames, sends an end-of-stream text on silence, keeps the connection
 * alive with pings (a PONG is a frame with opcode 0xA, section 5.5.3 of
 * RFC 6455) and reconnects after a disconnect.
 *
 * The ESP WebSocket client and the esp_timer library are oracles: whether
 * the client reports itself connected (`link`), whether a send or ping
 * call succeeds, and the events it delivers are inputs; every call the
 * component makes into them is recorded, in order, in `calls`. The frame
 * ring behind the `IFrameRing` interface (its implementation is not part of
 * this model) is a FIFO of byte frames.
 */
module KeepAliveSpec {
  import opened Wrappers
  import opened Time
  import opened Pcm
  import Decimal
  import RingSpec
  import SeqFacts

  type Frame = seq<Byte>

  datatype Options = Options(
    host: string,
    port: int,
    path: Option<string>,
    useTls: bool,
    sendTimeoutMs: U32,
    keepOpenAfterEos: bool,
    hbIntervalMs: U32,
    hbMaxMissed: U32,
    softBacklogBytes: nat)

  /** The defaults of `Options`. */
  function Defaults(): (o: Options)
    ensures o.hbMaxMissed == 2 && o.hbIntervalMs == 15000 && !o.keepOpenAfterEos && !o.useTls
  {
    Options("192.168.1.10", 8080, Some("/ws/audio"), false, 200, false, 15000, 2, 256 * 1024)
  }

  /** The URI buffer is `char[256]`: `snprintf` keeps at most 255 characters. */
  const UriCapacity: nat := 255

  const Eos: string := "{\"type\":\"end\"}"

  /** The one-shot reconnect delay, in microseconds. */
  const RetryDelayUs: nat := 3000 * 1000

  /** The path part of the URI: "/" when the path is null or empty. */
  function PathPart(path: Option<string>): (p: string)
    ensures p != [] && (path.Some? && path.value != [] ==> p == path.value)
  {
    if path.Some? && path.value != [] then path.value else "/"
  }

  /** The untruncated `"%s://%s:%d%s"` rendering. */
  function FullUri(o: Options): string {
    (if o.useTls then "wss" else "ws") + "://" + o.host + ":" + Decimal.Render(o.port) + PathPart(o.path)
  }

  /** `ensure_client`'s URI, cut to the buffer. */
  function Uri(o: Options): (u: string)
    ensures |u| <= UriCapacity
  {
    var full := FullUri(o);
    if |full| <= UriCapacity then full else full[..UriCapacity]
  }

  /**
   * When the URI fits the buffer it is the scheme ("wss" exactly when TLS
   * is on), "://", the host, ':' and the decimal port, then the path or "/";
   * the port can be read back from between the host and the path.
   */
  lemma UriShape(o: Options)
    requires |FullUri(o)| <= UriCapacity
    ensures var scheme := if o.useTls then "wss" else "ws";
            var portAt := |scheme| + 3 + |o.host| + 1;
            && Uri(o) == scheme + "://" + o.host + ":" + Decimal.Render(o.port) + PathPart(o.path)
            && Uri(o)[..|scheme| + 3] == scheme + "://"
            && Uri(o)[portAt - 1] == ':'
            && Decimal.Parse(Uri(o)[portAt..|Uri(o)| - |PathPart(o.path)|]) == Some(o.port)
            && Uri(o)[|Uri(o)| - |PathPart(o.path)|..] == PathPart(o.path)
  {
    Decimal.ParseRender(o.port);
    var scheme := if o.useTls then "wss" else "ws";
    var r := Decimal.Render(o.port);
    var u := scheme + "://" + o.host + ":" + r + PathPart(o.path);
    assert u[..|scheme| + 3] == scheme + "://";
    assert u[|scheme| + 3 + |o.host| + 1..|u| - |PathPart(o.path)|] == r;
  }

  /** A call into the WebSocket client, the timer library or the scheduler. */
  datatype Call =
    | ClientInit(uri: string)
    | RegisterEvents
    | HbTimerCreate
    | RetryTimerCreate
    | ClientStart
    | ClientStop
    | SendText(text: string)
    | SendPing
    | SendBin(frame: Frame)
    | Release(frame: Frame)
    | HbStartPeriodic(periodUs: nat)
    | HbStop
    | RetryOnce(delayUs: nat)
    | Sleep(ms: nat)

  /** An event the WebSocket client delivers. */
  datatype WsEvent = Connected | Disconnected | Data(opCode: nat) | OtherEvent

  const PongOpCode: nat := 0xA

  /** The component's state; `hasClient` is `ws_ != nullptr`. */
  datatype Ws = Ws(
    hasClient: bool,
    hbTimer: bool,
    retryTimer: bool,
    streaming: bool,
    armed: bool,
    bytesInflight: nat,
    starting: bool,
    pingInflight: bool,
    missedPongs: U32,
    ring: seq<Frame>,
    calls: seq<Call>)

  function Initial(ring: seq<Frame>): (s: Ws)
    ensures !s.hasClient && !s.streaming && !s.armed && s.bytesInflight == 0 && s.calls == []
  {
    Ws(false, false, false, false, false, 0, false, false, 0, ring, [])
  }

  /** `is_connected()`: a client exists and reports itself connected. */
  predicate IsConnected(s: Ws, link: bool) {
    s.hasClient && link
  }

  /** The heartbeat period handed to the timer: `hb_interval_ms * 1000` in 32-bit arithmetic. */
  function HbPeriodUs(o: Options): (us: nat)
    ensures us < Two32
    ensures o.hbIntervalMs as int * 1000 < Two32 ==> us == o.hbIntervalMs as int * 1000
  {
    (o.hbIntervalMs as int * 1000) % Two32
  }

  /** `ensure_client`: create and register a client once. */
  function EnsureClient(s: Ws, o: Options): (r: Ws)
    ensures r.hasClient
    ensures s.hasClient ==> r == s
    ensures !s.hasClient ==> r == s.(hasClient := true, calls := s.calls + [ClientInit(Uri(o)), RegisterEvents])
  {
    if s.hasClient then s else s.(hasClient := true, calls := s.calls + [ClientInit(Uri(o)), RegisterEvents])
  }

  /** `ensure_timers`: create each timer once. */
  function EnsureTimers(s: Ws): (r: Ws)
    ensures r.hbTimer && r.retryTimer
    ensures r == s.(hbTimer := true, retryTimer := true,
                    calls := s.calls + (if s.hbTimer then [] else [HbTimerCreate])
                                     + (if s.retryTimer then [] else [RetryTimerCreate]))
  {
    var a := if s.hbTimer then s else s.(hbTimer := true, calls := s.calls + [HbTimerCreate]);
    if a.retryTimer then a else a.(retryTimer := true, calls := a.calls + [RetryTimerCreate])
  }

  /** `start_client_if_needed`: start the client only when it is neither connected nor starting. */
  function StartClientIfNeeded(s: Ws, o: Options, link: bool): (r: Ws)
    ensures r.hasClient && r.ring == s.ring && r.streaming == s.streaming && r.armed == s.armed
    ensures r.pingInflight == s.pingInflight && r.missedPongs == s.missedPongs
    ensures r.bytesInflight == s.bytesInflight && r.hbTimer == s.hbTimer && r.retryTimer == s.retryTimer
    ensures r.starting == (s.starting || !link)
  {
    var c := EnsureClient(s, o);
    if !IsConnected(c, link) && !c.starting then c.(starting := true, calls := c.calls + [ClientStart]) else c
  }

  /** The number of `ClientStart` calls in a call log. */
  function Starts(calls: seq<Call>): nat {
    if calls == [] then 0 else Starts(calls[..|calls| - 1]) + (if calls[|calls| - 1] == ClientStart then 1 else 0)
  }

  lemma {:induction false} StartsAppend(a: seq<Call>, b: seq<Call>)
    ensures Starts(a + b) == Starts(a) + Starts(b)
    decreases |b|
  {
    if b == [] {
      assert a + b == a;
    } else {
      assert (a + b)[..|a + b| - 1] == a + b[..|b| - 1];
      StartsAppend(a, b[..|b| - 1]);
    }
  }

  /**
   * `start_client_if_needed` starts the client exactly when it is not
   * connected and no start is pending, and a second call with no client
   * event in between starts nothing more.
   */
  lemma StartClientAtMostOnce(s: Ws, o: Options, link: bool, link': bool)
    ensures var r := StartClientIfNeeded(s, o, link);
            && (Starts(r.calls) == Starts(s.calls) + 1 <==> !link && !s.starting)
            && Starts(r.calls) <= Starts(s.calls) + 1
            && Starts(StartClientIfNeeded(r, o, link').calls) == Starts(r.calls) + (if r.starting || link' then 0 else 1)
            && (!link ==> Starts(StartClientIfNeeded(r, o, link').calls) == Starts(r.calls))
  {
    StartsOfStartClient(s, o, link);
    StartsOfStartClient(StartClientIfNeeded(s, o, link), o, link');
  }

  /** One `start_client_if_needed` adds a single `ClientStart` exactly when the link is down and no start is pending. */
  lemma StartsOfStartClient(s: Ws, o: Options, link: bool)
    ensures Starts(StartClientIfNeeded(s, o, link).calls) == Starts(s.calls) + (if !link && !s.starting then 1 else 0)
  {
    var c := EnsureClient(s, o);
    StartsOfEnsureClient(s, o);
    assert c.hasClient && c.starting == s.starting;
    var r := StartClientIfNeeded(s, o, link);
    if !link && !s.starting {
      assert r.calls == c.calls + [ClientStart];
      StartsAppend(c.calls, [ClientStart]);
      StartsOne(ClientStart);
    } else {
      assert r.calls == c.calls;
    }
  }

  /** Creating the client starts nothing. */
  lemma StartsOfEnsureClient(s: Ws, o: Options)
    ensures Starts(EnsureClient(s, o).calls) == Starts(s.calls)
  {
    if !s.hasClient {
      var init := [ClientInit(Uri(o)), RegisterEvents];
      StartsAppend(s.calls, init);
      StartsOne(ClientInit(Uri(o)));
      StartsOne(RegisterEvents);
      StartsAppend([ClientInit(Uri(o))], [RegisterEvents]);
      assert [ClientInit(Uri(o))] + [RegisterEvents] == init;
    }
  }

  lemma StartsOne(c: Call)
    ensures Starts([c]) == if c == ClientStart then 1 else 0
  {
    assert [c][..0] == [];
  }

  /** `detectEvent`: open (or keep) the connection and arm, without sending anything. */
  function DetectEvent(s: Ws, o: Options, link: bool): (r: Ws)
    ensures r.armed && r.hasClient && r.hbTimer && r.retryTimer
    ensures r.streaming == s.streaming && r.ring == s.ring
  {
    StartClientIfNeeded(EnsureTimers(EnsureClient(s, o)), o, link).(armed := true)
  }

  /** `stop_client`: stop the client and the heartbeat, then clear streaming and armed. */
  function StopClient(s: Ws): (r: Ws)
    ensures !r.streaming && !r.armed && r.ring == s.ring && r.starting == s.starting
    ensures s.hasClient ==> !r.pingInflight && r.missedPongs == 0
                            && r.calls == s.calls + [ClientStop] + (if s.hbTimer then [HbStop] else [])
    ensures !s.hasClient ==> r.calls == s.calls && r.pingInflight == s.pingInflight
  {
    var a := if s.hasClient then
      s.(calls := s.calls + [ClientStop] + (if s.hbTimer then [HbStop] else []), pingInflight := false, missedPongs := 0)
    else s;
    a.(streaming := false, armed := false)
  }

  /**
   * `silenceEvent`: the end-of-stream text and a ping only when connected;
   * `streaming_` is always cleared; then either the client is stopped or,
   * when the connection is kept open, only `armed_` is cleared.
   */
  function SilenceEvent(s: Ws, o: Options, link: bool): (r: Ws)
    ensures !r.streaming && !r.armed && r.ring == s.ring
  {
    var a := if IsConnected(s, link) then s.(calls := s.calls + [SendText(Eos), SendPing]) else s;
    var b := a.(streaming := false);
    if !o.keepOpenAfterEos then StopClient(b) else b.(armed := false)
  }

  lemma SilenceEventCalls(s: Ws, o: Options, link: bool)
    ensures var r := SilenceEvent(s, o, link);
            var eos := if IsConnected(s, link) then [SendText(Eos), SendPing] else [];
            && (o.keepOpenAfterEos ==> r == s.(streaming := false, armed := false, calls := s.calls + eos))
            && (!o.keepOpenAfterEos && s.hasClient ==>
                  r.calls == s.calls + eos + [ClientStop] + (if s.hbTimer then [HbStop] else []))
            && (!s.hasClient ==> r.calls == s.calls)
  {
  }

  /** The oracle's answer for the `i`-th send of a call; a missing answer is a failure. */
  function OkAt(oks: seq<bool>, i: nat): bool {
    i < |oks| && oks[i]
  }

  /**
   * `send_audio_frame`: refused when not connected; otherwise one binary
   * send, and `bytes_inflight_` gets `n` added and at once subtracted.
   */
  function SendAudioFrame(s: Ws, link: bool, f: Frame, ok: bool): (r: (Ws, bool))
    ensures r.0 == (if IsConnected(s, link) then s.(calls := s.calls + [SendBin(f)]) else s)
    ensures r.1 <==> IsConnected(s, link) && ok
  {
    if !IsConnected(s, link) then (s, false)
    else
      var a := s.(calls := s.calls + [SendBin(f)]);
      if !ok then (a, false)
      else (a.(bytesInflight := a.bytesInflight + |f| - |f|), true)
  }

  function Bins(fs: seq<Frame>): (cs: seq<Call>)
    ensures |cs| == |fs|
  {
    if fs == [] then [] else [SendBin(fs[0])] + Bins(fs[1..])
  }

  /**
   * `startEventWithPreroll(n)`: nothing when disconnected; otherwise start
   * streaming and hand the newest `n` frames, oldest first, to the
   * transport, whatever each send returns. `drain_last` leaves the ring
   * empty.
   */
  function StartEventWithPreroll(s: Ws, n: nat, link: bool): (r: Ws)
    ensures !IsConnected(s, link) ==> r == s
    ensures IsConnected(s, link) ==> |r.calls| == |s.calls| + RingSpec.Min(n, |s.ring|)
  {
    if !IsConnected(s, link) then s
    else s.(streaming := true, ring := [], calls := s.calls + Bins(RingSpec.Newest(n, s.ring)))
  }

  lemma {:induction false} BinsSnoc(fs: seq<Frame>, f: Frame)
    ensures Bins(fs + [f]) == Bins(fs) + [SendBin(f)]
  {
    if fs != [] {
      assert (fs + [f])[1..] == fs[1..] + [f];
      BinsSnoc(fs[1..], f);
    }
  }

  /** The log entries of frames popped and sent, each followed by its release. */
  function SendsAndReleases(fs: seq<Frame>): (cs: seq<Call>)
    ensures |cs| == 2 * |fs|
  {
    if fs == [] then [] else [SendBin(fs[0]), Release(fs[0])] + SendsAndReleases(fs[1..])
  }

  /**
   * The drain of `loop`: pop, send, release; stop after the first failed
   * send, when the ring is empty, or once the bytes in flight exceed the
   * soft limit. Also returns the bytes sent this round.
   */
  function DrainFrom(s: Ws, o: Options, link: bool, oks: seq<bool>, i: nat, sent: nat): (r: (Ws, nat))
    ensures r.1 >= sent
    decreases |s.ring|
  {
    if s.ring == [] then (s, sent)
    else
      var f := s.ring[0];
      var (a, ok) := SendAudioFrame(s.(ring := s.ring[1..]), link, f, OkAt(oks, i));
      var b := a.(calls := a.calls + [Release(f)]);
      if !ok then (b, sent)
      else if b.bytesInflight > o.softBacklogBytes then (b, sent + |f|)
      else DrainFrom(b, o, link, oks, i + 1, sent + |f|)
  }

  /** How many frames a drain pops: up to and including the first failed send. */
  function Popped(oks: seq<bool>, i: nat, n: nat): (k: nat)
    ensures k <= n
    ensures n > 0 ==> k > 0
    decreases n
  {
    if n == 0 then 0 else if !OkAt(oks, i) then 1 else 1 + Popped(oks, i + 1, n - 1)
  }

  /**
   * While connected, `bytes_inflight_` stays where it was, so with nothing
   * in flight the soft backlog never interrupts a drain: the drain pops the
   * ring's frames in order up to and including the first failed send,
   * sends and then releases each popped frame exactly once, and leaves the
   * rest of the ring untouched.
   */
  lemma {:induction false} DrainPopsPrefix(s: Ws, o: Options, link: bool, oks: seq<bool>, i: nat, sent: nat)
    requires IsConnected(s, link) && s.bytesInflight == 0
    ensures DrainFrom(s, o, link, oks, i, sent).0 == Drained(s, Popped(oks, i, |s.ring|))
    decreases |s.ring|
  {
    if s.ring != [] {
      var f := s.ring[0];
      var b := s.(ring := s.ring[1..], calls := s.calls + [SendBin(f), Release(f)]);
      DrainUnfold(s, o, link, oks, i, sent);
      if OkAt(oks, i) {
        var k := Popped(oks, i + 1, |b.ring|);
        assert Popped(oks, i, |s.ring|) == k + 1;
        DrainPopsPrefix(b, o, link, oks, i + 1, sent + |f|);
        DrainedCons(s, k);
        calc {
          DrainFrom(s, o, link, oks, i, sent).0;
          DrainFrom(b, o, link, oks, i + 1, sent + |f|).0;
          Drained(b, k);
          Drained(s, k + 1);
        }
      } else {
        assert Popped(oks, i, |s.ring|) == 1;
        DrainedCons(s, 0);
        assert Drained(b, 0) == b;
      }
    } else {
      assert Drained(s, 0) == s;
    }
  }

  /** The state after the first `k` frames of the ring were popped, sent and released. */
  function Drained(s: Ws, k: nat): (r: Ws)
    requires k <= |s.ring|
  {
    s.(ring := s.ring[k..], calls := s.calls + SendsAndReleases(s.ring[..k]))
  }

  lemma DrainedCons(s: Ws, k: nat)
    requires k < |s.ring|
    ensures var f := s.ring[0];
            Drained(s.(ring := s.ring[1..], calls := s.calls + [SendBin(f), Release(f)]), k) == Drained(s, k + 1)
  {
    var f := s.ring[0];
    SendsAndReleasesCons(s.ring, k);
    assert s.ring[1..][k..] == s.ring[k + 1..];
    SeqFacts.AppendAssoc(s.calls, [SendBin(f), Release(f)], SendsAndReleases(s.ring[1..][..k]));
  }

  /** One step of a connected drain with nothing in flight. */
  lemma DrainUnfold(s: Ws, o: Options, link: bool, oks: seq<bool>, i: nat, sent: nat)
    requires IsConnected(s, link) && s.bytesInflight == 0 && s.ring != []
    ensures var f := s.ring[0];
            var b := s.(ring := s.ring[1..], calls := s.calls + [SendBin(f), Release(f)]);
            && (OkAt(oks, i) ==> DrainFrom(s, o, link, oks, i, sent) == DrainFrom(b, o, link, oks, i + 1, sent + |f|))
            && (!OkAt(oks, i) ==> DrainFrom(s, o, link, oks, i, sent) == (b, sent))
  {
    var f := s.ring[0];
    var a := s.(ring := s.ring[1..]);
    var sent1 := a.(calls := a.calls + [SendBin(f)]);
    assert sent1.(calls := sent1.calls + [Release(f)]) == s.(ring := s.ring[1..], calls := s.calls + [SendBin(f), Release(f)]);
  }

  lemma SendsAndReleasesCons(fs: seq<Frame>, k: nat)
    requires k < |fs|
    ensures SendsAndReleases(fs[..k + 1]) == [SendBin(fs[0]), Release(fs[0])] + SendsAndReleases(fs[1..][..k])
  {
    assert fs[..k + 1][1..] == fs[1..][..k];
  }

  /**
   * `loop`: idle sleep when not streaming; a gentle restart when the
   * connection is gone; otherwise a drain, followed by a short sleep when it
   * sent no bytes.
   */
  function Loop(s: Ws, o: Options, link: bool, oks: seq<bool>): (r: Ws)
  {
    if !s.streaming then s.(calls := s.calls + [Sleep(2)])
    else if !IsConnected(s, link) then
      var a := StartClientIfNeeded(s, o, link);
      a.(calls := a.calls + [Sleep(10)])
    else
      var (a, sent) := DrainFrom(s, o, link, oks, 0, 0);
      if sent == 0 then a.(calls := a.calls + [Sleep(2)]) else a
  }

  /** A streaming round on a live link is the drain, plus the idle sleep when it sent nothing. */
  lemma LoopDrains(s: Ws, o: Options, link: bool, oks: seq<bool>)
    requires s.streaming && IsConnected(s, link)
    ensures var d := DrainFrom(s, o, link, oks, 0, 0);
            Loop(s, o, link, oks) == if d.1 == 0 then d.0.(calls := d.0.calls + [Sleep(2)]) else d.0
  {
  }

  /** `on_ws_event`. */
  function OnWsEvent(s: Ws, o: Options, e: WsEvent): (r: Ws)
    ensures r.ring == s.ring && r.streaming == s.streaming && r.armed == s.armed && r.hasClient == s.hasClient
    ensures e.Connected? ==> !r.starting && !r.pingInflight && r.missedPongs == 0
                             && r.calls == s.calls + (if s.hbTimer then [HbStartPeriodic(HbPeriodUs(o))] else [])
    ensures e.Disconnected? ==> !r.starting && !r.pingInflight && r.missedPongs == s.missedPongs
                                && r.calls == s.calls + (if s.hbTimer then [HbStop] else [])
                                                      + (if s.retryTimer then [RetryOnce(RetryDelayUs)] else [])
    ensures e.Data? && e.opCode == PongOpCode ==> r == s.(pingInflight := false, missedPongs := 0)
    ensures (e.Data? && e.opCode != PongOpCode) || e.OtherEvent? ==> r == s
  {
    match e
    case Connected =>
      var a := s.(starting := false);
      var b := if a.hbTimer then a.(calls := a.calls + [HbStartPeriodic(HbPeriodUs(o))]) else a;
      b.(missedPongs := 0, pingInflight := false)
    case Disconnected =>
      var a := s.(starting := false);
      var b := if a.hbTimer then a.(calls := a.calls + [HbStop]) else a;
      var c := b.(pingInflight := false);
      if c.retryTimer then c.(calls := c.calls + [RetryOnce(RetryDelayUs)]) else c
    case Data(op) =>
      if op == PongOpCode then s.(pingInflight := false, missedPongs := 0) else s
    case OtherEvent => s
  }

  /**
   * `on_hb_tick`: nothing when disconnected; with a ping outstanding, count
   * a missed pong (32-bit) and stop the client once the count reaches
   * `hb_max_missed`; otherwise ping, and mark the ping outstanding if the
   * ping call succeeded.
   */
  function OnHbTick(s: Ws, o: Options, link: bool, pingOk: bool): (r: Ws)
    ensures !IsConnected(s, link) ==> r == s
  {
    if !IsConnected(s, link) then s
    else
      var a := if s.pingInflight then s.(missedPongs := ((s.missedPongs as int + 1) % Two32) as U32) else s;
      if s.pingInflight && a.missedPongs >= o.hbMaxMissed then a.(calls := a.calls + [ClientStop])
      else
        var b := a.(calls := a.calls + [SendPing]);
        if pingOk then b.(pingInflight := true) else b
  }

  /** `on_retry`: restart only when not connected. */
  function OnRetry(s: Ws, o: Options, link: bool): (r: Ws)
    ensures IsConnected(s, link) ==> r == s
    ensures !IsConnected(s, link) ==> r == StartClientIfNeeded(s, o, link)
  {
    if !IsConnected(s, link) then StartClientIfNeeded(s, o, link) else s
  }

  /** `n` heartbeat ticks on a live link where every ping call succeeds and no pong arrives. */
  function SilentTicks(s: Ws, o: Options, n: nat): Ws {
    if n == 0 then s else OnHbTick(SilentTicks(s, o, n - 1), o, true, true)
  }

  function Pings(n: nat): (cs: seq<Call>)
    ensures |cs| == n && forall i :: 0 <= i < n ==> cs[i] == SendPing
  {
    if n == 0 then [] else Pings(n - 1) + [SendPing]
  }

  /**
   * After a CONNECTED event, if no pong arrives, the first `hb_max_missed`
   * ticks each send one ping and the next tick stops the client instead,
   * having counted `hb_max_missed` missed pongs.
   */
  lemma {:induction false} HeartbeatGivesUp(s: Ws, o: Options, n: nat)
    requires s.hasClient && !s.pingInflight && s.missedPongs == 0 && o.hbMaxMissed >= 1
    requires n <= o.hbMaxMissed as int
    ensures var t := SilentTicks(s, o, n);
            && t == s.(calls := s.calls + Pings(n), pingInflight := n > 0,
                       missedPongs := if n == 0 then 0 else (n - 1) as U32)
  {
    if n > 0 {
      HeartbeatGivesUp(s, o, n - 1);
      var t := SilentTicks(s, o, n - 1);
      SilentTick(t, o);
      SeqFacts.AppendAssoc(s.calls, Pings(n - 1), [SendPing]);
    }
  }

  /** The tick after `hb_max_missed` unanswered pings stops the client instead of pinging. */
  lemma HeartbeatStops(s: Ws, o: Options)
    requires s.hasClient && !s.pingInflight && s.missedPongs == 0 && o.hbMaxMissed >= 1
    ensures var u := SilentTicks(s, o, o.hbMaxMissed as int + 1);
            && u.calls == s.calls + Pings(o.hbMaxMissed as int) + [ClientStop]
            && u.missedPongs == o.hbMaxMissed && u.hasClient
  {
    var n := o.hbMaxMissed as int;
    HeartbeatGivesUp(s, o, n);
    SilentTick(SilentTicks(s, o, n), o);
  }

  /** One tick on a live link whose ping call succeeds and with no pong arriving. */
  lemma SilentTick(t: Ws, o: Options)
    requires t.hasClient && t.missedPongs as int + 1 < Two32
    ensures var u := OnHbTick(t, o, true, true);
            && (!t.pingInflight ==> u == t.(pingInflight := true, calls := t.calls + [SendPing]))
            && (t.pingInflight && t.missedPongs as int + 1 >= o.hbMaxMissed as int ==>
                  u == t.(missedPongs := t.missedPongs + 1, calls := t.calls + [ClientStop]))
            && (t.pingInflight && t.missedPongs as int + 1 < o.hbMaxMissed as int ==>
                  u == t.(missedPongs := t.missedPongs + 1, calls := t.calls + [SendPing]))
  {
  }

  /** A pong settles the heartbeat: nothing outstanding, no pong missed, nothing else changed. */
  lemma PongSettles(s: Ws, o: Options)
    ensures var r := OnWsEvent(s, o, Data(PongOpCode));
            !r.pingInflight && r.missedPongs == 0 && r.calls == s.calls && r.starting == s.starting
  {
  }
}
