/**
 * The station side of main/WiFi.cpp: the hostname derived from the client
 * id once at construction, and the order in which the connection handlers
 * touch the reconnect timer and fire their events. The ESP-IDF Wi-Fi, netif
 * and NVS calls are not modelled; what the handlers do is recorded in `log`.
 */
module WiFi {
  import Strings

  /** `std::tolower` in the "C" locale: only 'A'..'Z' change. */
  function ToLower(c: char): (r: char)
    ensures !('A' <= c <= 'Z') ==> r == c
    ensures 'A' <= c <= 'Z' ==> 'a' <= r <= 'z' && r as int - c as int == 32
  {
    if 'A' <= c <= 'Z' then (c as int + 32) as char else c
  }

  function LowerAll(s: string): (r: string)
    ensures |r| == |s|
    ensures forall i :: 0 <= i < |s| ==> r[i] == ToLower(s[i])
  {
    if s == [] then [] else [ToLower(s[0])] + LowerAll(s[1..])
  }

  /** `toHostname`: "iot-" followed by the lower-cased client id. */
  function ToHostname(clientId: string): (h: string)
  {
    Strings.StrTexts("iot-", LowerAll(clientId));
    Strings.Str([Strings.Text("iot-"), Strings.Text(LowerAll(clientId))])
  }

  /** The hostname is "iot-" and then the id, four characters longer, only upper-case letters changed. */
  lemma HostnameShape(clientId: string)
    ensures |ToHostname(clientId)| == 4 + |clientId|
    ensures ToHostname(clientId)[..4] == "iot-"
    ensures forall i :: 0 <= i < |clientId| ==> ToHostname(clientId)[4 + i] == ToLower(clientId[i])
  {
    Strings.StrTexts("iot-", LowerAll(clientId));
  }

  /** Ids that differ only in letter case give the same hostname. */
  lemma HostnameIgnoresCase(a: string, b: string)
    requires |a| == |b| && forall i :: 0 <= i < |a| ==> ToLower(a[i]) == ToLower(b[i])
    ensures ToHostname(a) == ToHostname(b)
  {
    assert LowerAll(a) == LowerAll(b);
  }

  /** A hostname has no upper-case letter. */
  lemma HostnameLowerCase(clientId: string)
    ensures forall i :: 0 <= i < |ToHostname(clientId)| ==> !('A' <= ToHostname(clientId)[i] <= 'Z')
  {
    HostnameShape(clientId);
    var h := ToHostname(clientId);
    forall i | 0 <= i < |h|
      ensures !('A' <= h[i] <= 'Z')
    {
      if i < 4 {
        assert h[i] == h[..4][i];
      } else {
        assert h[i] == ToLower(clientId[i - 4]);
      }
    }
  }

  const ReconnectDelay: nat := 5000

  datatype Note =
    | Connect(reconnecting: bool)
    | TimerStopped
    | TimerStarted(delay: nat)
    | ConnectEvent
    | DisconnectEvent

  /** Each event is preceded by the timer action that goes with it. */
  ghost predicate TimerBeforeEvent(log: seq<Note>) {
    forall i {:trigger log[i]} :: 0 <= i < |log| ==>
      (log[i] == ConnectEvent ==> 0 < i && log[i - 1] == TimerStopped)
      && (log[i] == DisconnectEvent ==> 0 < i && log[i - 1] == TimerStarted(ReconnectDelay))
  }

  lemma TimerBeforeEventSnoc2(log: seq<Note>, a: Note, e: Note)
    requires TimerBeforeEvent(log)
    requires e == ConnectEvent ==> a == TimerStopped
    requires e == DisconnectEvent ==> a == TimerStarted(ReconnectDelay)
    requires a != ConnectEvent && a != DisconnectEvent
    ensures TimerBeforeEvent(log + [a, e])
  {
    var l := log + [a, e];
    forall i | 0 <= i < |l|
      ensures (l[i] == ConnectEvent ==> 0 < i && l[i - 1] == TimerStopped)
           && (l[i] == DisconnectEvent ==> 0 < i && l[i - 1] == TimerStarted(ReconnectDelay))
    {
      if i < |log| {
        assert l[i] == log[i];
        if 0 < i { assert l[i - 1] == log[i - 1]; }
      } else if i == |log| {
        assert l[i] == a;
      } else {
        assert l[i] == e && l[i - 1] == a;
      }
    }
  }

  lemma TimerBeforeEventSnoc(log: seq<Note>, a: Note)
    requires TimerBeforeEvent(log)
    requires a != ConnectEvent && a != DisconnectEvent
    ensures TimerBeforeEvent(log + [a])
  {
    var l := log + [a];
    forall i | 0 <= i < |l|
      ensures (l[i] == ConnectEvent ==> 0 < i && l[i - 1] == TimerStopped)
           && (l[i] == DisconnectEvent ==> 0 < i && l[i - 1] == TimerStarted(ReconnectDelay))
    {
      if i < |log| {
        assert l[i] == log[i];
        if 0 < i { assert l[i - 1] == log[i - 1]; }
      } else {
        assert l[i] == a;
      }
    }
  }

  class Station {
    const hostname: string
    /** Whether the one-shot reconnect timer is armed. */
    var timerArmed: bool
    var log: seq<Note>

    ghost predicate Valid()
      reads this
    {
      TimerBeforeEvent(log)
    }

    /** The hostname is fixed from the client id here and never changes. */
    constructor (clientId: string)
      ensures Valid() && hostname == ToHostname(clientId)
      ensures !timerArmed && log == []
    {
      hostname := ToHostname(clientId);
      timerArmed := false;
      log := [];
    }

    /** `WIFI_EVENT_STA_START`: the first connection attempt. */
    method Started()
      requires Valid()
      modifies this
      ensures Valid() && timerArmed == old(timerArmed)
      ensures log == old(log) + [Connect(false)]
    {
      TimerBeforeEventSnoc(log, Connect(false));
      log := log + [Connect(false)];
    }

    /** The reconnect timer's callback: `connect(true)`. */
    method ReconnectTimerFired()
      requires Valid()
      modifies this
      ensures Valid() && !timerArmed
      ensures log == old(log) + [Connect(true)]
    {
      timerArmed := false;
      TimerBeforeEventSnoc(log, Connect(true));
      log := log + [Connect(true)];
    }

    /** Got an address: the reconnect timer is stopped before `connectEvent` fires. */
    method Connected()
      requires Valid()
      modifies this
      ensures Valid() && !timerArmed
      ensures log == old(log) + [TimerStopped, ConnectEvent]
    {
      timerArmed := false;
      TimerBeforeEventSnoc2(log, TimerStopped, ConnectEvent);
      log := log + [TimerStopped, ConnectEvent];
    }

    /** Lost the link: the timer is armed for 5000 ms before `disconnectEvent` fires. */
    method Disconnected()
      requires Valid()
      modifies this
      ensures Valid() && timerArmed
      ensures log == old(log) + [TimerStarted(ReconnectDelay), DisconnectEvent]
    {
      timerArmed := true;
      TimerBeforeEventSnoc2(log, TimerStarted(ReconnectDelay), DisconnectEvent);
      log := log + [TimerStarted(ReconnectDelay), DisconnectEvent];
    }
  }
}
