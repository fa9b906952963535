/**
 * `Mqtt` (main/Mqtt.cpp): the singleton variant of the MQTT client. It
 * derives the same strings as `MqttClient` and keeps the same multimap, but
 * remembers whether it started the ESP-IDF client (`started`) so that a
 * Wi-Fi disconnect stops it only once.
 */
module Mqtt {
  import opened MqttNames
  import opened Subscriptions

  class Client {
    const uri: string
    const baseTopic: string
    const willTopic: string
    const will: Will
    var started: bool
    var connected: bool
    var subs: seq<Sub>
    var requests: seq<Request>
    var calls: seq<Call>

    ghost predicate Valid()
      reads this
    {
      Sorted(subs)
    }

    /** The application's client id and Wi-Fi's state are parameters. */
    constructor (clientId: string, host: string, port: Port, wiFiConnected: bool)
      ensures Valid()
      ensures uri == BrokerUri(host, port) && baseTopic == ToTopic(clientId)
      ensures willTopic == WillTopic(baseTopic) && will == LastWill(baseTopic)
      ensures !connected && subs == [] && calls == []
      ensures started == wiFiConnected
      ensures requests == if wiFiConnected then [Start] else []
    {
      uri := BrokerUri(host, port);
      baseTopic := ToTopic(clientId);
      willTopic := WillTopic(ToTopic(clientId));
      will := LastWill(ToTopic(clientId));
      connected := false;
      subs := [];
      calls := [];
      started := wiFiConnected;
      requests := if wiFiConnected then [Start] else [];
    }

    /** Both `publish` overloads: dropped unless connected. */
    method Publish(t: string, payload: string, retain: bool)
      modifies this
      ensures requests == old(requests) + if old(connected) then [Request.Publish(t, payload, retain)] else []
      ensures started == old(started) && connected == old(connected) && subs == old(subs) && calls == old(calls)
    {
      if connected {
        requests := requests + [Request.Publish(t, payload, retain)];
      }
    }

    /** Stored always; SUBSCRIBE only if connected and `t` had no handler yet. */
    method Subscribe(t: string, h: nat)
      requires Valid()
      modifies this
      ensures Valid()
      ensures subs == Emplace(old(subs), t, h)
      ensures requests == old(requests) + if old(connected) && Count(old(subs), t) == 0 then [Request.Subscribe(t)] else []
      ensures started == old(started) && connected == old(connected) && calls == old(calls)
    {
      EmplaceSorted(subs, t, h);
      EmplaceCount(subs, t, h);
      subs := Emplace(subs, t, h);
      if connected && Count(subs, t) == 1 {
        requests := requests + [Request.Subscribe(t)];
      }
    }

    /** Wi-Fi's connect event: start the client and remember it. */
    method ConnectToMqtt()
      modifies this
      ensures started
      ensures requests == old(requests) + [Start]
      ensures connected == old(connected) && subs == old(subs) && calls == old(calls)
    {
      requests := requests + [Start];
      started := true;
    }

    /**
     * Wi-Fi's disconnect event: stop the client only if this client started
     * it, and forget that; a second disconnect in a row requests nothing.
     */
    method WiFiDisconnected()
      modifies this
      ensures !started
      ensures requests == old(requests) + if old(started) then [Stop] else []
      ensures connected == old(connected) && subs == old(subs) && calls == old(calls)
    {
      if started {
        requests := requests + [Stop];
        started := false;
      }
    }

    /** A retained "Online", then one SUBSCRIBE per distinct topic in ascending order. */
    method MqttConnected()
      requires Valid()
      modifies this
      ensures Valid() && connected
      ensures requests == old(requests) + [Request.Publish(willTopic, "Online", true)] + Subscribes(Topics(subs))
      ensures started == old(started) && subs == old(subs) && calls == old(calls)
    {
      connected := true;
      Publish(willTopic, "Online", true);
      var ts := DistinctTopics(subs);
      requests := requests + Subscribes(ts);
    }

    method MqttDisconnected()
      modifies this
      ensures !connected
      ensures started == old(started) && subs == old(subs) && requests == old(requests) && calls == old(calls)
    {
      connected := false;
    }

    /** All and only the handlers registered for exactly `t`, in insertion order. */
    method MqttMessage(t: string, payload: string)
      requires Valid()
      modifies this
      ensures calls == old(calls) + Calls(Handlers(subs, t), payload)
      ensures started == old(started) && connected == old(connected) && subs == old(subs) && requests == old(requests)
    {
      var hs := Dispatch(subs, t);
      calls := calls + Calls(hs, payload);
    }
  }
}
