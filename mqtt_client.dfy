/**
 * `MqttClient` (main/MqttClient.cpp): the connection flag, the topic ->
 * handler multimap and what the client asks of the ESP-IDF MQTT client.
 * Broker requests are recorded in `requests`, handler invocations in
 * `calls`; Wi-Fi's connect and disconnect events arrive as method calls.
 */
module MqttClient {
  import opened MqttNames
  import opened Subscriptions

  class Client {
    const uri: string
    const topic: string
    const willTopic: string
    const will: Will
    var connected: bool
    var subs: seq<Sub>
    var requests: seq<Request>
    var calls: seq<Call>

    ghost predicate Valid()
      reads this
    {
      Sorted(subs)
    }

    /**
     * The strings are fixed here from the client id, the host and the port;
     * the client is started at once when Wi-Fi is already up.
     */
    constructor (clientId: string, host: string, port: Port, wiFiConnected: bool)
      ensures Valid()
      ensures uri == BrokerUri(host, port) && topic == ToTopic(clientId)
      ensures willTopic == WillTopic(topic) && will == LastWill(topic)
      ensures !connected && subs == [] && calls == []
      ensures requests == if wiFiConnected then [Start] else []
    {
      uri := BrokerUri(host, port);
      topic := ToTopic(clientId);
      willTopic := WillTopic(ToTopic(clientId));
      will := LastWill(ToTopic(clientId));
      connected := false;
      subs := [];
      calls := [];
      requests := if wiFiConnected then [Start] else [];
    }

    /** Dropped unless connected; a retained message when `retain`. */
    method Publish(t: string, payload: string, retain: bool)
      modifies this
      ensures requests == old(requests) + if old(connected) then [Request.Publish(t, payload, retain)] else []
      ensures connected == old(connected) && subs == old(subs) && calls == old(calls)
    {
      if connected {
        requests := requests + [Request.Publish(t, payload, retain)];
      }
    }

    /**
     * The handler is always stored, after the handlers already under `t`;
     * the broker hears of it only if connected and `t` had no handler yet.
     */
    method Subscribe(t: string, h: nat)
      requires Valid()
      modifies this
      ensures Valid()
      ensures subs == Emplace(old(subs), t, h)
      ensures requests == old(requests) + if old(connected) && Count(old(subs), t) == 0 then [Request.Subscribe(t)] else []
      ensures connected == old(connected) && calls == old(calls)
    {
      EmplaceSorted(subs, t, h);
      EmplaceCount(subs, t, h);
      subs := Emplace(subs, t, h);
      if connected && Count(subs, t) == 1 {
        requests := requests + [Request.Subscribe(t)];
      }
    }

    /** Wi-Fi's connect event: start the client. */
    method ConnectToMqtt()
      modifies this
      ensures requests == old(requests) + [Start]
      ensures connected == old(connected) && subs == old(subs) && calls == old(calls)
    {
      requests := requests + [Start];
    }

    /** Wi-Fi's disconnect event: stop the client, whatever its state. */
    method WiFiDisconnected()
      modifies this
      ensures requests == old(requests) + [Stop]
      ensures connected == old(connected) && subs == old(subs) && calls == old(calls)
    {
      requests := requests + [Stop];
    }

    /**
     * Connected: a retained "Online" on the will topic, then one SUBSCRIBE
     * per distinct stored topic in ascending order.
     */
    method MqttConnected()
      requires Valid()
      modifies this
      ensures Valid() && connected
      ensures requests == old(requests) + [Request.Publish(willTopic, "Online", true)] + Subscribes(Topics(subs))
      ensures subs == old(subs) && calls == old(calls)
    {
      connected := true;
      Publish(willTopic, "Online", true);
      var ts := DistinctTopics(subs);
      requests := requests + Subscribes(ts);
    }

    /** Disconnected: only the flag drops; the subscriptions are kept for the next connect. */
    method MqttDisconnected()
      modifies this
      ensures !connected
      ensures subs == old(subs) && requests == old(requests) && calls == old(calls)
    {
      connected := false;
    }

    /** A message on `t` goes to every handler stored under exactly `t`, in registration order. */
    method MqttMessage(t: string, payload: string)
      requires Valid()
      modifies this
      ensures calls == old(calls) + Calls(Handlers(subs, t), payload)
      ensures connected == old(connected) && subs == old(subs) && requests == old(requests)
    {
      var hs := Dispatch(subs, t);
      calls := calls + Calls(hs, payload);
    }
  }
}
