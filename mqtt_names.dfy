/**
 * The constant strings the two MQTT clients (main/MqttClient.cpp,
 * main/Mqtt.cpp) derive at construction: the device topic from the client
 * id, the broker URI, and the Will Message of section 3.1.2.5 of MQTT 3.1.1,
 * a retained "Offline" on "tele/<topic>/LWT" that the client itself answers
 * with a retained "Online" once connected.
 */
module MqttNames {
  import Decimal
  import opened Wrappers
  import Strings

  newtype Port = p: int | 0 <= p < 0x1_0000

  const DefaultPort: Port := 1883

  function Dash(c: char): (r: char)
    ensures c == '-' ==> r == '/'
    ensures c != '-' ==> r == c
  {
    if c == '-' then '/' else c
  }

  /** `toTopic` / `toBaseTopic`: every '-' of the client id becomes '/'. */
  function ToTopic(clientId: string): (topic: string)
    ensures |topic| == |clientId|
    ensures forall i :: 0 <= i < |clientId| ==> topic[i] == Dash(clientId[i])
  {
    if clientId == [] then [] else [Dash(clientId[0])] + ToTopic(clientId[1..])
  }

  /** A topic has no '-' left, so deriving it again changes nothing. */
  lemma ToTopicSettled(clientId: string)
    ensures '-' !in ToTopic(clientId)
    ensures ToTopic(ToTopic(clientId)) == ToTopic(clientId)
  {
    var t := ToTopic(clientId);
    forall i | 0 <= i < |t|
      ensures t[i] != '-'
    {
    }
    assert ToTopic(t) == t;
  }

  /** A client id with no '-' is its own topic. */
  lemma ToTopicKeepsPlain(clientId: string)
    requires '-' !in clientId
    ensures ToTopic(clientId) == clientId
  {
    forall i | 0 <= i < |clientId|
      ensures ToTopic(clientId)[i] == clientId[i]
    {
      assert clientId[i] in clientId;
    }
  }

  /** `str("mqtt://", host, ":", port)`. */
  function BrokerUri(host: string, port: Port): string {
    Strings.Str([Strings.Text("mqtt://"), Strings.Text(host), Strings.Text(":"), Strings.Number(port as int)])
  }

  /** `str("tele/", topic, "/LWT")`. */
  function WillTopic(topic: string): string {
    Strings.Str([Strings.Text("tele/"), Strings.Text(topic), Strings.Text("/LWT")])
  }

  /** The URI is the scheme, the host, a colon and the port's decimal form. */
  lemma BrokerUriShape(host: string, port: Port)
    ensures BrokerUri(host, port) == "mqtt://" + host + ":" + Decimal.Render(port as int)
  {
    var n := Strings.Number(port as int);
    var a, b := [Strings.Text("mqtt://"), Strings.Text(host)], [Strings.Text(":"), n];
    assert a + b == [Strings.Text("mqtt://"), Strings.Text(host), Strings.Text(":"), n];
    Strings.StrAppend(a, b);
    Strings.StrTexts("mqtt://", host);
    assert [Strings.Text(":")] + [n] == b;
    Strings.StrAppend([Strings.Text(":")], [n]);

  }

  /** The port reads back from the URI: what follows "mqtt://", the host and ':' parses to it. */
  lemma BrokerUriPort(host: string, port: Port)
    ensures var u := BrokerUri(host, port);
            8 + |host| < |u| && Decimal.Parse(u[8 + |host|..]) == Some(port as int)
  {
    BrokerUriShape(host, port);
    var r := Decimal.Render(port as int);
    assert ("mqtt://" + host + ":" + r)[8 + |host|..] == r;
    Decimal.ParseRender(port as int);
  }

  /** The will topic is "tele/", the device topic and "/LWT". */
  lemma WillTopicShape(topic: string)
    ensures WillTopic(topic) == "tele/" + topic + "/LWT"
  {
    var a := [Strings.Text("tele/"), Strings.Text(topic)];
    assert a + [Strings.Text("/LWT")] == [Strings.Text("tele/"), Strings.Text(topic), Strings.Text("/LWT")];
    Strings.StrAppend(a, [Strings.Text("/LWT")]);
    Strings.StrTexts("tele/", topic);
  }

  /** Distinct device topics have distinct will topics. */
  lemma WillTopicInjective(t: string, u: string)
    requires WillTopic(t) == WillTopic(u)
    ensures t == u
  {
    WillTopicShape(t);
    WillTopicShape(u);
    assert |t| == |u|;
    assert t == WillTopic(t)[5..5 + |t|];
  }

  /** The Will Message registered with the broker. */
  datatype Will = Will(topic: string, message: string, retain: bool)

  function LastWill(topic: string): (w: Will)
    ensures w.topic == WillTopic(topic) && w.message == "Offline" && w.retain
  {
    Will(WillTopic(topic), "Offline", true)
  }

  /** What a client asks of the ESP-IDF MQTT client; the broker side is not modelled. */
  datatype Request =
    | Start
    | Stop
    | Publish(topic: string, payload: string, retain: bool)
    | Subscribe(topic: string)

  /** One SUBSCRIBE per topic, in the given order. */
  function Subscribes(topics: seq<string>): (rs: seq<Request>)
    ensures |rs| == |topics|
    ensures forall i :: 0 <= i < |topics| ==> rs[i] == Subscribe(topics[i])
  {
    if topics == [] then [] else [Subscribe(topics[0])] + Subscribes(topics[1..])
  }

  /** A handler invoked with a payload. */
  datatype Call = Call(handler: nat, payload: string)

  /** Each handler invoked once with the same payload, in the given order. */
  function Calls(handlers: seq<nat>, payload: string): (cs: seq<Call>)
    ensures |cs| == |handlers|
    ensures forall i :: 0 <= i < |handlers| ==> cs[i] == Call(handlers[i], payload)
  {
    if handlers == [] then [] else [Call(handlers[0], payload)] + Calls(handlers[1..], payload)
  }
}
