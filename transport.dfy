/**
 * The MQTT client the core talks to (paho's `Client`), reduced to what the
 * core sees of it: `subscribe` and `publish` each return a result code, and
 * the client keeps a log of the calls it received. Which code the broker
 * side answers is fixed when the client is made: `reply(k)` is the code of
 * the k-th call (counting from 0), so every scenario of successes and
 * failures is one choice of `reply`.
 */
module Transport {
  import opened Builtins

  /** paho's `MQTT_ERR_SUCCESS`. */
  const MQTT_ERR_SUCCESS: int := 0

  /** A call the core made on the client. */
  datatype Call =
    | Subscribe(topic: string)
    | Publish(topic: string, payload: Value, qos: int, retain: bool)

  class Client {
    /** The result code the client returns for its k-th call. */
    const reply: nat -> int
    /** Every call received so far, oldest first. */
    var log: seq<Call>

    /** The result code of the k-th call; it depends on k alone. */
    function Reply(k: nat): int
    {
      reply(k)
    }

    constructor (reply: nat -> int)
      ensures this.reply == reply && log == []
    {
      this.reply := reply;
      log := [];
    }

    /** `client.subscribe(topic)`: logs the request and returns its result code. */
    method Subscribe(topic: string) returns (rc: int)
      modifies this`log
      ensures log == old(log) + [Call.Subscribe(topic)]
      ensures rc == Reply(|old(log)|)
    {
      rc := reply(|log|);
      log := log + [Call.Subscribe(topic)];
    }

    /** `client.publish(topic, payload, qos, retain)`: logs the message and returns its result code. */
    method Publish(topic: string, payload: Value, qos: int, retain: bool) returns (rc: int)
      modifies this`log
      ensures log == old(log) + [Call.Publish(topic, payload, qos, retain)]
      ensures rc == Reply(|old(log)|)
    {
      rc := reply(|log|);
      log := log + [Call.Publish(topic, payload, qos, retain)];
    }
  }

  /** The client calls of a run of subscriptions. */
  function SubscribeCalls(topics: seq<string>): (r: seq<Call>)
    ensures |r| == |topics|
    ensures forall j | 0 <= j < |topics| :: r[j] == Call.Subscribe(topics[j])
  {
    if topics == [] then []
    else SubscribeCalls(topics[..|topics| - 1]) + [Call.Subscribe(topics[|topics| - 1])]
  }
}
