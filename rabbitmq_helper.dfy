/** The shared broker client: one connection and one channel per process, opened
    by `connect` and released by `close`. Every operation reaches the channel
    through a guard that fails fast when there is none. What the helper asks of
    the broker is recorded, in order, in `calls`. */
module RabbitMQ {
  import opened Values

  /** A connection or channel object handed out by the broker library. */
  datatype Handle = Handle(id: int)

  /** What `amqp.connect` and `createChannel` did when `connect` called them. */
  datatype ConnectAttempt =
    | Refused                                  // amqp.connect threw
    | ChannelRefused(connection: Handle)       // connected, then createChannel threw
    | Opened(connection: Handle, channel: Handle)

  /** A request made to the broker library, on the channel it was made on. */
  datatype Call =
    | ExchangeAsserted(channel: Handle, exchange: string, kind: string, durable: bool)
    | QueueAsserted(channel: Handle, queue: string, durable: bool)
    | QueueBound(channel: Handle, queue: string, exchange: string, routingKey: string)
    | Published(channel: Handle, exchange: string, routingKey: string, body: string)
    | Consuming(channel: Handle, queue: string, noAck: bool)
    | Acked(channel: Handle, deliveryTag: int)
    | Nacked(channel: Handle, deliveryTag: int, allUpTo: bool, requeue: bool)
    | ChannelClosed(channel: Handle)
    | ConnectionClosed(connection: Handle)

  const ChannelNotInitialized := "Channel not initialized. Call connect() first."
  const DefaultExchangeType := "topic"

  /** How an operation of the helper ended: normally, with the guard's error, or
      with an error thrown by the broker library. */
  datatype Outcome = Done | Thrown(message: string) | LibraryFailed

  /** A message delivered to a consumer, by its delivery tag. */
  datatype Delivery = Delivery(deliveryTag: int)

  /** A registered consumer: the queue and the channel its callback captured. */
  datatype Consumer = Consumer(queue: string, channel: Handle)

  class RabbitMQHelper {
    var connection: Option<Handle>
    var channel: Option<Handle>
    var uri: Option<string>
    var calls: seq<Call>

    constructor (uri: string)
      ensures connection == None && channel == None
      ensures this.uri == Some(uri) && calls == []
    {
      connection := None;
      channel := None;
      this.uri := Some(uri);
      calls := [];
    }

    /** `connect`: nothing to do when both handles are set. Otherwise the
        connection is replaced first and the channel second, so a refused
        channel leaves the new connection in place and the old channel as it
        was. */
    method Connect(attempt: ConnectAttempt) returns (outcome: Outcome)
      modifies this
      ensures uri == old(uri) && calls == old(calls)
      ensures old(connection.Some? && channel.Some?) ==>
        outcome == Done && connection == old(connection) && channel == old(channel)
      ensures !old(connection.Some? && channel.Some?) ==>
        match attempt
        case Refused =>
          outcome == LibraryFailed && connection == old(connection) && channel == old(channel)
        case ChannelRefused(c) =>
          outcome == LibraryFailed && connection == Some(c) && channel == old(channel)
        case Opened(c, ch) =>
          outcome == Done && connection == Some(c) && channel == Some(ch)
    {
      if connection.Some? && channel.Some? {
        return Done;
      }
      match attempt
      case Refused =>
        outcome := LibraryFailed;
      case ChannelRefused(c) =>
        connection := Some(c);
        outcome := LibraryFailed;
      case Opened(c, ch) =>
        connection := Some(c);
        channel := Some(ch);
        outcome := Done;
    }

    /** `assertExchange`; an omitted type means a topic exchange. Always durable. */
    method AssertExchange(exchange: string, kind: Option<string>) returns (outcome: Outcome)
      modifies this
      ensures connection == old(connection) && channel == old(channel) && uri == old(uri)
      ensures channel.None? ==> outcome == Thrown(ChannelNotInitialized) && calls == old(calls)
      ensures channel.Some? ==>
        var k := if kind.Some? then kind.value else DefaultExchangeType;
        outcome == Done && calls == old(calls) + [ExchangeAsserted(channel.value, exchange, k, true)]
    {
      if channel.None? {
        return Thrown(ChannelNotInitialized);
      }
      var k := if kind.Some? then kind.value else DefaultExchangeType;
      calls := calls + [ExchangeAsserted(channel.value, exchange, k, true)];
      outcome := Done;
    }

    /** `assertQueue`: always durable. */
    method AssertQueue(queue: string) returns (outcome: Outcome)
      modifies this
      ensures connection == old(connection) && channel == old(channel) && uri == old(uri)
      ensures channel.None? ==> outcome == Thrown(ChannelNotInitialized) && calls == old(calls)
      ensures channel.Some? ==> outcome == Done && calls == old(calls) + [QueueAsserted(channel.value, queue, true)]
    {
      if channel.None? {
        return Thrown(ChannelNotInitialized);
      }
      calls := calls + [QueueAsserted(channel.value, queue, true)];
      outcome := Done;
    }

    /** `bindQueue`. */
    method BindQueue(queue: string, exchange: string, routingKey: string) returns (outcome: Outcome)
      modifies this
      ensures connection == old(connection) && channel == old(channel) && uri == old(uri)
      ensures channel.None? ==> outcome == Thrown(ChannelNotInitialized) && calls == old(calls)
      ensures channel.Some? ==>
        outcome == Done && calls == old(calls) + [QueueBound(channel.value, queue, exchange, routingKey)]
    {
      if channel.None? {
        return Thrown(ChannelNotInitialized);
      }
      calls := calls + [QueueBound(channel.value, queue, exchange, routingKey)];
      outcome := Done;
    }

    /** `publish`: declares the exchange as a durable topic exchange, then
        publishes the serialised message `body` on it. */
    method Publish(exchange: string, routingKey: string, body: string) returns (outcome: Outcome)
      modifies this
      ensures connection == old(connection) && channel == old(channel) && uri == old(uri)
      ensures channel.None? ==> outcome == Thrown(ChannelNotInitialized) && calls == old(calls)
      ensures channel.Some? ==>
        outcome == Done && calls == old(calls) + [
          ExchangeAsserted(channel.value, exchange, DefaultExchangeType, true),
          Published(channel.value, exchange, routingKey, body)]
    {
      if channel.None? {
        return Thrown(ChannelNotInitialized);
      }
      var ch := channel.value;
      calls := calls + [ExchangeAsserted(ch, exchange, DefaultExchangeType, true)];
      calls := calls + [Published(ch, exchange, routingKey, body)];
      outcome := Done;
    }

    /** `consume`: registers a callback, with manual acknowledgement, on the
        channel there is now. The callback itself is `OnMessage`. */
    method Consume(queue: string) returns (outcome: Outcome, consumer: Option<Consumer>)
      modifies this
      ensures connection == old(connection) && channel == old(channel) && uri == old(uri)
      ensures channel.None? ==> outcome == Thrown(ChannelNotInitialized) && consumer.None? && calls == old(calls)
      ensures channel.Some? ==>
        && outcome == Done && consumer == Some(Consumer(queue, channel.value))
        && calls == old(calls) + [Consuming(channel.value, queue, false)]
    {
      if channel.None? {
        return Thrown(ChannelNotInitialized), None;
      }
      calls := calls + [Consuming(channel.value, queue, false)];
      outcome, consumer := Done, Some(Consumer(queue, channel.value));
    }

    /** The consume callback for one delivery: ack when the handler returns,
        negative-ack with requeue when it throws, and nothing for a null
        delivery. It uses the channel captured by `Consume`. */
    method OnMessage(consumer: Consumer, delivery: Option<Delivery>, handlerThrew: bool)
      modifies this
      ensures connection == old(connection) && channel == old(channel) && uri == old(uri)
      ensures delivery.None? ==> calls == old(calls)
      ensures delivery.Some? && !handlerThrew ==>
        calls == old(calls) + [Acked(consumer.channel, delivery.value.deliveryTag)]
      ensures delivery.Some? && handlerThrew ==>
        calls == old(calls) + [Nacked(consumer.channel, delivery.value.deliveryTag, false, true)]
      ensures forall tag ::
        Settled(calls, tag) == Settled(old(calls), tag) + (if delivery.Some? && delivery.value.deliveryTag == tag then 1 else 0)
    {
      if delivery.Some? {
        var c;
        if !handlerThrew {
          c := Acked(consumer.channel, delivery.value.deliveryTag);
        } else {
          c := Nacked(consumer.channel, delivery.value.deliveryTag, false, true);
        }
        forall tag ensures Settled(calls + [c], tag) ==
          Settled(calls, tag) + (if delivery.value.deliveryTag == tag then 1 else 0) {
          SettledAppend(calls, c, tag);
        }
        calls := calls + [c];
      }
    }

    /** `close`: closes and forgets the channel, then the connection, each only
        when it is set. */
    method Close()
      modifies this
      ensures connection == None && channel == None && uri == old(uri)
      ensures calls == old(calls)
        + (if old(channel).Some? then [ChannelClosed(old(channel).value)] else [])
        + (if old(connection).Some? then [ConnectionClosed(old(connection).value)] else [])
    {
      if channel.Some? {
        calls := calls + [ChannelClosed(channel.value)];
        channel := None;
      }
      if connection.Some? {
        calls := calls + [ConnectionClosed(connection.value)];
        connection := None;
      }
    }
  }

  /** How many times a log of calls acknowledges (positively or negatively) the
      delivery with this tag. */
  function Settled(calls: seq<Call>, tag: int): (n: nat)
    ensures n <= |calls|
    ensures n == 0 <==> forall i :: 0 <= i < |calls| ==>
      !(calls[i].Acked? && calls[i].deliveryTag == tag) && !(calls[i].Nacked? && calls[i].deliveryTag == tag)
  {
    if calls == [] then 0
    else
      var here := if (calls[0].Acked? || calls[0].Nacked?) && calls[0].deliveryTag == tag then 1 else 0;
      assert forall i :: 1 <= i < |calls| ==> calls[1..][i - 1] == calls[i];
      here + Settled(calls[1..], tag)
  }

  /** Appending one acknowledgement settles that delivery once more and no other. */
  lemma {:induction false} SettledAppend(calls: seq<Call>, c: Call, tag: int)
    ensures Settled(calls + [c], tag)
         == Settled(calls, tag) + (if (c.Acked? || c.Nacked?) && c.deliveryTag == tag then 1 else 0)
  {
    if calls != [] {
      assert (calls + [c])[1..] == calls[1..] + [c];
      SettledAppend(calls[1..], c, tag);
    }
  }
}
