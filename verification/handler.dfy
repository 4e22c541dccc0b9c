/** `SubscribeWithHandler` and the cancel function it returns, reduced to
    their effect on the registry. The inbox records what was handed to the
    handler's channel; the calls the dispatch goroutine makes to the handler
    are not modelled. */
module Handler {
  import opened PubSub

  /** What the returned cancel closure captures: the topic and the private
      channel registered for the handler. Its quit channel is keyed by the
      same endpoint in `Broker.quit`. */
  datatype Subscription = Subscription(topic: Topic, endpoint: Endpoint)

  /** Result of calling a cancel function: the new broker, or the Go runtime
      panic it raises. */
  datatype Outcome<T> = Ok(broker: Broker<T>) | Panic(message: string)

  /** The Go runtime's message when a channel is closed twice. */
  const CloseOfClosedChannel: string := "close of closed channel"

  /** `SubscribeWithHandler`: the same insertion as `Subscribe`, returning
      the subscription its cancel closure acts on. */
  function SubscribeWithHandler<T>(b: Broker<T>, topic: Topic): (r: (Broker<T>, Subscription))
    ensures r.1.topic == topic
    ensures r.0.subscribers.Keys == b.subscribers.Keys + {topic}
    ensures Listed(r.0, topic) == Listed(b, topic) + [r.1.endpoint]
    ensures forall t :: t != topic ==> Listed(r.0, t) == Listed(b, t)
    ensures r.0.closed == b.closed && r.0.quit == b.quit && r.0.inbox == b.inbox
    ensures Valid(b) ==> Fresh(b, r.1.endpoint)
  {
    var (b', e) := Subscribe(b, topic);
    (b', Subscription(topic, e))
  }

  /** The cancel closure: closes the quit channel, which panics when it was
      already closed, then unsubscribes the handler's channel. */
  function Cancel<T>(b: Broker<T>, s: Subscription): (r: Outcome<T>)
    ensures r.Panic? <==> s.endpoint in b.quit
    ensures r.Panic? ==> r.message == CloseOfClosedChannel
    ensures r.Ok? ==>
              && r.broker.quit == b.quit + {s.endpoint}
              && r.broker.subscribers == Unsubscribe(b, s.topic, s.endpoint).subscribers
              && r.broker.closed == Unsubscribe(b, s.topic, s.endpoint).closed
              && r.broker.inbox == b.inbox && r.broker.next == b.next
  {
    if s.endpoint in b.quit then Panic(CloseOfClosedChannel)
    else Ok(Unsubscribe(b.(quit := b.quit + {s.endpoint}), s.topic, s.endpoint))
  }
}
