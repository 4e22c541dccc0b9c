/** Properties of the registry across operations: the reachable-state
    invariant, the effect of removal on order, idempotence of a repeated
    `Unsubscribe`, exactly-once fan-out, and the scenarios of the package's
    tests. */
module Properties {
  import opened Lists
  import opened PubSub
  import opened Handler

  /** `Subscribe` keeps the invariant: the new channel is fresh, so it is
      open and listed once. */
  lemma SubscribePreservesValid<T>(b: Broker<T>, topic: Topic)
    requires Valid(b)
    ensures Valid(Subscribe(b, topic).0)
  {
    var (b', e) := Subscribe(b, topic);
    NoDupAppend(Listed(b, topic), e);
    forall t | t in b'.subscribers ensures b'.subscribers[t] == Listed(b', t) {
    }
    forall t, x | t in b'.subscribers && x in b'.subscribers[t] && x != e
      ensures x in Listed(b, t)
    {
    }
  }

  /** `Unsubscribe` keeps the invariant: the closed channel is no longer
      listed under any topic. */
  lemma UnsubscribePreservesValid<T>(b: Broker<T>, topic: Topic, e: Endpoint)
    requires Valid(b)
    ensures Valid(Unsubscribe(b, topic, e))
  {
    var b' := Unsubscribe(b, topic, e);
    if e in Listed(b, topic) {
      RemoveFirstNoDup(Listed(b, topic), e);
      forall t, x | t in b'.subscribers && x in b'.subscribers[t]
        ensures x in b.subscribers[t] && x != e
      {
        assert e in b.subscribers[topic];
      }
    }
  }

  /** `Publish` keeps the invariant: it only writes to listed channels. */
  lemma PublishPreservesValid<T>(b: Broker<T>, topic: Topic, m: T)
    requires Valid(b)
    ensures Valid(Publish(b, topic, m))
  {
    var b' := Publish(b, topic, m);
    forall e | e in b'.inbox ensures e < b'.next {
      if e !in b.inbox {
        assert topic in b.subscribers && e in b.subscribers[topic];
        assert e !in b.closed && e < b.next;
      }
    }
  }

  /** `SubscribeWithHandler` keeps the invariant. */
  lemma SubscribeWithHandlerPreservesValid<T>(b: Broker<T>, topic: Topic)
    requires Valid(b)
    ensures Valid(SubscribeWithHandler(b, topic).0)
  {
    SubscribePreservesValid(b, topic);
  }

  /** A cancel function of this broker keeps the invariant when it does not
      panic. */
  lemma CancelPreservesValid<T>(b: Broker<T>, s: Subscription)
    requires Valid(b)
    requires s.endpoint < b.next
    ensures Cancel(b, s).Ok? ==> Valid(Cancel(b, s).broker)
  {
    if s.endpoint !in b.quit {
      var b1 := b.(quit := b.quit + {s.endpoint});
      UnsubscribePreservesValid(b1, s.topic, s.endpoint);
    }
  }

  /** Freshness of the channel `Subscribe` hands out: it is not listed,
      closed, quit or delivered to before the call, and it is listed under
      its own topic only after the call. */
  lemma SubscribeFresh<T>(b: Broker<T>, topic: Topic)
    requires Valid(b)
    ensures var (b', e) := Subscribe(b, topic);
            && Fresh(b, e)
            && (forall t :: e in Listed(b', t) <==> t == topic)
  {
  }

  /** `Unsubscribe` on a topic the map has never held changes nothing. */
  lemma UnsubscribeUnknownTopic<T>(b: Broker<T>, topic: Topic, e: Endpoint)
    requires topic !in b.subscribers
    ensures Unsubscribe(b, topic, e) == b
  {
  }

  /** On a reachable broker, `Unsubscribe` drops the channel from its topic,
      keeps the others in their order (the list filtered by the channel),
      closes it, and leaves every other topic alone. */
  lemma UnsubscribeKeepsOrder<T>(b: Broker<T>, topic: Topic, e: Endpoint)
    requires Valid(b)
    ensures Listed(Unsubscribe(b, topic, e), topic) == Without(Listed(b, topic), e)
    ensures forall t :: t != topic ==> Listed(Unsubscribe(b, topic, e), t) == Listed(b, t)
    ensures e in Listed(b, topic) <==> e in Unsubscribe(b, topic, e).closed - b.closed
  {
    if topic in b.subscribers {
      var s := b.subscribers[topic];
      RemoveFirstIsWithout(s, e);
      if e in s {
        assert e !in b.closed;
      }
    }
  }

  /** Unsubscribing twice is the same as unsubscribing once, so a channel is
      never closed a second time. */
  lemma UnsubscribeIdempotent<T>(b: Broker<T>, topic: Topic, e: Endpoint)
    requires Valid(b)
    ensures Unsubscribe(Unsubscribe(b, topic, e), topic, e) == Unsubscribe(b, topic, e)
  {
  }

  /** The channel `Unsubscribe` closes was open: the `close` never hits a
      closed channel on a reachable broker. */
  lemma UnsubscribeClosesOpenChannel<T>(b: Broker<T>, topic: Topic, e: Endpoint)
    requires Valid(b)
    requires e in Listed(b, topic)
    ensures e !in b.closed
    ensures e in Unsubscribe(b, topic, e).closed
    ensures forall t :: e !in Listed(Unsubscribe(b, topic, e), t)
  {
  }

  /** Subscribing and then unsubscribing the new channel restores every
      topic's list; the topic's key is left behind (with an empty list if
      it had none) and the channel stays closed. */
  lemma UnsubscribeUndoesSubscribe<T>(b: Broker<T>, topic: Topic)
    requires Valid(b)
    ensures var (b1, e) := Subscribe(b, topic);
            var b2 := Unsubscribe(b1, topic, e);
            && b2.subscribers == b.subscribers[topic := Listed(b, topic)]
            && (forall t :: Listed(b2, t) == Listed(b, t))
            && b2.closed == b.closed + {e}
            && b2.inbox == b.inbox
  {
    assert Fresh(b, b.next);
    UndoAppend(b, topic);
  }

  /** The list-level core of `UnsubscribeUndoesSubscribe`, for any channel
      identity the topic does not list yet. */
  lemma UndoAppend<T>(b: Broker<T>, topic: Topic)
    requires b.next !in Listed(b, topic)
    ensures var (b1, e) := Subscribe(b, topic);
            var b2 := Unsubscribe(b1, topic, e);
            && b2.subscribers == b.subscribers[topic := Listed(b, topic)]
            && (forall t :: Listed(b2, t) == Listed(b, t))
            && b2.closed == b.closed + {e}
            && b2.inbox == b.inbox
  {
    var s := Listed(b, topic);
    var e := b.next;
    RemoveFirstAppended(s, e);
  }

  /** On a reachable broker `Publish` hands exactly one copy of the message
      to each channel listed under the topic and nothing to any other. */
  lemma PublishExactlyOnce<T>(b: Broker<T>, topic: Topic, m: T)
    requires Valid(b)
    ensures forall e :: Received(Publish(b, topic, m), e) ==
              if e in Listed(b, topic) then Received(b, e) + [m] else Received(b, e)
  {
    forall e ensures Received(Publish(b, topic, m), e) ==
                       if e in Listed(b, topic) then Received(b, e) + [m] else Received(b, e)
    {
      if topic in b.subscribers {
        NoDupCount(b.subscribers[topic], e);
      }
    }
  }

  /** A channel subscribed to one topic gets nothing from a publish to
      another. */
  lemma PublishOtherTopic<T>(b: Broker<T>, topic: Topic, other: Topic, e: Endpoint, m: T)
    requires Valid(b)
    requires e in Listed(b, topic)
    requires other != topic
    ensures Received(Publish(b, other, m), e) == Received(b, e)
  {
  }

  /** After `Unsubscribe` the channel is closed and no later publish, on
      any topic, reaches it. */
  lemma NothingAfterUnsubscribe<T>(b: Broker<T>, topic: Topic, e: Endpoint, t: Topic, m: T)
    requires Valid(b)
    requires e in Listed(b, topic)
    ensures var b1 := Unsubscribe(b, topic, e);
            && e in b1.closed
            && Received(Publish(b1, t, m), e) == Received(b, e)
  {
  }

  /** Cancelling a fresh handler subscription succeeds, removes and closes
      its channel and leaves the topic's key behind; cancelling it again
      panics. */
  lemma CancelOnceThenPanic<T>(b: Broker<T>, topic: Topic)
    requires Valid(b)
    ensures var (b1, s) := SubscribeWithHandler(b, topic);
            && Cancel(b1, s).Ok?
            && (forall t :: Listed(Cancel(b1, s).broker, t) == Listed(b, t))
            && topic in Cancel(b1, s).broker.subscribers
            && s.endpoint in Cancel(b1, s).broker.closed
            && Cancel(Cancel(b1, s).broker, s) == Panic(CloseOfClosedChannel)
  {
  }

  /** The package test of `Subscribe`: a message published after
      subscribing reaches the channel. */
  lemma ScenarioSubscribe<T>(topic: Topic, m: T)
    ensures var (b1, e) := Subscribe(NewPubSub<T>(), topic);
            Received(Publish(b1, topic, m), e) == [m]
  {
  }

  /** The package test of `Unsubscribe`: the channel is closed, receives
      nothing from a later publish, and the topic stays in the map with an
      empty list. */
  lemma ScenarioUnsubscribe<T>(topic: Topic, m: T)
    ensures var (b1, e) := Subscribe(NewPubSub<T>(), topic);
            var b2 := Unsubscribe(b1, topic, e);
            && e in b2.closed
            && topic in b2.subscribers && b2.subscribers[topic] == []
            && Received(Publish(b2, topic, m), e) == []
  {
  }

  /** A channel subscribed after a publish gets nothing from it; one
      subscribed before is handed both, in the order of the publishes. */
  lemma ScenarioLateSubscriber<T>(topic: Topic, a: T, c: T)
    ensures var (b1, e1) := Subscribe(NewPubSub<T>(), topic);
            var b2 := Publish(b1, topic, a);
            var (b3, e2) := Subscribe(b2, topic);
            var b4 := Publish(b3, topic, c);
            Received(b4, e1) == [a, c] && Received(b4, e2) == [c]
  {
  }
}
