/** The subscription registry of the generic broker `pubSub[T]`.

    A Go channel made by `make(chan T, 1)` is represented by a natural-number
    endpoint drawn from the counter `next`; closing it adds it to `closed`.
    Every send a `Publish` goroutine starts is recorded in the endpoint's
    `inbox` as if it completed at once, so the inbox lists the messages
    handed to the channel in the order of the publishes. Every operation is
    one atomic step. */
module PubSub {
  import opened Lists

  type Topic = string

  /** Identity of a subscriber channel. */
  type Endpoint = nat

  datatype Broker<T> = Broker(
    subscribers: map<Topic, seq<Endpoint>>,  // topic -> channels, in subscription order
    closed: set<Endpoint>,                   // channels that have been closed
    quit: set<Endpoint>,                     // handler channels whose quit signal was closed
    inbox: map<Endpoint, seq<T>>,            // messages handed to each channel so far
    next: Endpoint)                          // the identity the next `make` returns

  /** The list a Go map read `ps.subscribers[topic]` yields: the stored slice,
      or the nil slice when the key is absent. */
  function Listed<T>(b: Broker<T>, topic: Topic): seq<Endpoint> {
    if topic in b.subscribers then b.subscribers[topic] else []
  }

  /** Messages handed to `e` so far, in a delivery map. */
  function Inbox<T>(inbox: map<Endpoint, seq<T>>, e: Endpoint): seq<T> {
    if e in inbox then inbox[e] else []
  }

  /** Messages handed to `e` so far. */
  function Received<T>(b: Broker<T>, e: Endpoint): seq<T> {
    Inbox(b.inbox, e)
  }

  /** `e` is not listed, closed, quit or delivered to in this broker. */
  ghost predicate Fresh<T>(b: Broker<T>, e: Endpoint) {
    && e !in b.closed
    && e !in b.quit
    && (forall t :: t in b.subscribers ==> e !in b.subscribers[t])
    && Received(b, e) == []
  }

  /** The invariant of every reachable broker: listed channels are open and
      each is listed once across all topics; every identity in use was
      handed out by the counter. */
  ghost predicate Valid<T>(b: Broker<T>) {
    && (forall t :: t in b.subscribers ==> NoDup(b.subscribers[t]))
    && (forall t, u, e ::
          t in b.subscribers && u in b.subscribers && e in b.subscribers[t] && e in b.subscribers[u]
          ==> t == u)
    && (forall t, e :: t in b.subscribers && e in b.subscribers[t] ==>
          e !in b.closed && e < b.next)
    && (forall e :: e in b.closed ==> e < b.next)
    && (forall e :: e in b.quit ==> e < b.next)
    && (forall e :: e in b.inbox ==> e < b.next)
  }

  /** `NewPubSub`: an empty registry with nothing closed or delivered. */
  function NewPubSub<T>(): (b: Broker<T>)
    ensures b.subscribers == map[]
    ensures forall t :: Listed(b, t) == []
    ensures forall e :: Received(b, e) == [] && e !in b.closed
    ensures Valid(b)
  {
    Broker(map[], {}, {}, map[], 0)
  }

  /** `Subscribe`: makes a new channel and appends it to the topic's list,
      creating the list when the topic has none. Returns the new broker and
      the channel. */
  function Subscribe<T>(b: Broker<T>, topic: Topic): (r: (Broker<T>, Endpoint))
    ensures r.0.subscribers.Keys == b.subscribers.Keys + {topic}
    ensures Listed(r.0, topic) == Listed(b, topic) + [r.1]
    ensures forall t :: t != topic ==> Listed(r.0, t) == Listed(b, t)
    ensures r.0.closed == b.closed && r.0.quit == b.quit && r.0.inbox == b.inbox
    ensures Valid(b) ==> Fresh(b, r.1)
  {
    var e := b.next;
    (b.(subscribers := b.subscribers[topic := Listed(b, topic) + [e]], next := e + 1), e)
  }

  /** `Unsubscribe`: scans the topic's list for the channel, cuts out the
      first match and closes it. An unknown topic or a channel not in the
      list leaves the broker as it is. The key stays in the map even when
      its list becomes empty. */
  function Unsubscribe<T>(b: Broker<T>, topic: Topic, e: Endpoint): (r: Broker<T>)
    ensures e !in Listed(b, topic) ==> r == b
    ensures e in Listed(b, topic) ==>
              && r.subscribers == b.subscribers[topic := RemoveFirst(Listed(b, topic), e)]
              && r.closed == b.closed + {e}
    ensures r.subscribers.Keys == b.subscribers.Keys
    ensures r.quit == b.quit && r.inbox == b.inbox && r.next == b.next
  {
    if topic !in b.subscribers then b
    else
      match FirstIndex(b.subscribers[topic], e)
      case None => b
      case Some(i) =>
        b.(subscribers := b.subscribers[topic := RemoveAt(b.subscribers[topic], i)],
           closed := b.closed + {e})
  }

  /** The fan-out loop of `Publish`: one send of `m` per list entry. An
      endpoint gets one copy for every time it is listed. */
  function Fanout<T>(inbox: map<Endpoint, seq<T>>, targets: seq<Endpoint>, m: T)
    : (r: map<Endpoint, seq<T>>)
    ensures forall e :: Inbox(r, e) == Inbox(inbox, e) + Repeat(m, Count(targets, e))
    ensures forall e :: e in r ==> e in inbox || e in targets
    decreases |targets|
  {
    if |targets| == 0 then inbox
    else
      var e0 := targets[0];
      var r := Fanout(inbox[e0 := Inbox(inbox, e0) + [m]], targets[1..], m);
      FanoutStep(inbox, targets, m);
      r
  }

  /** One send followed by the rest of the fan-out adds up to the copies
      owed for the whole list. */
  lemma FanoutStep<T>(inbox: map<Endpoint, seq<T>>, targets: seq<Endpoint>, m: T)
    requires |targets| > 0
    ensures forall e ::
      Inbox(inbox[targets[0] := Inbox(inbox, targets[0]) + [m]], e) + Repeat(m, Count(targets[1..], e))
      == Inbox(inbox, e) + Repeat(m, Count(targets, e))
    ensures forall e :: e in targets[1..] ==> e in targets
  {
  }

  /** `Publish`: hands `m` to every channel listed under the topic at the
      time of the call. The registry itself is left alone. */
  function Publish<T>(b: Broker<T>, topic: Topic, m: T): (r: Broker<T>)
    ensures r.subscribers == b.subscribers && r.closed == b.closed
    ensures r.quit == b.quit && r.next == b.next
    ensures forall e :: Received(r, e) == Received(b, e) + Repeat(m, Count(Listed(b, topic), e))
    ensures forall e :: e in r.inbox ==> e in b.inbox || e in Listed(b, topic)
  {
    if topic !in b.subscribers then b
    else b.(inbox := Fanout(b.inbox, b.subscribers[topic], m))
  }
}
