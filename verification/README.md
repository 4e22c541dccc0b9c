# Subscription registry of `basic-pubsub-lib`, modelled in Dafny

This project models the in-process publish/subscribe broker `pubSub[T]` of
`pubsub/pubsub.go`. It covers the registry (a map from topic to an ordered
list of subscriber channels) and the operations that read and change it:
`NewPubSub`, `Subscribe`, `SubscribeWithHandler` with the cancel function it
returns, `Unsubscribe`, and the fan-out part of `Publish`.

The model is sequential and purely functional. Each operation is one atomic
step on an immutable `Broker<T>` value:

- `subscribers: map<Topic, seq<Endpoint>>` is the registry. A channel made by
  `make(chan T, 1)` is a natural-number `Endpoint`, taken from the counter
  `next`, so every new channel has an identity no other channel of this
  broker had. Identities are not distinct across two brokers, unlike Go
  channels.
- `closed` is the set of channels that have been closed.
- `quit` is the set of handler subscriptions whose quit channel has been
  closed by their cancel function.
- `inbox` records, per channel, the messages handed to the channel by the
  sends `Publish` starts. Each send counts as done when `Publish` runs, so
  the inbox is in the order of the publishes. Go itself gives no such
  order.

`Valid` is the invariant of every reachable broker. Each list is free of
duplicates. No channel is listed under two topics. No listed channel is
closed. Every identity in use is below `next`. `NewPubSub` establishes it,
and every operation preserves it. Facts that only hold of reachable brokers,
such as freshness or exactly-once delivery, are lemmas that assume `Valid`.
The operations themselves are total.

Modules:

- `Lists` (`lists.dfy`): first-match search, removal of the first match,
  occurrence counting and duplicate freedom on sequences.
- `PubSub` (`pubsub.dfy`): the broker state and `NewPubSub`, `Subscribe`,
  `Unsubscribe` and `Publish`.
- `Handler` (`handler.dfy`): `SubscribeWithHandler` and its cancel function.
- `Properties` (`properties.dfy`): preservation of the invariant, order,
  idempotence, exactly-once fan-out, and the scenarios of
  `pubsub/pubsub_test.go`.

The model follows the source where a guarded design would differ. Ideally a
second call of a handler's cancel function would be harmless. In the source,
the cancel function calls `close(chQuit)` without a guard, so a second call
panics with "close of closed channel". `Handler.Cancel` returns that panic, and
`Properties.CancelOnceThenPanic` proves it happens on the second call.

Another quirk is kept on purpose. When the last channel of a topic is
unsubscribed, the topic's key stays in the map with an empty list, because
the source never deletes a key.

## Model

| member | source | states |
|---|---|---|
| Lists.FirstIndex | pubsub/pubsub.go:100-101 | the scan finds nothing exactly when the channel is absent; otherwise it returns a position holding the channel with no earlier match |
| Lists.RemoveFirst | pubsub/pubsub.go:100-104 | an absent channel leaves the list unchanged; otherwise the result is the list with its first entry equal to the channel cut out, and the other entries keep their order; the multiset loses one copy of the channel |
| Lists.RemoveFirstIsWithout | pubsub/pubsub.go:102 | on a duplicate-free list, removing the first match equals filtering the channel out, so the remaining channels keep their relative order |
| PubSub.NewPubSub | pubsub/pubsub.go:24-28 | the new broker's map has no keys at all, so no topic lists a channel; it has closed and delivered nothing, and satisfies the invariant |
| PubSub.Subscribe | pubsub/pubsub.go:51-58 | the topic's key exists afterwards and its list is the old list (empty if absent) plus the new channel at the end; every other topic's list, the closed set and all inboxes are unchanged; on a valid broker the channel is fresh |
| PubSub.Unsubscribe | pubsub/pubsub.go:91-107 | a channel not listed under the topic (including an unknown topic) leaves the broker unchanged; otherwise only that topic's list changes, by removing the first match, and the channel becomes closed; the key set never changes |
| PubSub.Fanout | pubsub/pubsub.go:127-131 | after one send per list entry, each channel's inbox is the old inbox followed by as many copies of the message as the channel has entries in the list; only listed channels gain inboxes |
| PubSub.Publish | pubsub/pubsub.go:122-131 | the registry and closed set are untouched; each channel's inbox grows by one copy of the message per entry it has under the topic; a topic absent from the map delivers nothing |
| Handler.SubscribeWithHandler | pubsub/pubsub.go:63-70 | the registry effect is the same as Subscribe's: the handler's channel is appended to the topic's list, nothing else changes, and the channel is fresh on a valid broker |
| Handler.Cancel | pubsub/pubsub.go:83-86 | cancel panics with "close of closed channel" exactly when its quit channel is already closed; otherwise it marks the quit channel closed and has Unsubscribe's effect on the registry and the closed set |
| Properties.SubscribePreservesValid | pubsub/pubsub.go:55-56 | Subscribe keeps every list duplicate-free and every channel listed under one topic only, with no listed channel closed |
| Properties.UnsubscribePreservesValid | pubsub/pubsub.go:100-106 | Unsubscribe keeps the invariant: the channel it closes is no longer listed anywhere |
| Properties.PublishPreservesValid | pubsub/pubsub.go:122-131 | Publish keeps the invariant |
| Properties.SubscribeWithHandlerPreservesValid | pubsub/pubsub.go:63-70 | SubscribeWithHandler keeps the invariant |
| Properties.CancelPreservesValid | pubsub/pubsub.go:83-86 | a cancel of a subscription this broker issued keeps the invariant when it does not panic |
| Properties.SubscribeFresh | pubsub/pubsub.go:55 | before the call, the channel Subscribe returns is not listed, closed, quit or delivered to; afterwards it is listed under its own topic and no other |
| Properties.UnsubscribeUnknownTopic | pubsub/pubsub.go:95-98 | Unsubscribe on a topic absent from the map returns the broker unchanged |
| Properties.UnsubscribeKeepsOrder | pubsub/pubsub.go:100-106 | on a valid broker the topic's new list is the old one with the channel filtered out, in the same order; other topics are unchanged; the channel is newly closed exactly when it was listed |
| Properties.UnsubscribeIdempotent | pubsub/pubsub.go:100-106 | a second Unsubscribe of the same channel and topic changes nothing, so no channel is closed twice |
| Properties.UnsubscribeClosesOpenChannel | pubsub/pubsub.go:101-103 | the channel Unsubscribe closes was open before, is closed after, and is then listed under no topic |
| Properties.UnsubscribeUndoesSubscribe | pubsub/pubsub.go:100-104 | subscribing and then unsubscribing the new channel restores every topic's list, leaves the topic's key in the map, and leaves the channel closed |
| Properties.PublishExactlyOnce | pubsub/pubsub.go:127-131 | on a valid broker, Publish appends exactly one copy of the message to each channel listed under the topic and changes no other channel's inbox |
| Properties.PublishOtherTopic | pubsub/pubsub.go:122-131 | a channel listed under one topic receives nothing from a publish to a different topic |
| Properties.NothingAfterUnsubscribe | pubsub/pubsub_test.go:42-51 | after Unsubscribe the channel is closed and a later publish on any topic hands it nothing |
| Properties.CancelOnceThenPanic | pubsub/pubsub.go:83-86 | the first cancel of a new handler subscription succeeds, restores every topic's list, keeps the topic's key and closes the channel; a second cancel panics |
| Properties.ScenarioSubscribe | pubsub/pubsub_test.go:11-21 | subscribe then publish on a new broker: the channel has received exactly that message |
| Properties.ScenarioUnsubscribe | pubsub/pubsub_test.go:42-51 | subscribe then unsubscribe on a new broker: the channel is closed, the topic maps to an empty list, and a later publish hands it nothing |
| Properties.ScenarioLateSubscriber | pubsub/pubsub.go:127-131 | a channel subscribed after a publish is not a target of that publish's sends; one subscribed before is handed both messages, listed in the model's publish order |

## Left out

- The audit file writer. `ActiveFileWriter`, `CloseFileWriter` and the write at the start of `Publish` (pubsub/pubsub.go:116-120) are file I/O, wall-clock formatting and `fmt` rendering, including their panics.
- Goroutines and `sync.RWMutex`. Every operation is one atomic step, and every send a `Publish` goroutine starts counts as completed at once.
- Order across publishes. Each send runs in its own goroutine, so two publishes to a channel nobody drains start two unordered sends, and a receiver can get the later message first. The inbox order, and the order in `Properties.ScenarioLateSubscriber`, come from the atomic sends.
- Channel capacity and blocking. A send to a full channel blocks only its own goroutine, so the inbox records every hand-off, with no buffer bound.
- The dispatch goroutine of `SubscribeWithHandler`, with its `select` on the message and quit channels. The inbox is what was handed to the handler's channel, not the handler's calls. Stopping the goroutine is represented only by the `quit` set.
- Handler calls at cancellation. Cancel closes the quit channel and then the message channel, so both cases of the `select` are ready and Go picks one at random. A message still buffered can be dropped, and receiving from the closed channel can call the handler with T's zero value one or more times. The model does not follow the handler's calls.
- The send on a closed channel. A single caller triggers it: Subscribe, Publish twice, then Unsubscribe without receiving leaves a delivery goroutine blocked on the full channel, and its send panics once the channel is closed. The model records every send as done when `Publish` runs, so it has no pending sends and does not express this panic.
- Receiving from a channel. A closed channel is represented by membership in `closed`.
- `interfaces/pubsub.go`, because it only declares the method set.
- PubSub.Subscribe: freshness of the returned channel is stated only for brokers satisfying `Valid`. In Go, `make` always returns a new channel. Here the counter is fresh only while every identity in use stays below it, which holds for every reachable broker.
- Handler.SubscribeWithHandler: freshness is stated only for brokers satisfying `Valid`, for the same reason.
- Properties.CancelPreservesValid: assumes the subscription was issued by this broker, with its endpoint below `next`. A cancel function exists only as the result of `SubscribeWithHandler`.
