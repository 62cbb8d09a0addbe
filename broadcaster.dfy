/** The broadcast hub: one unbounded FIFO queue per live subscriber, every
    progress message appended to every queue. */
module Broadcasting {
  import opened Common
  import opened Messages

  /** A subscription's id (a fresh GUID in the source). */
  type SubscriberId = int

  type Queues = map<SubscriberId, seq<ProgressMessage>>

  /** The queues after `m` has been written to every one of them. */
  function Delivered(queues: Queues, m: ProgressMessage): (r: Queues)
    ensures r.Keys == queues.Keys
    ensures forall id :: id in queues ==> r[id] == queues[id] + [m]
  {
    map id | id in queues :: queues[id] + [m]
  }

  /** One thing that can happen at the hub. */
  datatype HubEvent =
    | Subscribed(id: SubscriberId)
    | Broadcast(msg: ProgressMessage)
    | Taken(id: SubscriberId)
    | Unsubscribed(id: SubscriberId)

  /** The queues after one event. `Taken` removes the head of a non-empty queue. */
  function Step(queues: Queues, e: HubEvent): Queues
  {
    match e
    case Subscribed(id) => queues[id := []]
    case Broadcast(m) => Delivered(queues, m)
    case Taken(id) =>
      if id in queues && queues[id] != [] then queues[id := queues[id][1..]] else queues
    case Unsubscribed(id) => queues - {id}
  }

  /** The queues after a history of events. */
  function Run(queues: Queues, events: seq<HubEvent>): Queues
    decreases |events|
  {
    if events == [] then queues else Run(Step(queues, events[0]), events[1..])
  }

  /** What subscriber `id` takes off its queue in event `e`: the head, if
      `e` is its read and a message is waiting. */
  function TakenBy(queues: Queues, id: SubscriberId, e: HubEvent): seq<ProgressMessage>
  {
    if e == Taken(id) && id in queues && queues[id] != [] then [queues[id][0]] else []
  }

  /** The message `e` broadcasts, if any. */
  function Emitted(e: HubEvent): seq<ProgressMessage>
  {
    if e.Broadcast? then [e.msg] else []
  }

  /** The messages subscriber `id` takes off its queue during `events`. */
  function Received(queues: Queues, id: SubscriberId, events: seq<HubEvent>): seq<ProgressMessage>
    decreases |events|
  {
    if events == [] then []
    else TakenBy(queues, id, events[0]) + Received(Step(queues, events[0]), id, events[1..])
  }

  /** The messages broadcast during `events`, in order. */
  function BroadcastIn(events: seq<HubEvent>): (ms: seq<ProgressMessage>)
    ensures |ms| <= |events|
  {
    if events == [] then [] else Emitted(events[0]) + BroadcastIn(events[1..])
  }

  /** Whether `e` (re-)subscribes or ends subscription `id`. */
  predicate Ends(e: HubEvent, id: SubscriberId)
  {
    (e.Subscribed? || e.Unsubscribed?) && e.id == id
  }

  /** One event keeps the FIFO balance of a live subscription: what it takes
      plus what remains is what was queued plus what is broadcast. */
  lemma StepIsFifo(queues: Queues, id: SubscriberId, e: HubEvent)
    requires id in queues && !Ends(e, id)
    ensures id in Step(queues, e)
    ensures TakenBy(queues, id, e) + Step(queues, e)[id] == queues[id] + Emitted(e)
  {
    var q := queues[id];
    if e == Taken(id) && q != [] {
      assert q == [q[0]] + q[1..];
    }
  }

  /** While subscribed, what a subscriber has taken followed by what is still
      queued is what was queued before followed by every message broadcast
      since, in broadcast order. */
  lemma {:induction false} QueueIsFifo(queues: Queues, id: SubscriberId, events: seq<HubEvent>)
    requires id in queues
    requires forall i :: 0 <= i < |events| ==> !Ends(events[i], id)
    ensures id in Run(queues, events)
    ensures Received(queues, id, events) + Run(queues, events)[id] == queues[id] + BroadcastIn(events)
    decreases |events|
  {
    if events != [] {
      var e, rest := events[0], events[1..];
      var next := Step(queues, e);
      StepIsFifo(queues, id, e);
      assert forall i :: 0 <= i < |rest| ==> rest[i] == events[i + 1];
      QueueIsFifo(next, id, rest);
      var taken := TakenBy(queues, id, e);
      calc {
        Received(queues, id, events) + Run(queues, events)[id];
        (taken + Received(next, id, rest)) + Run(next, rest)[id];
        { ConcatAssoc(taken, Received(next, id, rest), Run(next, rest)[id]); }
        taken + (Received(next, id, rest) + Run(next, rest)[id]);
        taken + (next[id] + BroadcastIn(rest));
        { ConcatAssoc(taken, next[id], BroadcastIn(rest)); }
        (taken + next[id]) + BroadcastIn(rest);
        (queues[id] + Emitted(e)) + BroadcastIn(rest);
        { ConcatAssoc(queues[id], Emitted(e), BroadcastIn(rest)); }
        queues[id] + (Emitted(e) + BroadcastIn(rest));
        queues[id] + BroadcastIn(events);
      }
    }
  }

  /** No replay: a subscriber receives exactly the messages broadcast after
      it subscribed, in broadcast order, whatever it has taken so far. */
  lemma {:induction false} NoReplay(queues: Queues, id: SubscriberId, events: seq<HubEvent>)
    requires forall i :: 0 <= i < |events| ==> !Ends(events[i], id)
    ensures id in Run(queues, [Subscribed(id)] + events)
    ensures Received(queues, id, [Subscribed(id)] + events) + Run(queues, [Subscribed(id)] + events)[id]
            == BroadcastIn(events)
  {
    var all := [Subscribed(id)] + events;
    assert all[0] == Subscribed(id) && all[1..] == events;
    assert Step(queues, Subscribed(id)) == queues[id := []];
    assert Run(queues, all) == Run(queues[id := []], events);
    assert Received(queues, id, all) == Received(queues[id := []], id, events);
    QueueIsFifo(queues[id := []], id, events);
  }

  /** Other subscriptions never see a subscriber come or go. */
  lemma StepKeepsOthers(queues: Queues, e: HubEvent, other: SubscriberId)
    requires other in queues
    requires e.Subscribed? || e.Unsubscribed? || e.Taken?
    requires e.id != other
    ensures other in Step(queues, e) && Step(queues, e)[other] == queues[other]
  {
  }

  class ProgressBroadcaster {
    var subscribers: Queues

    constructor ()
      ensures subscribers == map[]
    {
      subscribers := map[];
    }

    /** Writes `message` to the end of every subscriber's queue. Writing to
        an open unbounded channel always succeeds, so no subscriber is
        skipped and nothing is thrown. */
    method Broadcast(message: ProgressMessage)
      modifies this
      ensures subscribers == Delivered(old(subscribers), message)
    {
      var pending := subscribers.Keys;
      while true
        invariant pending <= subscribers.Keys
        invariant subscribers.Keys == old(subscribers).Keys
        invariant forall id :: id in pending ==> subscribers[id] == old(subscribers)[id]
        invariant forall id :: id in subscribers && id !in pending ==> subscribers[id] == old(subscribers)[id] + [message]
        decreases pending
      {
        if sub :| sub in pending {
          subscribers := subscribers[sub := subscribers[sub] + [message]];
          pending := pending - {sub};
        } else {
          break;
        }
      }
      var target := Delivered(old(subscribers), message);
      assert subscribers.Keys == target.Keys;
      assert forall id :: id in subscribers ==> subscribers[id] == target[id];
    }

    /** Registers subscription `id`, which is fresh, with a new, empty queue. */
    method Subscribe(id: SubscriberId)
      requires id !in subscribers
      modifies this
      ensures subscribers == Step(old(subscribers), Subscribed(id))
      ensures subscribers == old(subscribers)[id := []]
    {
      subscribers := subscribers[id := []];
    }

    /** The subscriber reads its next message, if one is waiting. */
    method Take(id: SubscriberId) returns (m: Option<ProgressMessage>)
      modifies this
      ensures subscribers == Step(old(subscribers), Taken(id))
      ensures m.Some? <==> id in old(subscribers) && old(subscribers)[id] != []
      ensures m.Some? ==> m.value == old(subscribers)[id][0]
    {
      if id in subscribers && subscribers[id] != [] {
        m := Some(subscribers[id][0]);
        subscribers := subscribers[id := subscribers[id][1..]];
      } else {
        m := None;
      }
    }

    /** The subscription ends: its queue, and nothing else, is dropped. */
    method Unsubscribe(id: SubscriberId)
      modifies this
      ensures subscribers == old(subscribers) - {id}
      ensures forall other :: other in old(subscribers) && other != id ==>
        other in subscribers && subscribers[other] == old(subscribers)[other]
    {
      subscribers := subscribers - {id};
    }
  }
}
