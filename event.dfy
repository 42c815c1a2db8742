/** The event queue of src/core/Event.ts.

    Events are queued by `dispatch` and delivered by `update`, each to every
    listener registered for its type, in registration order. A listener is
    an opaque value `L`; what calling it does is outside the model, so
    `update` reports the calls it makes, in order, as `Delivery` records. */
module Event {

  /** A `CustomEvent`: its type and its `detail`. */
  datatype Event<D> = Event(eventType: string, detail: D)

  /** One call `listener(event)`. */
  datatype Delivery<D, L> = Delivery(listener: L, event: Event<D>)

  /** The calls made for one event, in listener order. */
  function Calls<D, L>(ev: Event<D>, ls: seq<L>): (r: seq<Delivery<D, L>>)
    ensures |r| == |ls|
    ensures forall k :: 0 <= k < |ls| ==> r[k] == Delivery(ls[k], ev)
    decreases |ls|
  {
    if ls == [] then [] else Calls(ev, ls[..|ls| - 1]) + [Delivery(ls[|ls| - 1], ev)]
  }

  /** The calls the loops of `update` make over a queue: events in queue
      order; an event whose type has no listener array is skipped. */
  function Deliveries<D, L>(queue: seq<Event<D>>, listeners: map<string, seq<L>>): seq<Delivery<D, L>>
    decreases |queue|
  {
    if queue == [] then []
    else
      var ev := queue[|queue| - 1];
      Deliveries(queue[..|queue| - 1], listeners) +
        if ev.eventType in listeners then Calls(ev, listeners[ev.eventType]) else []
  }

  /** The listener table after `listen(type, callback)`. */
  function Listened<L>(listeners: map<string, seq<L>>, eventType: string, callback: L): map<string, seq<L>> {
    listeners[eventType := (if eventType in listeners then listeners[eventType] else []) + [callback]]
  }

  /** Delivering two queued runs one after the other is delivering their
      concatenation: `update` keeps queue order. */
  lemma {:induction false} DeliveriesAppend<D, L>(a: seq<Event<D>>, b: seq<Event<D>>, listeners: map<string, seq<L>>)
    ensures Deliveries(a + b, listeners) == Deliveries(a, listeners) + Deliveries(b, listeners)
    decreases |b|
  {
    if b == [] {
      assert a + b == a;
    } else {
      var init := b[..|b| - 1];
      assert (a + b)[..|a + b| - 1] == a + init;
      DeliveriesAppend(a, init, listeners);
    }
  }

  /** A call is made exactly for a queued event and a listener registered
      for its type. */
  lemma {:induction false} DeliveryMembership<D, L>(queue: seq<Event<D>>, listeners: map<string, seq<L>>, l: L, ev: Event<D>)
    ensures Delivery(l, ev) in Deliveries(queue, listeners) <==>
      ev in queue && ev.eventType in listeners && l in listeners[ev.eventType]
    decreases |queue|
  {
    if queue != [] {
      var init := queue[..|queue| - 1];
      var last := queue[|queue| - 1];
      DeliveryMembership(init, listeners, l, ev);
      assert forall e :: e in queue <==> e in init || e == last;
      if last.eventType in listeners {
        var ls := listeners[last.eventType];
        var cs := Calls(last, ls);
        assert Delivery(l, ev) in cs <==> ev == last && l in ls by {
          if Delivery(l, ev) in cs {
            var k :| 0 <= k < |cs| && cs[k] == Delivery(l, ev);
            assert ls[k] == l;
          }
          if ev == last && l in ls {
            var k :| 0 <= k < |ls| && ls[k] == l;
            assert cs[k] == Delivery(l, ev);
          }
        }
      }
    }
  }

  /** An event whose type nobody listens to adds no call. */
  lemma UnheardEventSkipped<D, L>(queue: seq<Event<D>>, listeners: map<string, seq<L>>, ev: Event<D>)
    requires ev.eventType !in listeners
    ensures Deliveries(queue + [ev], listeners) == Deliveries(queue, listeners)
  {
    assert (queue + [ev])[..|queue + [ev]| - 1] == queue;
  }

  /** A listener added by `listen` is called last for each later event of
      its type, after the listeners registered before it; other types'
      deliveries do not change. */
  lemma ListenedCalledLast<D, L>(listeners: map<string, seq<L>>, callback: L, ev: Event<D>)
    ensures Deliveries([ev], Listened(listeners, ev.eventType, callback)) ==
      Deliveries([ev], listeners) + [Delivery(callback, ev)]
    ensures forall t: string, e: Event<D> :: t != e.eventType ==> Deliveries([e], Listened(listeners, t, callback)) == Deliveries([e], listeners)
  {
    assert [ev][..0] == [];
    var ls := if ev.eventType in listeners then listeners[ev.eventType] else [];
    assert (ls + [callback])[..|ls|] == ls;
    forall t: string, e: Event<D> | t != e.eventType
      ensures Deliveries([e], Listened(listeners, t, callback)) == Deliveries([e], listeners)
    {
      assert [e][..0] == [];
    }
  }

  /** The queue object. */
  class EventQueue<D, L> {
    var queue: seq<Event<D>>
    var listeners: map<string, seq<L>>

    constructor ()
      ensures queue == [] && listeners == map[]
    {
      queue := [];
      listeners := map[];
    }

    /** `dispatch`: append one event. */
    method Dispatch(eventType: string, data: D)
      modifies this
      ensures queue == old(queue) + [Event(eventType, data)]
      ensures listeners == old(listeners)
    {
      queue := queue + [Event(eventType, data)];
    }

    /** `listen`: append the callback to its type's array, creating it. */
    method Listen(eventType: string, callback: L)
      modifies this
      ensures listeners == Listened(old(listeners), eventType, callback)
      ensures queue == old(queue)
    {
      if eventType !in listeners {
        listeners := listeners[eventType := []];
      }
      listeners := listeners[eventType := listeners[eventType] + [callback]];
    }

    /** `update`: deliver every queued event, then empty the queue. */
    method Update() returns (delivered: seq<Delivery<D, L>>)
      modifies this
      ensures delivered == Deliveries(old(queue), old(listeners))
      ensures queue == [] && listeners == old(listeners)
    {
      delivered := [];
      for n := 0 to |queue|
        invariant delivered == Deliveries(queue[..n], listeners)
      {
        var ev := queue[n];
        assert queue[..n + 1][..n] == queue[..n];
        if ev.eventType !in listeners {
          continue;
        }
        var listenerArray := listeners[ev.eventType];
        for k := 0 to |listenerArray|
          invariant delivered == Deliveries(queue[..n], listeners) + Calls(ev, listenerArray[..k])
        {
          assert listenerArray[..k + 1][..k] == listenerArray[..k];
          delivered := delivered + [Delivery(listenerArray[k], ev)];
        }
        assert listenerArray[..|listenerArray|] == listenerArray;
      }
      assert queue[..|queue|] == queue;
      queue := [];
    }
  }
}
