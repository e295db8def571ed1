/** In-process fan-out to bounded queues: a slow subscriber loses the oldest events. */
module EventBroadcaster {
  import opened Prelude

  const QUEUE_SIZE := 256

  datatype Line = Line(sequence: nat, text: string)

  datatype Event = LineEvent(line: Line) | StatusEvent(status: string)

  /** A full queue gives up its oldest event. */
  function Pushed(items: seq<Event>, event: Event): seq<Event> {
    if |items| < QUEUE_SIZE then items + [event]
    else items[1..] + [event]
  }

  class Queue {
    var items: seq<Event>

    constructor ()
      ensures items == []
    {
      items := [];
    }
  }

  class Broadcaster {
    var subscribers: map<string, set<Queue>>

    constructor ()
      ensures subscribers == map[]
    {
      subscribers := map[];
    }

    function Of(topic: string): set<Queue>
      reads this
    {
      if topic in subscribers then subscribers[topic] else {}
    }

    /** Every queue of the topic gets the event, no other queue changes. */
    method Publish(topic: string, event: Event)
      modifies Of(topic)
      ensures subscribers == old(subscribers)
      ensures forall q :: q in Of(topic) ==> q.items == Pushed(old(q.items), event)
    {
      var queues := Of(topic);
      var todo := queues;
      while todo != {}
        invariant todo <= queues
        invariant subscribers == old(subscribers)
        invariant forall q :: q in todo ==> q.items == old(q.items)
        invariant forall q :: q in queues - todo ==> q.items == Pushed(old(q.items), event)
        decreases todo
      {
        var q :| q in todo;
        if |q.items| >= QUEUE_SIZE {
          q.items := q.items[1..];
        }
        q.items := q.items + [event];
        todo := todo - {q};
      }
    }

    method Register(topic: string) returns (queue: Queue)
      modifies this
      ensures fresh(queue) && queue.items == []
      ensures subscribers == old(subscribers)[topic := old(Of(topic)) + {queue}]
    {
      queue := new Queue();
      subscribers := subscribers[topic := Of(topic) + {queue}];
    }

    /** A topic without subscribers is dropped. */
    method Unregister(topic: string, queue: Queue)
      modifies this
      ensures Of(topic) == old(Of(topic)) - {queue}
      ensures forall t :: t != topic ==> Of(t) == old(Of(t))
      ensures old(topic in subscribers) ==> (topic in subscribers <==> Of(topic) != {})
    {
      if topic in subscribers {
        var rest := subscribers[topic] - {queue};
        if rest == {} {
          subscribers := map t | t in subscribers && t != topic :: subscribers[t];
        } else {
          subscribers := subscribers[topic := rest];
        }
      }
    }
  }

  // --- What a queue holds --------------------------------------------------

  function PushedAll(items: seq<Event>, events: seq<Event>): seq<Event> {
    if events == [] then items
    else Pushed(PushedAll(items, events[..|events| - 1]), events[|events| - 1])
  }

  /** What a subscriber that does not read holds of everything published since it
      registered: all of it, or the last 256. */
  lemma {:induction false} QueueIsASuffix(events: seq<Event>)
    ensures PushedAll([], events) == if |events| <= QUEUE_SIZE then events else events[|events| - QUEUE_SIZE..]
  {
    if events != [] {
      var front, last := events[..|events| - 1], events[|events| - 1];
      QueueIsASuffix(front);
      assert events == front + [last];
    }
  }
}
