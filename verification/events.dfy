/** The GUI's event queue: events pushed by the widgets and drained by the application.
    Despite its role as a queue it is a stack: `pop` takes the most recently pushed event. */
module Events {
  import opened Wrappers

  datatype AppEvent =
    | CategorySelected(category: string)
    | ComponentSelected(component: string)
    | ShowSettings

  class EventManager {
    /** The pending events, oldest first. */
    var events: seq<AppEvent>

    /** `EventManager::new`: no pending events. */
    constructor ()
      ensures events == []
    {
      events := [];
    }

    /** `push`: the event goes to the end. */
    method Push(event: AppEvent)
      modifies this
      ensures events == old(events) + [event]
    {
      events := events + [event];
    }

    /** `pop`: the most recently pushed event, removed; None, with nothing changed, when
        there is none. */
    method Pop() returns (r: Option<AppEvent>)
      modifies this
      ensures old(events) == [] ==> r == None && events == []
      ensures old(events) != [] ==> r == Some(old(events)[|old(events)| - 1]) && events == old(events)[..|old(events)| - 1]
      ensures r.Some? ==> old(events) == events + [r.value]
    {
      if events == [] {
        return None;
      }
      r := Some(events[|events| - 1]);
      events := events[..|events| - 1];
    }

    /** `clear`: no pending events. */
    method Clear()
      modifies this
      ensures events == []
    {
      events := [];
    }
  }

  /** Last in, first out: an event pushed and popped straight away comes back, and the
      queue is as it was. */
  method PushThenPop(m: EventManager, event: AppEvent) returns (r: Option<AppEvent>)
    modifies m
    ensures r == Some(event)
    ensures m.events == old(m.events)
  {
    m.Push(event);
    r := m.Pop();
  }
}
