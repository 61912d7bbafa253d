/**
 * The event-card store: which event the card drawer shows, and whether the
 * drawer is open.
 */
module EventStore {
  import opened Wrappers

  /** A calendar event as the client holds it. */
  datatype Event = Event(
    id: string,
    title: string,
    description: Option<string>,
    start_time: string,
    end_time: string,
    location: Option<string>,
    color: Option<string>,
    confidence: Option<real>,
    user_id: string,
    is_all_day: Option<bool>,
    is_recurring: Option<bool>,
    recurrence_rule: Option<string>,
    created_at: Option<string>)

  /** The record the store holds. */
  datatype StoreState = StoreState(selectedEvent: Option<Event>, showEventCardDrawer: bool)

  const Initial := StoreState(None, false)

  /** The drawer is shown exactly when an event is selected. */
  predicate Consistent(s: StoreState) {
    s.showEventCardDrawer <==> s.selectedEvent.Some?
  }

  /** The updater `openEventCard` passes to `update`. */
  function Opened(s: StoreState, event: Event): (r: StoreState)
    ensures Consistent(r) && r.selectedEvent == Some(event)
  {
    s.(selectedEvent := Some(event), showEventCardDrawer := true)
  }

  /** The updater `closeEventCard` passes to `update`. */
  function Closed(s: StoreState): (r: StoreState)
    ensures r == Initial
  {
    s.(selectedEvent := None, showEventCardDrawer := false)
  }

  /** An action on the store. */
  datatype Action = OpenCard(event: Event) | CloseCard | ResetStore

  /** The state after one action: opening selects the event, closing or resetting gives the initial state. */
  function Apply(s: StoreState, a: Action): (r: StoreState)
    ensures Consistent(r)
    ensures a.OpenCard? ==> r.selectedEvent == Some(a.event)
    ensures !a.OpenCard? ==> r == Initial
  {
    match a
    case OpenCard(e) => Opened(s, e)
    case CloseCard => Closed(s)
    case ResetStore => Initial
  }

  /** The state after a sequence of actions. */
  function Run(s: StoreState, actions: seq<Action>): (r: StoreState)
    ensures actions == [] ==> r == s
    ensures actions != [] ==> Consistent(r)
    decreases |actions|
  {
    if actions == [] then s else Run(Apply(s, actions[0]), actions[1..])
  }

  /** No sequence of actions breaks the drawer invariant. */
  lemma {:induction false} RunKeepsConsistent(s: StoreState, actions: seq<Action>)
    requires Consistent(s)
    ensures Consistent(Run(s, actions))
    decreases |actions|
  {
    if actions != [] {
      var next := Apply(s, actions[0]);
      assert Consistent(next);
      RunKeepsConsistent(next, actions[1..]);
    }
  }

  /** Only the last action matters: opening selects its event, closing or resetting gives the initial state. */
  lemma {:induction false} LastActionDecides(s: StoreState, actions: seq<Action>)
    requires actions != []
    ensures var last := actions[|actions| - 1];
      Run(s, actions) == if last.OpenCard? then StoreState(Some(last.event), true) else Initial
    decreases |actions|
  {
    if |actions| > 1 {
      LastActionDecides(Apply(s, actions[0]), actions[1..]);
      assert actions[1..][|actions[1..]| - 1] == actions[|actions| - 1];
    }
  }

  /** Closing and resetting are idempotent and agree with each other. */
  lemma CloseAndResetIdempotent(s: StoreState)
    ensures Closed(Closed(s)) == Closed(s)
    ensures Apply(Apply(s, ResetStore), ResetStore) == Apply(s, ResetStore) == Closed(s)
  {
  }

  /** The writable store behind `eventStore`, holding the two fields of its record. */
  class Store {
    var selectedEvent: Option<Event>
    var showEventCardDrawer: bool

    /** The record the store currently holds. */
    function State(): StoreState
      reads this
    {
      StoreState(selectedEvent, showEventCardDrawer)
    }

    /** `createEventStore`. */
    constructor ()
      ensures State() == Initial && Consistent(State())
    {
      selectedEvent := None;
      showEventCardDrawer := false;
    }

    /** `openEventCard`: select the event and open the drawer. */
    method OpenEventCard(event: Event)
      modifies this
      ensures State() == Opened(old(State()), event)
      ensures selectedEvent == Some(event) && showEventCardDrawer
      ensures Consistent(State())
    {
      selectedEvent := Some(event);
      showEventCardDrawer := true;
    }

    /** `closeEventCard`: clear the selection and close the drawer. */
    method CloseEventCard()
      modifies this
      ensures State() == Closed(old(State())) == Initial
      ensures Consistent(State())
    {
      selectedEvent := None;
      showEventCardDrawer := false;
    }

    /** `reset`: back to the initial record, whatever the state. */
    method Reset()
      modifies this
      ensures State() == Initial
      ensures Consistent(State())
    {
      selectedEvent := None;
      showEventCardDrawer := false;
    }
  }
}
