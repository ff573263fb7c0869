/**
 * The two zustand stores that hold the destination -> calendar event link.
 * `TravelStore` is the persisted one the screens use; `DestinationsStore` is
 * its in-memory twin. Each action replaces `calendarEvents` with the result of
 * a pure updater from module Records.
 */
module Stores {
  import opened Records

  class TravelStore {
    /** destinationName -> eventId, in key order. */
    var calendarEvents: Record

    ghost predicate Valid()
      reads this
    {
      DistinctNames(calendarEvents)
    }

    /** The store's initial state: no links. */
    constructor ()
      ensures Valid()
      ensures calendarEvents == [] && View(calendarEvents) == map[]
    {
      calendarEvents := [];
    }

    /** Link `destinationName` to `eventId`, replacing any earlier link for that name. */
    method AddEvent(eventId: string, destinationName: string)
      requires Valid()
      modifies this
      ensures Valid()
      ensures calendarEvents == Put(old(calendarEvents), destinationName, eventId)
      ensures View(calendarEvents) == old(View(calendarEvents))[destinationName := eventId]
    {
      calendarEvents := Put(calendarEvents, destinationName, eventId);
    }

    /** Drop the first link (in key order) to `eventId`, unless its name is empty. */
    method RemoveEvent(eventId: string)
      requires Valid()
      modifies this
      ensures Valid()
      ensures calendarEvents == Records.RemoveEvent(old(calendarEvents), eventId)
      ensures (forall k :: k in old(View(calendarEvents)) ==> old(View(calendarEvents))[k] != eventId) ==>
        calendarEvents == old(calendarEvents)
      ensures View(calendarEvents) == old(View(calendarEvents)) ||
        exists k :: k in old(View(calendarEvents)) && k != "" && old(View(calendarEvents))[k] == eventId &&
          View(calendarEvents) == old(View(calendarEvents)) - {k}
    {
      NoLinkToEvent(calendarEvents, eventId);
      calendarEvents := Records.RemoveEvent(calendarEvents, eventId);
    }

    /** Drop the link for `destinationName`, if any; every other link stays, in order. */
    method RemoveEventByDestination(destinationName: string)
      requires Valid()
      modifies this
      ensures Valid()
      ensures calendarEvents == Delete(old(calendarEvents), destinationName)
      ensures View(calendarEvents) == old(View(calendarEvents)) - {destinationName}
      ensures destinationName !in old(View(calendarEvents)) ==> calendarEvents == old(calendarEvents)
    {
      calendarEvents := Delete(calendarEvents, destinationName);
    }
  }

  class DestinationsStore {
    /** destinationName -> eventId, in key order. */
    var calendarEvents: Record

    ghost predicate Valid()
      reads this
    {
      DistinctNames(calendarEvents)
    }

    /** The store's initial state: no links. */
    constructor ()
      ensures Valid()
      ensures calendarEvents == [] && View(calendarEvents) == map[]
    {
      calendarEvents := [];
    }

    /** Link `destinationName` to `eventId`, replacing any earlier link for that name. */
    method AddEvent(eventId: string, destinationName: string)
      requires Valid()
      modifies this
      ensures Valid()
      ensures calendarEvents == Put(old(calendarEvents), destinationName, eventId)
      ensures GetEventByDestination(destinationName) == Some(eventId)
      ensures forall k :: k != destinationName ==> GetEventByDestination(k) == old(GetEventByDestination(k))
    {
      calendarEvents := Put(calendarEvents, destinationName, eventId);
    }

    /** Drop the first link (in key order) to `eventId`, unless its name is empty. */
    method RemoveEvent(eventId: string)
      requires Valid()
      modifies this
      ensures Valid()
      ensures calendarEvents == Records.RemoveEvent(old(calendarEvents), eventId)
      ensures (forall k :: k in old(View(calendarEvents)) ==> old(View(calendarEvents))[k] != eventId) ==>
        calendarEvents == old(calendarEvents)
      ensures View(calendarEvents) == old(View(calendarEvents)) ||
        exists k :: k in old(View(calendarEvents)) && k != "" && old(View(calendarEvents))[k] == eventId &&
          View(calendarEvents) == old(View(calendarEvents)) - {k}
    {
      NoLinkToEvent(calendarEvents, eventId);
      calendarEvents := Records.RemoveEvent(calendarEvents, eventId);
    }

    /** `calendarEvents[destinationName]`, read without changing the store. */
    function GetEventByDestination(destinationName: string): (r: Option<string>)
      reads this
      ensures r.Some? <==> destinationName in View(calendarEvents)
      ensures r.Some? ==> r.value == View(calendarEvents)[destinationName]
    {
      Lookup(calendarEvents, destinationName)
    }

    /** Drop the link for `destinationName`, if any; every other link stays, in order. */
    method RemoveEventByDestination(destinationName: string)
      requires Valid()
      modifies this
      ensures Valid()
      ensures calendarEvents == Delete(old(calendarEvents), destinationName)
      ensures GetEventByDestination(destinationName) == None
      ensures forall k :: k != destinationName ==> GetEventByDestination(k) == old(GetEventByDestination(k))
    {
      calendarEvents := Delete(calendarEvents, destinationName);
    }
  }
}
