/**
 * The older `TravelPlanningSection` component: the same add/remove reminder
 * button, wired to the in-memory DestinationsStore. It differs from
 * `SuggestedDates` in three ways: the linked id arrives as a prop, creating
 * needs the destination's details (no destination, no call), and the
 * location names the destination together with its formatted coordinates.
 *
 * The store lookup `getDestination` and the actions `setEventId` and
 * `removeEventId` are not defined by the store this component imports: the
 * looked-up destination is an input here, `setEventId(name, id)` is read as
 * `addEvent(id, name)` and `removeEventId(name)` as
 * `removeEventByDestination(name)`.
 */
module TravelPlanningComponent {
  import opened Records
  import opened Calendar
  import opened Stores

  /**
   * What the component uses of a destination: its description and the
   * output of `formatCoordinate` for its location (the formatting itself
   * works on floating point numbers and is not part of this model).
   */
  datatype Destination = Destination(description: string, coordinates: string)

  class TravelPlanningSection {
    const destinationName: string
    /** The `eventId` prop: the id the parent believes is linked. */
    const eventId: Option<string>
    const suggestedDates: seq<string>
    /** `getDestination(destinationName)`; `None` when there is no such destination. */
    const destination: Option<Destination>
    const store: DestinationsStore
    var isCalendarLoading: bool

    constructor (destinationName: string, eventId: Option<string>, suggestedDates: seq<string>,
                 destination: Option<Destination>, store: DestinationsStore)
      ensures this.destinationName == destinationName
      ensures this.eventId == eventId
      ensures this.suggestedDates == suggestedDates
      ensures this.destination == destination
      ensures this.store == store
      ensures !isCalendarLoading
    {
      this.destinationName := destinationName;
      this.eventId := eventId;
      this.suggestedDates := suggestedDates;
      this.destination := destination;
      this.store := store;
      isCalendarLoading := false;
    }

    /**
     * The native create call, when there is a destination: title
     * "Travel to <name>", the first two suggested dates, "<name> (<coordinates>)"
     * as location, the destination's description as notes, and a reminder
     * 1440 minutes before.
     */
    function ReminderCall(): (r: Option<Effect>)
      ensures r.Some? <==> destination.Some?
      ensures r.Some? ==>
        && r.value.CreateEvent? && r.value.title == "Travel to " + destinationName
        && r.value.reminderMinutesBefore == 1440 && r.value.notes == destination.value.description
        && r.value.location == destinationName + " (" + destination.value.coordinates + ")"
        && r.value.startDate == (if |suggestedDates| >= 1 then Some(suggestedDates[0]) else None)
        && r.value.endDate == (if |suggestedDates| >= 2 then Some(suggestedDates[1]) else None)
    {
      if destination.None? then None
      else Some(CreateEvent(EventTitle(destinationName), DateAt(suggestedDates, 0), DateAt(suggestedDates, 1),
                            destinationName + " (" + destination.value.coordinates + ")",
                            destination.value.description, ReminderMinutesBefore))
    }

    /**
     * `checkCalendarPermission`, as this component defines it: the shared
     * permission table, consulted only while the loading flag is up.
     */
    method CheckCalendarPermission(check: Reply<PermissionStatus>, request: Reply<PermissionStatus>)
      returns (granted: Reply<bool>, effects: seq<Effect>)
      requires isCalendarLoading
      ensures granted == PermissionAnswer(check, request)
      ensures effects == PermissionTrace(check, request)
    {
      granted, effects := Calendar.CheckCalendarPermission(check, request);
    }

    /**
     * `createCalendarEvent`: without a destination, nothing at all. Otherwise
     * one native create; a truthy id is stored for the destination, null or ""
     * alerts and leaves the store alone, a throw leaves it alone too.
     */
    method CreateCalendarEvent(create: Reply<Option<string>>) returns (effects: seq<Effect>, threw: bool)
      requires isCalendarLoading
      requires store.Valid()
      modifies store
      ensures store.Valid()
      ensures destination.None? ==> effects == [] && !threw && store.calendarEvents == old(store.calendarEvents)
      ensures destination.Some? ==>
        && effects == CreateSteps(ReminderCall().value, create)
        && (threw <==> create.Throws?)
        && store.calendarEvents ==
             if create.Returns? && Truthy(create.value)
             then Put(old(store.calendarEvents), destinationName, create.value.value)
             else old(store.calendarEvents)
    {
      if destination.None? {
        return [], false;
      }
      var startDate := DateAt(suggestedDates, 0);
      var endDate := DateAt(suggestedDates, 1);
      var locationString := destinationName + " (" + destination.value.coordinates + ")";
      effects := [CreateEvent(EventTitle(destinationName), startDate, endDate,
                              locationString, destination.value.description, ReminderMinutesBefore)];
      if create.Throws? {
        return effects, true;
      }
      var newEventId := create.value;
      threw := false;
      if !Truthy(newEventId) {
        effects := effects + [ShowAlert(CreateFailed)];
        return;
      }
      store.AddEvent(newEventId.value, destinationName);
    }

    /**
     * `deleteCalendarEvent`: with no truthy `eventId` prop, nothing happens.
     * Otherwise one native delete of that id; only a true answer clears the
     * destination's link, false alerts and keeps it, a throw keeps it.
     */
    method DeleteCalendarEvent(delete: Reply<bool>) returns (effects: seq<Effect>, threw: bool)
      requires isCalendarLoading
      requires store.Valid()
      modifies store
      ensures store.Valid()
      ensures !Truthy(eventId) ==> effects == [] && !threw && store.calendarEvents == old(store.calendarEvents)
      ensures Truthy(eventId) ==>
        && effects == DeleteSteps(eventId.value, delete)
        && (threw <==> delete.Throws?)
        && store.calendarEvents ==
             if delete == Returns(true) then Delete(old(store.calendarEvents), destinationName)
             else old(store.calendarEvents)
    {
      if !Truthy(eventId) {
        return [], false;
      }
      effects := [DeleteEvent(eventId.value)];
      if delete.Throws? {
        return effects, true;
      }
      threw := false;
      var success := delete.value;
      if !success {
        effects := effects + [ShowAlert(RemoveFailed)];
        return;
      }
      store.RemoveEventByDestination(destinationName);
    }

    /**
     * `handleCalendarAction`: raise the loading flag; with a truthy `eventId`
     * prop take the delete path, otherwise create only once the permission
     * check passes and a destination is known; an exception from any step is
     * caught and alerted; the flag drops on every exit.
     */
    method HandleCalendarAction(replies: NativeReplies) returns (effects: seq<Effect>)
      requires store.Valid()
      modifies this, store
      ensures store.Valid()
      ensures !isCalendarLoading
      ensures effects == Bracketed(ToggleSteps(eventId, ReminderCall(), replies))
      ensures MutationCount(effects) <= 1
      ensures Truthy(eventId) ==> CheckPermission !in effects && DeleteEvent(eventId.value) in effects
      ensures store.calendarEvents ==
        if Truthy(eventId) then
          if replies.delete == Returns(true) then Delete(old(store.calendarEvents), destinationName)
          else old(store.calendarEvents)
        else if PermissionPasses(replies.check, replies.request) && destination.Some?
                && replies.create.Returns? && Truthy(replies.create.value)
          then Put(old(store.calendarEvents), destinationName, replies.create.value.value)
        else old(store.calendarEvents)
    {
      isCalendarLoading := true;
      var raised := [LoadingChanged(isCalendarLoading)];
      var body: seq<Effect>;
      if Truthy(eventId) {
        var threw;
        body, threw := DeleteCalendarEvent(replies.delete);
        body := body + Caught(threw);
      } else {
        var hasPermission, checked := CheckCalendarPermission(replies.check, replies.request);
        var threw := hasPermission.Throws?;
        var created := [];
        if hasPermission == Returns(true) {
          created, threw := CreateCalendarEvent(replies.create);
        }
        body := checked + created + Caught(threw);
      }
      assert body == ToggleSteps(eventId, ReminderCall(), replies);
      isCalendarLoading := false;
      effects := raised + body + [LoadingChanged(isCalendarLoading)];
      HandlerTrace(eventId, ReminderCall(), replies);
    }
  }
}
