/**
 * The `SuggestedDates` component of the detail screen: a button that adds a
 * "Travel to <destination>" reminder to the device calendar, or removes the
 * one already linked, and records the link in the persisted TravelStore.
 *
 * React state becomes a field (`isCalendarLoading`), the store a shared
 * object, and each handler a method that receives the native answers and
 * returns the effects it produced, in order.
 */
module SuggestedDatesComponent {
  import opened Records
  import opened Calendar
  import opened Stores

  class SuggestedDates {
    const destinationName: string
    const destinationDescription: string
    const suggestedDates: seq<string>
    const store: TravelStore
    var isCalendarLoading: bool

    constructor (destinationName: string, destinationDescription: string, suggestedDates: seq<string>,
                 store: TravelStore)
      ensures this.destinationName == destinationName
      ensures this.destinationDescription == destinationDescription
      ensures this.suggestedDates == suggestedDates
      ensures this.store == store
      ensures !isCalendarLoading
    {
      this.destinationName := destinationName;
      this.destinationDescription := destinationDescription;
      this.suggestedDates := suggestedDates;
      this.store := store;
      isCalendarLoading := false;
    }

    /** The id linked to this destination, read as `calendarEvents[destinationName]`. */
    function EventId(): (r: Option<string>)
      reads store
      ensures r.Some? <==> destinationName in View(store.calendarEvents)
      ensures r.Some? ==> r.value == View(store.calendarEvents)[destinationName]
    {
      Lookup(store.calendarEvents, destinationName)
    }

    /**
     * The native create call this component makes: title "Travel to <name>",
     * the first two suggested dates (undefined when missing), the name as
     * location, the description as notes, and a reminder 1440 minutes before.
     */
    function ReminderCall(): (r: Effect)
      ensures r.CreateEvent? && r.title == "Travel to " + destinationName && r.reminderMinutesBefore == 1440
      ensures r.location == destinationName && r.notes == destinationDescription
      ensures r.startDate == (if |suggestedDates| >= 1 then Some(suggestedDates[0]) else None)
      ensures r.endDate == (if |suggestedDates| >= 2 then Some(suggestedDates[1]) else None)
    {
      CreateEvent(EventTitle(destinationName), DateAt(suggestedDates, 0), DateAt(suggestedDates, 1),
                  destinationName, destinationDescription, ReminderMinutesBefore)
    }

    /**
     * `checkCalendarPermission`, as this component defines it: the shared
     * permission table, consulted only while the loading flag is up.
     */
    method CheckCalendarPermission(check: Reply<PermissionStatus>, request: Reply<PermissionStatus>)
      returns (granted: Reply<bool>, effects: seq<Effect>)
      requires isCalendarLoading
      ensures granted == PermissionAnswer(check, request)
      ensures effects == PermissionTrace(check, request)
    {
      granted, effects := Calendar.CheckCalendarPermission(check, request);
    }

    /**
     * `createCalendarEvent`: one native create. A truthy id is stored for the
     * destination; null or "" alerts and leaves the store alone; a throw
     * leaves it alone too.
     */
    method CreateCalendarEvent(create: Reply<Option<string>>) returns (effects: seq<Effect>, threw: bool)
      requires isCalendarLoading
      requires store.Valid()
      modifies store
      ensures store.Valid()
      ensures effects == CreateSteps(ReminderCall(), create)
      ensures threw <==> create.Throws?
      ensures store.calendarEvents ==
        if create.Returns? && Truthy(create.value)
        then Put(old(store.calendarEvents), destinationName, create.value.value)
        else old(store.calendarEvents)
    {
      var startDate := DateAt(suggestedDates, 0);
      var endDate := DateAt(suggestedDates, 1);
      var locationString := destinationName;
      effects := [CreateEvent(EventTitle(destinationName), startDate, endDate,
                              locationString, destinationDescription, ReminderMinutesBefore)];
      if create.Throws? {
        return effects, true;
      }
      var newEventId := create.value;
      threw := false;
      if !Truthy(newEventId) {
        effects := effects + [ShowAlert(CreateFailed)];
        return;
      }
      store.AddEvent(newEventId.value, destinationName);
    }

    /**
     * `deleteCalendarEvent`: with no truthy linked id, nothing happens.
     * Otherwise one native delete of that id; only a true answer clears the
     * destination's link, false alerts and keeps it, a throw keeps it.
     */
    method DeleteCalendarEvent(delete: Reply<bool>) returns (effects: seq<Effect>, threw: bool)
      requires isCalendarLoading
      requires store.Valid()
      modifies store
      ensures store.Valid()
      ensures !Truthy(old(EventId())) ==> effects == [] && !threw && store.calendarEvents == old(store.calendarEvents)
      ensures Truthy(old(EventId())) ==>
        && effects == DeleteSteps(old(EventId()).value, delete)
        && (threw <==> delete.Throws?)
        && store.calendarEvents ==
             if delete == Returns(true) then Delete(old(store.calendarEvents), destinationName)
             else old(store.calendarEvents)
    {
      var eventId := EventId();
      if !Truthy(eventId) {
        return [], false;
      }
      effects := [DeleteEvent(eventId.value)];
      if delete.Throws? {
        return effects, true;
      }
      threw := false;
      var isSuccess := delete.value;
      if !isSuccess {
        effects := effects + [ShowAlert(RemoveFailed)];
        return;
      }
      store.RemoveEventByDestination(destinationName);
    }

    /**
     * `handleCalendarAction`: raise the loading flag; with a linked id take the
     * delete path, otherwise create only once the permission check passes; an
     * exception from any step is caught and alerted; the flag drops on every
     * exit. The store changes only after a confirmed native outcome.
     */
    method HandleCalendarAction(replies: NativeReplies) returns (effects: seq<Effect>)
      requires store.Valid()
      modifies this, store
      ensures store.Valid()
      ensures !isCalendarLoading
      ensures effects == Bracketed(ToggleSteps(old(EventId()), Some(ReminderCall()), replies))
      ensures MutationCount(effects) <= 1
      ensures Truthy(old(EventId())) ==> CheckPermission !in effects && DeleteEvent(old(EventId()).value) in effects
      ensures store.calendarEvents ==
        if Truthy(old(EventId())) then
          if replies.delete == Returns(true) then Delete(old(store.calendarEvents), destinationName)
          else old(store.calendarEvents)
        else if PermissionPasses(replies.check, replies.request) && replies.create.Returns? && Truthy(replies.create.value)
          then Put(old(store.calendarEvents), destinationName, replies.create.value.value)
        else old(store.calendarEvents)
    {
      isCalendarLoading := true;
      var raised := [LoadingChanged(isCalendarLoading)];
      var body: seq<Effect>;
      var eventId := EventId();
      if Truthy(eventId) {
        var threw;
        body, threw := DeleteCalendarEvent(replies.delete);
        body := body + Caught(threw);
      } else {
        var hasPermission, checked := CheckCalendarPermission(replies.check, replies.request);
        var threw := hasPermission.Throws?;
        var created := [];
        if hasPermission == Returns(true) {
          created, threw := CreateCalendarEvent(replies.create);
        }
        body := checked + created + Caught(threw);
      }
      assert body == ToggleSteps(eventId, Some(ReminderCall()), replies);
      isCalendarLoading := false;
      effects := raised + body + [LoadingChanged(isCalendarLoading)];
      HandlerTrace(eventId, Some(ReminderCall()), replies);
    }
  }
}
