# Travel reminders: destination → calendar event links

This project models the calendar-reminder core of a React Native travel app.
On a destination's detail screen, a button adds a "Travel to <destination>"
event to the device calendar, or removes the one already linked. A zustand
store remembers which calendar event belongs to which destination.

The model has four parts:

- `records.dfy` (module `Records`). `calendarEvents` is a JavaScript
  `Record<string, string>` from destination name to event id. It is modelled
  as its entries in key order. Order matters because `removeEvent` takes the
  first matching key of `Object.keys`. `View` turns the entries into the
  plain map the rest of the app reads.
- `stores.dfy` (module `Stores`). `TravelStore` (src/store/travelStore.ts)
  and `DestinationsStore` (src/store/destinationsStore.ts) are classes. Each
  action replaces the `calendarEvents` field with the result of the pure
  updater from `Records`.
- `calendar.dfy` (module `Calendar`). The behaviour both components share:
  - the permission table of `checkCalendarPermission`;
  - the native calls and alerts a handler issues, written as a trace of
    `Effect`s;
  - reference functions for one button press (`ToggleSteps`, `Bracketed`);
  - lemmas about those functions.
- `suggested_dates.dfy` and `travel_planning_section.dfy`. The components
  `SuggestedDates` and `TravelPlanningSection` are classes. `isCalendarLoading`
  is a field. Each handler is a method that takes the native answers as
  inputs and returns the effects it produced, in order. Its `ensures` ties
  that trace to the reference functions, and states the store's new contents.

Native answers are inputs, not calls:

- `check` and `request` from react-native-permissions;
- `NativeEventKit.createEvent` and `deleteEvent`.

Each answer is a `Reply`: either a value or `Throws`. The component's
`catch` turns a throw into the "Calendar operation failed" alert.

`createEvent`'s answer is an `Option<string>`. `None` stands for `null`.
JavaScript truthiness is modelled by `Truthy`: present and non-empty.

Three readings of the code:

- **`TravelStore` has no `getEventByDestination`.** `SuggestedDates` calls it
  anyway, at src/components/SuggestedDates.tsx:28-30. It is read as
  `calendarEvents[destinationName]`, which is how
  src/components/DestinationCard.tsx:28 reads the same store.
- **`TravelPlanningSection` uses members that `DestinationsStore` does not
  define.** They are `getDestination`, `setEventId` and `removeEventId`. The
  model reads them as follows:
  - `getDestination(name)` is an input: a destination with its description
    and its already formatted coordinates, or `None`.
  - `setEventId(name, id)` is `addEvent(id, name)`.
  - `removeEventId(name)` is `removeEventByDestination(name)`.
- **`removeEvent` never removes a match stored under the empty name.** It
  drops the matching key only when the key is truthy (`if (destinationName)`),
  so a match under `""` stays. The model keeps this behaviour and states it in
  `Records.RemoveEvent`'s contract.

## Model

| member | source | states |
|---|---|---|
| `Records.View` | src/store/travelStore.ts:21 | the keys of the map are exactly the names that are own properties of the record |
| `Records.Lookup` | src/store/destinationsStore.ts:34-36 | `record[name]` is defined exactly when `name` is a key, and then it is that key's value |
| `Records.Put` | src/store/travelStore.ts:32-38 | spreading and then setting `[name]: id` gives the old map with `name` bound to `id`; every other key keeps its value; a new key is appended last; keys stay distinct |
| `Records.Delete` | src/store/travelStore.ts:53-57 | rest-destructuring away `name` gives the old map minus `name`; every other key is kept; an absent name leaves the record identical; keys stay distinct |
| `Records.FirstWithEvent` | src/store/travelStore.ts:42-44 | `Object.keys(...).find`: the returned position holds `id`, no earlier position does, and `|r|` means there is no match |
| `Records.RemoveEvent` | src/store/travelStore.ts:40-51 | with no key mapping to `id`, the state is unchanged; otherwise the first matching entry in key order is removed if its name is truthy, and nothing else changes; the result drops at most one key, and only a non-empty key that mapped to `id` |
| `Records.DeleteAt` | src/store/travelStore.ts:46-48 | with distinct keys, deleting the name found at a position removes exactly that entry, so the other keys keep their order |
| `Records.ViewAt` | src/store/travelStore.ts:43 | with distinct keys, `record[name]` for the name at a position is the id stored there |
| `Records.NoLinkToEvent` | src/store/travelStore.ts:42-45 | if no key of the map maps to `id`, then `find` finds no entry |
| `Records.PutExisting` | src/store/travelStore.ts:34-37 | re-linking a name that is already a key replaces its value in place, without moving any entry |
| `Records.PutThenDelete` | src/store/travelStore.ts:32-57 | `addEvent(id, name)` and then `removeEventByDestination(name)` restore the record exactly, order included, when `name` was not a key |
| `Records.DeleteIdempotent` | src/store/travelStore.ts:53-57 | removing by destination twice is the same as removing once |
| `Records.RemoveEventKeepsOtherEvents` | src/store/travelStore.ts:40-51 | `removeEvent(id)` never touches a key that maps to a different id |
| `Stores.TravelStore.constructor` | src/store/travelStore.ts:30 | the store starts with no links |
| `Stores.TravelStore.AddEvent` | src/store/travelStore.ts:32-38 | the new record is `Put` of the old one; afterwards `name` maps to `id` and every other key keeps its value |
| `Stores.TravelStore.RemoveEvent` | src/store/travelStore.ts:40-51 | the new record is `RemoveEvent` of the old one; with no key mapping to `id` the state is unchanged; otherwise at most one non-empty key that mapped to `id` is gone |
| `Stores.TravelStore.RemoveEventByDestination` | src/store/travelStore.ts:53-57 | the new map is the old one minus `name`; an absent name leaves the state unchanged |
| `Stores.DestinationsStore.constructor` | src/store/destinationsStore.ts:12 | the store starts with no links |
| `Stores.DestinationsStore.AddEvent` | src/store/destinationsStore.ts:14-20 | afterwards `getEventByDestination(name)` is `id`, and every other name reads as before |
| `Stores.DestinationsStore.RemoveEvent` | src/store/destinationsStore.ts:22-32 | the new record is `RemoveEvent` of the old one; an id that is not present leaves the state unchanged; at most one entry is removed, and only one whose value is `id` |
| `Stores.DestinationsStore.GetEventByDestination` | src/store/destinationsStore.ts:34-36 | returns the stored id exactly when the name is a key, and `undefined` otherwise; it only reads the store |
| `Stores.DestinationsStore.RemoveEventByDestination` | src/store/destinationsStore.ts:38-42 | afterwards `getEventByDestination(name)` is `undefined`, and every other name reads as before |
| `Calendar.DateAt` | src/components/SuggestedDates.tsx:76-77 | `suggestedDates[i]` is the i-th date when it exists and `undefined` past the end |
| `Calendar.MutationCount` | src/components/SuggestedDates.tsx:80-102 | counts the native create and delete calls in a trace; zero exactly when there are none |
| `Calendar.PermissionAnswer` | src/components/SuggestedDates.tsx:42-73 | the check resolves to true exactly when the status is GRANTED or LIMITED, or it is DENIED and the request answers GRANTED; it throws exactly when `check` throws, or the status is DENIED and `request` throws |
| `Calendar.PermissionTrace` | src/components/SuggestedDates.tsx:42-73 | the permission check always starts with `check`; it makes no calendar change and no generic-failure alert |
| `Calendar.PermissionTraceCalls` | src/components/SuggestedDates.tsx:45-71 | `check` is called once; `request` is called once on DENIED and never otherwise; the settings alert appears exactly on BLOCKED; the no-calendar alert appears exactly on UNAVAILABLE; no other alert appears |
| `Calendar.CheckCalendarPermission` | src/components/SuggestedDates.tsx:42-73 | the imperative `switch` returns the answer and the calls of the reference table |
| `Calendar.CreateSteps` | src/components/SuggestedDates.tsx:80-92 | a create issues its native call first, then the "failed to create" alert exactly when the call returns null or "" |
| `Calendar.DeleteSteps` | src/components/SuggestedDates.tsx:102-107 | a delete issues the native delete of that id first, then the "failed to remove" alert exactly when the call answers false |
| `Calendar.Caught` | src/components/SuggestedDates.tsx:124-125 | the catch clause shows the generic alert exactly when a step threw, and nothing otherwise |
| `Calendar.ToggleSteps` | src/components/SuggestedDates.tsx:115-126 | the reference for the `try`/`catch` of one press: it starts with the native delete of the linked id when there is one, and with the permission check otherwise |
| `Calendar.ToggleDeletePath` | src/components/SuggestedDates.tsx:97-110 | a linked id leads to one native delete of that id, with no permission check, no create, and no other calendar change; the generic alert appears exactly when the delete throws |
| `Calendar.CreateStepsMutation` | src/components/SuggestedDates.tsx:75-95 | creating makes exactly one native calendar change |
| `Calendar.ToggleCreatePath` | src/components/SuggestedDates.tsx:118-123 | with no linked id, the permission check comes first, nothing is deleted, and at most one calendar change happens |
| `Calendar.ToggleCreateGate` | src/components/SuggestedDates.tsx:119-122 | with no linked id, `createEvent` is called exactly when the permission check passes and the component has a call to make |
| `Calendar.ToggleCreatePathCatch` | src/components/SuggestedDates.tsx:115-126 | with no linked id, the generic alert appears exactly when the permission check threw, or it passed and `createEvent` threw |
| `Calendar.Bracketed` | src/components/SuggestedDates.tsx:112-129 | the loading flag is raised first and dropped last, and it does not change in between; the calls in between are exactly the handler's own |
| `Calendar.HandlerTrace` | src/components/SuggestedDates.tsx:112-129 | one press raises the flag first and drops it last, and makes at most one calendar change; a linked id means a delete with no permission check and no create; otherwise permission is checked and nothing is deleted |
| `SuggestedDatesComponent.SuggestedDates.constructor` | src/components/SuggestedDates.tsx:26 | the component starts with the loading flag down |
| `SuggestedDatesComponent.SuggestedDates.EventId` | src/components/SuggestedDates.tsx:28-30 | the linked id is defined exactly when the destination's name is a key of the store, and then it is that key's value |
| `SuggestedDatesComponent.SuggestedDates.ReminderCall` | src/components/SuggestedDates.tsx:76-87 | `createEvent` gets "Travel to " + name, `suggestedDates[0]` and `[1]` (undefined past the end), the name as location, the description as notes, and 1440 minutes |
| `SuggestedDatesComponent.SuggestedDates.CheckCalendarPermission` | src/components/SuggestedDates.tsx:42-73 | runs only while the loading flag is up; its answer and its calls are the permission table's |
| `SuggestedDatesComponent.SuggestedDates.CreateCalendarEvent` | src/components/SuggestedDates.tsx:75-95 | runs only while the loading flag is up; `createEvent` gets "Travel to " + name, dates 0 and 1, the name as location, the description as notes, and 1440 minutes; a truthy id is stored for the destination; null or "" alerts and leaves the store unchanged; a throw leaves it unchanged |
| `SuggestedDatesComponent.SuggestedDates.DeleteCalendarEvent` | src/components/SuggestedDates.tsx:97-110 | runs only while the loading flag is up; with no truthy stored id, there is no call and no change; otherwise one delete of that id; only `true` removes the link; `false` alerts and keeps it |
| `SuggestedDatesComponent.SuggestedDates.HandleCalendarAction` | src/components/SuggestedDates.tsx:112-129 | the flag is raised before any step and each loading effect records the field's value as it is written; the trace is the bracketed reference toggle, with at most one calendar change; a stored id means no permission check; the store changes only after a confirmed native outcome; the flag is down at the end |
| `TravelPlanningComponent.TravelPlanningSection.constructor` | src/components/TravelPlanningSection.tsx:20 | the component starts with the loading flag down |
| `TravelPlanningComponent.TravelPlanningSection.ReminderCall` | src/components/TravelPlanningSection.tsx:70-83 | there is a call exactly when the destination is known; it gets "Travel to " + name, `suggestedDates[0]` and `[1]`, "name (coordinates)" as location, the description as notes, and 1440 minutes |
| `TravelPlanningComponent.TravelPlanningSection.CheckCalendarPermission` | src/components/TravelPlanningSection.tsx:36-67 | runs only while the loading flag is up; its answer and its calls are the permission table's |
| `TravelPlanningComponent.TravelPlanningSection.CreateCalendarEvent` | src/components/TravelPlanningSection.tsx:69-91 | runs only while the loading flag is up; with no destination, there is no call and no store write; otherwise `createEvent` gets "Travel to " + name, dates 0 and 1, "name (coordinates)", the description, and 1440 minutes; the id is stored only when it is truthy |
| `TravelPlanningComponent.TravelPlanningSection.DeleteCalendarEvent` | src/components/TravelPlanningSection.tsx:93-104 | runs only while the loading flag is up; with no truthy `eventId` prop, nothing happens; otherwise one delete of that id; the link is removed only when the delete answers `true` |
| `TravelPlanningComponent.TravelPlanningSection.HandleCalendarAction` | src/components/TravelPlanningSection.tsx:106-124 | the flag is raised before any step and each loading effect records the field's value as it is written; the trace is the bracketed reference toggle for the prop id and the destination's call, with at most one calendar change; the flag is down at the end; the store changes only after a confirmed native outcome |

## Left out

- Persistence: the MMKV storage adapter and zustand `persist`/`createJSONStorage` (src/store/travelStore.ts:5-18, 59-63) wrap libraries outside this model. The store is modelled in memory.
- Asynchrony: `await` points and overlapping presses are not modelled. Each handler runs to completion in sequence. The guard against a second press (`disabled={isLoading}` in CalendarButton) is not part of this model.
- Native modules: `check`, `request`, `openSettings`, `NativeEventKit.createEvent` and `deleteEvent` are foreign calls. Their answers are inputs; their own behaviour is not modelled.
- Alerts and logging: `Alert.alert` becomes an `Alert` tag in the trace. The dialog texts, the "Open Settings" button's action and `console.error` are not modelled.
- Key order: all keys are kept in insertion order. JavaScript moves integer-like keys such as "42" to the front of `Object.keys`; that reordering is not modelled.
- Inherited properties: `calendarEvents[name]` on a plain object also sees `Object.prototype` members such as "toString". The model treats the record as its own properties only.
- `formatCoordinate` and `getTravelDateRange`: these use floating-point formatting, `Date` and the locale. The formatted coordinates enter as part of the `Destination` input, and the date range is not modelled.
- Rendering: layout, styles, the button's animation and the status badge are not modelled.
- Stale props: `TravelPlanningSection`'s `eventId` prop is a constant of the component. Whether the parent passes a new prop after the store changes is not modelled.
