/**
 * What the toggle flows see of the outside world: the calendar permission
 * statuses of react-native-permissions, the native event module's calls, the
 * alerts shown to the user, and the permission check both components share.
 *
 * Native answers are not computed here: each flow receives them as a
 * `NativeReplies` value, one answer per call it may make. A reply either
 * returns a value or throws (a rejected promise or a native exception).
 */
module Calendar {
  import opened Records

  /**
   * The `RESULTS` of react-native-permissions. `Other` stands for any status
   * string that is none of the five named ones (the `default` branch).
   */
  datatype PermissionStatus = Granted | Limited | Denied | Blocked | Unavailable | Other

  /** The outcome of one awaited or native call. */
  datatype Reply<T> = Returns(value: T) | Throws

  /** The `Alert.alert` dialogs of the flows, by message. */
  datatype Alert =
    | AccessDeniedOpenSettings   // "Calendar Access Denied", with an "Open Settings" button
    | CalendarNotAvailable       // "Calendar is not available on this device"
    | CreateFailed               // "Failed to create calendar event"
    | RemoveFailed               // "Failed to remove event from calendar"
    | OperationFailed            // "Calendar operation failed" (the catch clause)

  /** One observable step of a flow, in the order it happens. */
  datatype Effect =
    | LoadingChanged(loading: bool)      // setIsCalendarLoading
    | CheckPermission                    // check(PERMISSIONS.IOS.CALENDARS)
    | RequestPermission                  // request(PERMISSIONS.IOS.CALENDARS)
    | CreateEvent(title: string, startDate: Option<string>, endDate: Option<string>,
                  location: string, notes: string, reminderMinutesBefore: int)
    | DeleteEvent(eventId: string)
    | ShowAlert(alert: Alert)
  {
    /** A call that changes the device calendar. */
    predicate IsNativeMutation() {
      CreateEvent? || DeleteEvent?
    }
  }

  /** The answers the outside world gives to one toggle action. */
  datatype NativeReplies = NativeReplies(
    check: Reply<PermissionStatus>,
    request: Reply<PermissionStatus>,
    create: Reply<Option<string>>,   // createEvent's `string | null`; None is null
    delete: Reply<bool>)

  /** Reminder lead time passed to createEvent: one day. */
  const ReminderMinutesBefore := 1440

  /** The event title for a destination. */
  function EventTitle(destinationName: string): string {
    "Travel to " + destinationName
  }

  /** `suggestedDates[i]`, which is `undefined` past the end of the array. */
  function DateAt(dates: seq<string>, i: nat): (d: Option<string>)
    ensures d.Some? <==> i < |dates|
    ensures d.Some? ==> d.value == dates[i]
  {
    if i < |dates| then Some(dates[i]) else None
  }

  /**
   * When the permission check answers true: the current status already allows
   * access, or it is DENIED and the one request it triggers comes back GRANTED.
   */
  predicate PermissionPasses(check: Reply<PermissionStatus>, request: Reply<PermissionStatus>) {
    match check
    case Returns(status) =>
      status == Granted || status == Limited || (status == Denied && request == Returns(Granted))
    case Throws => false
  }

  /** When the permission check itself throws: `check` rejects, or the request it issues rejects. */
  predicate PermissionThrows(check: Reply<PermissionStatus>, request: Reply<PermissionStatus>) {
    check.Throws? || (check == Returns(Denied) && request.Throws?)
  }

  /** Number of native calendar mutations in a trace. */
  function MutationCount(effects: seq<Effect>): (n: nat)
    ensures n <= |effects|
    ensures n == 0 <==> forall e :: e in effects ==> !e.IsNativeMutation()
  {
    if effects == [] then 0
    else (if effects[0].IsNativeMutation() then 1 else 0) + MutationCount(effects[1..])
  }

  /** Counting mutations distributes over a concatenated trace. */
  lemma {:induction false} MutationCountAppend(a: seq<Effect>, b: seq<Effect>)
    ensures MutationCount(a + b) == MutationCount(a) + MutationCount(b)
  {
    if a == [] {
      assert a + b == b;
    } else {
      assert (a + b)[1..] == a[1..] + b;
      MutationCountAppend(a[1..], b);
    }
  }

  /**
   * The answer of `checkCalendarPermission`: GRANTED and LIMITED pass; DENIED
   * defers to the one request, which passes only on GRANTED (a LIMITED answer
   * to the request does not pass); BLOCKED, UNAVAILABLE and any other status
   * fail. `Throws` when an awaited call rejects.
   */
  function PermissionAnswer(check: Reply<PermissionStatus>, request: Reply<PermissionStatus>): (r: Reply<bool>)
    ensures r == Returns(true) <==> PermissionPasses(check, request)
    ensures r == Throws <==> PermissionThrows(check, request)
  {
    match check
    case Throws => Throws
    case Returns(status) =>
      match status
      case Granted => Returns(true)
      case Limited => Returns(true)
      case Denied => (match request case Throws => Throws case Returns(answer) => Returns(answer == Granted))
      case _ => Returns(false)
  }

  /** The steps of `checkCalendarPermission`: a status check first, and nothing that touches the calendar. */
  function PermissionTrace(check: Reply<PermissionStatus>, request: Reply<PermissionStatus>): (t: seq<Effect>)
    ensures |t| >= 1 && t[0] == CheckPermission
    ensures forall e :: e in t ==> !e.IsNativeMutation() && !e.LoadingChanged? && e != ShowAlert(OperationFailed)
  {
    [CheckPermission] +
      match check
      case Throws => []
      case Returns(status) =>
        match status
        case Denied => [RequestPermission]
        case Blocked => [ShowAlert(AccessDeniedOpenSettings)]
        case Unavailable => [ShowAlert(CalendarNotAvailable)]
        case _ => []
  }

  /**
   * What the permission check asks of the outside world: one status check,
   * one request exactly when the status is DENIED, the settings alert exactly
   * when it is BLOCKED, the no-calendar alert exactly when it is UNAVAILABLE,
   * and no other alert.
   */
  lemma PermissionTraceCalls(check: Reply<PermissionStatus>, request: Reply<PermissionStatus>)
    ensures var t := PermissionTrace(check, request);
      && multiset(t)[CheckPermission] == 1
      && multiset(t)[RequestPermission] == (if check == Returns(Denied) then 1 else 0)
      && (ShowAlert(AccessDeniedOpenSettings) in t <==> check == Returns(Blocked))
      && (ShowAlert(CalendarNotAvailable) in t <==> check == Returns(Unavailable))
      && (forall e :: e in t && e.ShowAlert? ==>
            e == ShowAlert(AccessDeniedOpenSettings) || e == ShowAlert(CalendarNotAvailable))
  {
  }

  /**
   * `checkCalendarPermission`, shared verbatim by both components: await the
   * status, then decide, awaiting one request on DENIED.
   */
  method CheckCalendarPermission(check: Reply<PermissionStatus>, request: Reply<PermissionStatus>)
    returns (granted: Reply<bool>, effects: seq<Effect>)
    ensures granted == PermissionAnswer(check, request)
    ensures effects == PermissionTrace(check, request)
  {
    effects := [CheckPermission];
    if check.Throws? {
      return Throws, effects;
    }
    match check.value {
      case Granted =>
        granted := Returns(true);
      case Limited =>
        granted := Returns(true);
      case Denied =>
        effects := effects + [RequestPermission];
        match request {
          case Throws =>
            granted := Throws;
          case Returns(answer) =>
            granted := Returns(answer == Granted);
        }
      case Blocked =>
        effects := effects + [ShowAlert(AccessDeniedOpenSettings)];
        granted := Returns(false);
      case Unavailable =>
        effects := effects + [ShowAlert(CalendarNotAvailable)];
        granted := Returns(false);
      case Other =>
        granted := Returns(false);
    }
  }

  /** The steps of a create: the native call, then an alert when it returns null or "". */
  function CreateSteps(call: Effect, create: Reply<Option<string>>): (t: seq<Effect>)
    ensures 1 <= |t| <= 2 && t[0] == call
    ensures ShowAlert(CreateFailed) in t[1..] <==> create.Returns? && !Truthy(create.value)
  {
    [call] + (if create.Returns? && !Truthy(create.value) then [ShowAlert(CreateFailed)] else [])
  }

  /** The steps of a delete of `eventId`: the native call, then an alert when it answers false. */
  function DeleteSteps(eventId: string, delete: Reply<bool>): (t: seq<Effect>)
    ensures 1 <= |t| <= 2 && t[0] == DeleteEvent(eventId)
    ensures ShowAlert(RemoveFailed) in t <==> delete == Returns(false)
  {
    [DeleteEvent(eventId)] + (if delete == Returns(false) then [ShowAlert(RemoveFailed)] else [])
  }

  /** The catch clause: one generic alert when a step threw. */
  function Caught(threw: bool): (t: seq<Effect>)
    ensures |t| <= 1
    ensures ShowAlert(OperationFailed) in t <==> threw
  {
    if threw then [ShowAlert(OperationFailed)] else []
  }

  /**
   * The steps of one toggle between raising and dropping the loading flag.
   * `linked` is the id the component holds for its destination; `call` is the
   * create call it would make, or None when it makes none.
   */
  function ToggleSteps(linked: Option<string>, call: Option<Effect>, r: NativeReplies): (t: seq<Effect>)
    ensures |t| >= 1
    ensures t[0] == if Truthy(linked) then DeleteEvent(linked.value) else CheckPermission
  {
    if Truthy(linked) then
      DeleteSteps(linked.value, r.delete) + Caught(r.delete.Throws?)
    else
      var answer := PermissionAnswer(r.check, r.request);
      var creates := answer == Returns(true) && call.Some?;
      PermissionTrace(r.check, r.request)
      + (if creates then CreateSteps(call.value, r.create) else [])
      + Caught(answer.Throws? || (creates && r.create.Throws?))
  }

  /**
   * The delete path of a toggle: one native delete of the linked id and no
   * other calendar call, no permission check, no create; the generic alert
   * exactly when the delete threw.
   */
  lemma {:induction false} ToggleDeletePath(linked: Option<string>, call: Option<Effect>, r: NativeReplies)
    requires Truthy(linked)
    ensures var t := ToggleSteps(linked, call, r);
      && MutationCount(t) == 1
      && DeleteEvent(linked.value) in t
      && CheckPermission !in t
      && (forall e :: e in t ==> !e.CreateEvent? && !e.LoadingChanged?)
      && (ShowAlert(OperationFailed) in t <==> r.delete.Throws?)
  {
    var d := DeleteSteps(linked.value, r.delete);
    var k := Caught(r.delete.Throws?);
    assert ToggleSteps(linked, call, r) == [DeleteEvent(linked.value)] + (d[1..] + k);
    MutationCountAppend([DeleteEvent(linked.value)], d[1..] + k);
    MutationCountAppend(d[1..], k);
  }

  /** Mutations and membership of a trace made of three consecutive parts. */
  lemma {:induction false} ThreeParts(p: seq<Effect>, c: seq<Effect>, k: seq<Effect>)
    ensures MutationCount(p + c + k) == MutationCount(p) + MutationCount(c) + MutationCount(k)
    ensures forall e :: e in p + c + k <==> e in p || e in c || e in k
  {
    MutationCountAppend(p + c, k);
    MutationCountAppend(p, c);
  }

  /** A create contributes exactly one native mutation, its call. */
  lemma {:induction false} CreateStepsMutation(call: Effect, create: Reply<Option<string>>)
    requires call.CreateEvent?
    ensures MutationCount(CreateSteps(call, create)) == 1
  {
    var c := CreateSteps(call, create);
    assert c == [call] + c[1..];
    MutationCountAppend([call], c[1..]);
  }

  /**
   * The create path of a toggle: the permission check comes first, there is
   * no delete, and at most one native mutation.
   */
  lemma {:induction false} ToggleCreatePath(linked: Option<string>, call: Option<Effect>, r: NativeReplies)
    requires !Truthy(linked)
    requires call.Some? ==> call.value.CreateEvent?
    ensures var t := ToggleSteps(linked, call, r);
      && MutationCount(t) <= 1
      && |t| >= 1 && t[0] == CheckPermission
      && (forall e :: e in t ==> !e.DeleteEvent? && !e.LoadingChanged?)
  {
    var p := PermissionTrace(r.check, r.request);
    var creates := PermissionAnswer(r.check, r.request) == Returns(true) && call.Some?;
    var c := if creates then CreateSteps(call.value, r.create) else [];
    var k := Caught(PermissionAnswer(r.check, r.request).Throws? || (creates && r.create.Throws?));
    var t := ToggleSteps(linked, call, r);
    assert t == p + c + k;
    ThreeParts(p, c, k);
    if creates {
      CreateStepsMutation(call.value, r.create);
    }
    assert MutationCount(k) == 0;
    forall e | e in t
      ensures !e.DeleteEvent? && !e.LoadingChanged?
    {
      assert e in p || e in c || e in k;
    }
  }

  /**
   * Permission gating: on the create path a native create happens exactly
   * when the permission check passes and the component has a call to make.
   */
  lemma {:induction false} ToggleCreateGate(linked: Option<string>, call: Option<Effect>, r: NativeReplies)
    requires !Truthy(linked)
    requires call.Some? ==> call.value.CreateEvent?
    ensures (exists e :: e in ToggleSteps(linked, call, r) && e.CreateEvent?) <==>
      PermissionPasses(r.check, r.request) && call.Some?
  {
    var p := PermissionTrace(r.check, r.request);
    var creates := PermissionAnswer(r.check, r.request) == Returns(true) && call.Some?;
    var c := if creates then CreateSteps(call.value, r.create) else [];
    var k := Caught(PermissionAnswer(r.check, r.request).Throws? || (creates && r.create.Throws?));
    var t := ToggleSteps(linked, call, r);
    assert t == p + c + k;
    ThreeParts(p, c, k);
    if creates {
      assert c[0] == call.value;
      assert call.value in t;
    } else {
      forall e | e in t
        ensures !e.CreateEvent?
      {
        assert e in p || e in k;
      }
    }
  }

  /** On the create path, the generic alert appears exactly when the permission check or the create threw. */
  lemma {:induction false} ToggleCreatePathCatch(linked: Option<string>, call: Option<Effect>, r: NativeReplies)
    requires !Truthy(linked)
    requires call.Some? ==> call.value.CreateEvent?
    ensures ShowAlert(OperationFailed) in ToggleSteps(linked, call, r) <==>
      PermissionThrows(r.check, r.request) || (PermissionPasses(r.check, r.request) && call.Some? && r.create.Throws?)
  {
    var p := PermissionTrace(r.check, r.request);
    var creates := PermissionAnswer(r.check, r.request) == Returns(true) && call.Some?;
    var c := if creates then CreateSteps(call.value, r.create) else [];
    var k := Caught(PermissionAnswer(r.check, r.request).Throws? || (creates && r.create.Throws?));
    assert ToggleSteps(linked, call, r) == p + c + k;
    ThreeParts(p, c, k);
    assert ShowAlert(OperationFailed) !in c;
    assert ShowAlert(OperationFailed) !in p;
  }

  /** The trace of a handler whose steps `body` run while the loading flag is raised. */
  function Bracketed(body: seq<Effect>): (effects: seq<Effect>)
    requires forall e :: e in body ==> !e.LoadingChanged?
    ensures |effects| >= 2 && effects[0] == LoadingChanged(true) && effects[|effects| - 1] == LoadingChanged(false)
    ensures forall i :: 0 < i < |effects| - 1 ==> !effects[i].LoadingChanged?
    ensures forall e :: e in effects <==> e in body || e == LoadingChanged(true) || e == LoadingChanged(false)
    ensures MutationCount(effects) == MutationCount(body)
  {
    var effects := [LoadingChanged(true)] + body + [LoadingChanged(false)];
    assert forall i :: 0 < i < |effects| - 1 ==> effects[i] == body[i - 1];
    MutationCountAppend([LoadingChanged(true)], body);
    MutationCountAppend([LoadingChanged(true)] + body, [LoadingChanged(false)]);
    effects
  }

  /**
   * One press of the button, loading flag included: the flag is raised first
   * and dropped last, at most one native calendar mutation happens, a linked
   * id leads to its delete with no permission check and no create, and
   * without one the permission is checked and nothing is deleted.
   */
  lemma {:induction false} HandlerTrace(linked: Option<string>, call: Option<Effect>, r: NativeReplies)
    requires call.Some? ==> call.value.CreateEvent?
    ensures forall e :: e in ToggleSteps(linked, call, r) ==> !e.LoadingChanged?
    ensures var t := Bracketed(ToggleSteps(linked, call, r));
      && t[0] == LoadingChanged(true) && t[|t| - 1] == LoadingChanged(false)
      && MutationCount(t) <= 1
      && (Truthy(linked) ==>
            DeleteEvent(linked.value) in t && CheckPermission !in t && forall e :: e in t ==> !e.CreateEvent?)
      && (!Truthy(linked) ==>
            CheckPermission in t && forall e :: e in t ==> !e.DeleteEvent?)
  {
    if Truthy(linked) {
      ToggleDeletePath(linked, call, r);
    } else {
      ToggleCreatePath(linked, call, r);
      assert ToggleSteps(linked, call, r)[0] in ToggleSteps(linked, call, r);
    }
  }
}
