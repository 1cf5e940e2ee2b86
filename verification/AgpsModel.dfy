/** The base AGPS state machine as a value: connection state, subscriber list, and a log of what was
    received and what was sent, in order.  `Agps` runs the handlers over mutable fields and is
    proved to follow `Step`; what every run keeps is proved here. */
module AgpsModel {
  datatype AgpsState = RELEASED | PENDING | ACQUIRED | RELEASING

  datatype Subscriber = Subscriber(connHandle: int, waitForCloseComplete: bool, isInactive: bool)

  /** What reaches the machine: ATL requests and releases by handle, the three resource events, and
      a modem restart that drops all subscribers. */
  datatype Event =
    | RequestAtl(connHandle: int, waitForCloseComplete: bool)
    | ReleaseAtl(connHandle: int)
    | Granted
    | Released
    | Denied
    | ModemSsr

  /** The log: events received, callbacks and data-connection commands sent, and the two silent
      changes of the list. */
  datatype Action =
    | Received(event: Event)
    | AtlOpenStatus(connHandle: int, isSuccess: bool)
    | AtlCloseStatus(connHandle: int, isSuccess: bool)
    | RequestDataConn
    | ReleaseDataConn
    | Joined(connHandle: int)
    | Dropped(connHandle: int)

  datatype Machine = Machine(state: AgpsState, subs: seq<Subscriber>, log: seq<Action>)

  const INIT := Machine(RELEASED, [], [])

  datatype Audience = All | Inactive | Active

  /** What can be said to a whole audience; `Drop` is the silent removal. */
  datatype Message = OpenOk | OpenFailed | CloseOk | Drop {
    function To(handle: int): Action {
      match this
      case OpenOk => AtlOpenStatus(handle, true)
      case OpenFailed => AtlOpenStatus(handle, false)
      case CloseOk => AtlCloseStatus(handle, true)
      case Drop => Dropped(handle)
    }
  }

  // ---------- lists ----------

  predicate Selected(s: Subscriber, to: Audience) {
    to.All? || (to.Inactive? && s.isInactive) || (to.Active? && !s.isInactive)
  }

  predicate Present(subs: seq<Subscriber>, handle: int) {
    subs != [] && (subs[0].connHandle == handle || Present(subs[1..], handle))
  }

  /** The first subscriber with the handle. */
  function Find(subs: seq<Subscriber>, handle: int): (s: Subscriber)
    requires Present(subs, handle)
    ensures s in subs && s.connHandle == handle
  {
    if subs[0].connHandle == handle then subs[0] else Find(subs[1..], handle)
  }

  predicate AnySelected(subs: seq<Subscriber>, to: Audience) {
    subs != [] && (Selected(subs[0], to) || AnySelected(subs[1..], to))
  }

  function Without(subs: seq<Subscriber>, handle: int): seq<Subscriber> {
    if subs == [] then []
    else (if subs[0].connHandle == handle then [] else [subs[0]]) + Without(subs[1..], handle)
  }

  function Deactivate(subs: seq<Subscriber>, handle: int): (r: seq<Subscriber>)
    ensures r == [] <==> subs == []
  {
    if subs == [] then []
    else [if subs[0].connHandle == handle then subs[0].(isInactive := true) else subs[0]] +
         Deactivate(subs[1..], handle)
  }

  /** The subscribers a notification does not reach. */
  function Unreached(subs: seq<Subscriber>, to: Audience): seq<Subscriber> {
    if subs == [] then []
    else (if Selected(subs[0], to) then [] else [subs[0]]) + Unreached(subs[1..], to)
  }

  /** One message for each subscriber reached, in list order. */
  function Notices(subs: seq<Subscriber>, message: Message, to: Audience): seq<Action> {
    if subs == [] then []
    else (if Selected(subs[0], to) then [message.To(subs[0].connHandle)] else []) +
         Notices(subs[1..], message, to)
  }

  // ---------- handlers ----------

  function Send(m: Machine, actions: seq<Action>): Machine {
    m.(log := m.log + actions)
  }

  function AddSubscriber(m: Machine, s: Subscriber): Machine {
    if Present(m.subs, s.connHandle) then m
    else m.(subs := m.subs + [s], log := m.log + [Joined(s.connHandle)])
  }

  function Subscribe(m: Machine, s: Subscriber): Machine {
    match m.state
    case RELEASED => Send(AddSubscriber(m, s), [RequestDataConn]).(state := PENDING)
    case PENDING => AddSubscriber(m, s)
    case ACQUIRED => AddSubscriber(Send(m, [OpenOk.To(s.connHandle)]), s)
    case RELEASING => AddSubscriber(m, s)
  }

  /** A subscriber that waits for the connection to close turns inactive, any other is notified and
      deleted. */
  function Leave(m: Machine, s: Subscriber): Machine {
    if s.waitForCloseComplete then m.(subs := Deactivate(m.subs, s.connHandle))
    else Send(m, [CloseOk.To(s.connHandle)]).(subs := Without(m.subs, s.connHandle))
  }

  function Unsubscribe(m: Machine, s: Subscriber): Machine {
    match m.state
    case RELEASED => Send(m, [CloseOk.To(s.connHandle)])
    case RELEASING =>
      var left := Leave(m, s);
      if left.subs == [] then left.(state := RELEASED) else left
    case _ =>
      var left := Leave(m, s);
      if left.subs == [] then Send(left, [ReleaseDataConn]).(state := RELEASED)
      else if !AnySelected(left.subs, Active) then Send(left, [ReleaseDataConn]).(state := RELEASING)
      else left
  }

  /** The connection is gone while releasing: those waiting for that are told and deleted, and if
      others came meanwhile the connection is requested again. */
  function FinishReleasing(m: Machine): Machine {
    var told := Send(m, Notices(m.subs, CloseOk, Inactive)).(subs := Unreached(m.subs, Inactive));
    if AnySelected(told.subs, Active) then Send(told, [RequestDataConn]).(state := PENDING)
    else told.(state := RELEASED)
  }

  function Handle(m: Machine, e: Event): Machine {
    match e
    case RequestAtl(handle, wait) => Subscribe(m, Subscriber(handle, wait, false))
    case ReleaseAtl(handle) =>
      if Present(m.subs, handle) then Unsubscribe(m, Find(m.subs, handle))
      else Send(m, [AtlCloseStatus(handle, false)])
    case Granted =>
      if m.state.PENDING? then Send(m, Notices(m.subs, OpenOk, Active)).(state := ACQUIRED) else m
    case Released =>
      if m.state.ACQUIRED? then
        Send(m, Notices(m.subs, CloseOk, All)).(state := RELEASED, subs := Unreached(m.subs, All))
      else if m.state.RELEASING? then FinishReleasing(m)
      else m
    case Denied =>
      if m.state.PENDING? then
        Send(m, Notices(m.subs, OpenFailed, All)).(state := RELEASED, subs := Unreached(m.subs, All))
      else if m.state.RELEASING? then FinishReleasing(m)
      else m
    case ModemSsr =>
      Send(m, Notices(m.subs, Drop, All)).(subs := [])
  }

  function Step(m: Machine, e: Event): Machine {
    Handle(Send(m, [Received(e)]), e)
  }

  function Run(events: seq<Event>): Machine {
    if events == [] then INIT else Step(Run(events[..|events| - 1]), events[|events| - 1])
  }

  // ---------- facts about lists ----------

  function Occurs(subs: seq<Subscriber>, handle: int): nat {
    if subs == [] then 0 else (if subs[0].connHandle == handle then 1 else 0) + Occurs(subs[1..], handle)
  }

  function Count(log: seq<Action>, a: Action): nat {
    if log == [] then 0 else Count(log[..|log| - 1], a) + if log[|log| - 1] == a then 1 else 0
  }

  predicate InactiveWait(subs: seq<Subscriber>) {
    subs == [] || (InactiveWait(subs[1..]) && (subs[0].isInactive ==> subs[0].waitForCloseComplete))
  }

  /** A round of notices extends the log one subscriber at a time. */
  lemma LogAfterNotices(log: seq<Action>, subs: seq<Subscriber>, message: Message, to: Audience)
    ensures log + Notices(subs, message, to) ==
            if subs == [] then log
            else (if Selected(subs[0], to) then log + [message.To(subs[0].connHandle)] else log) +
                 Notices(subs[1..], message, to)
  {
  }

  lemma {:induction false} PresentOccurs(subs: seq<Subscriber>, handle: int)
    ensures Present(subs, handle) <==> Occurs(subs, handle) > 0
  {
    if subs != [] { PresentOccurs(subs[1..], handle); }
  }

  lemma {:induction false} AppendFacts(subs: seq<Subscriber>, s: Subscriber, handle: int, to: Audience)
    ensures Occurs(subs + [s], handle) == Occurs(subs, handle) + if s.connHandle == handle then 1 else 0
    ensures AnySelected(subs + [s], to) <==> AnySelected(subs, to) || Selected(s, to)
    ensures InactiveWait(subs + [s]) <==> InactiveWait(subs) && (s.isInactive ==> s.waitForCloseComplete)
  {
    if subs != [] {
      assert (subs + [s])[1..] == subs[1..] + [s];
      AppendFacts(subs[1..], s, handle, to);
    }
  }

  lemma {:induction false} WithoutFacts(subs: seq<Subscriber>, handle: int, h: int)
    ensures Occurs(Without(subs, handle), h) == if h == handle then 0 else Occurs(subs, h)
    ensures InactiveWait(subs) ==> InactiveWait(Without(subs, handle))
    ensures AnySelected(Without(subs, handle), Inactive) ==> AnySelected(subs, Inactive)
  {
    if subs != [] {
      WithoutFacts(subs[1..], handle, h);
      var rest := Without(subs[1..], handle);
      assert ([subs[0]] + rest)[1..] == rest;
      assert [] + rest == rest;
    }
  }

  /** Deleting a subscriber that does not wait leaves every inactive one. */
  lemma {:induction false} WithoutKeepsInactive(subs: seq<Subscriber>, handle: int)
    requires InactiveWait(subs) && Occurs(subs, handle) <= 1
    requires Present(subs, handle) && !Find(subs, handle).waitForCloseComplete
    ensures AnySelected(subs, Inactive) ==> AnySelected(Without(subs, handle), Inactive)
  {
    var rest := Without(subs[1..], handle);
    assert ([subs[0]] + rest)[1..] == rest;
    assert [] + rest == rest;
    if subs[0].connHandle == handle {
      PresentOccurs(subs[1..], handle);
      WithoutAbsent(subs[1..], handle);
    } else {
      WithoutKeepsInactive(subs[1..], handle);
    }
  }

  lemma {:induction false} WithoutAbsent(subs: seq<Subscriber>, handle: int)
    requires !Present(subs, handle)
    ensures Without(subs, handle) == subs
  {
    if subs != [] { WithoutAbsent(subs[1..], handle); }
  }

  lemma {:induction false} DeactivateFacts(subs: seq<Subscriber>, handle: int, h: int)
    ensures Occurs(Deactivate(subs, handle), h) == Occurs(subs, h)
    ensures Present(subs, handle) ==> AnySelected(Deactivate(subs, handle), Inactive)
    ensures AnySelected(subs, Inactive) ==> AnySelected(Deactivate(subs, handle), Inactive)
    ensures InactiveWait(subs) && Occurs(subs, handle) <= 1 && Present(subs, handle) ==>
              (Find(subs, handle).waitForCloseComplete ==> InactiveWait(Deactivate(subs, handle)))
    ensures !Present(subs, handle) ==> Deactivate(subs, handle) == subs
  {
    if subs != [] {
      DeactivateFacts(subs[1..], handle, h);
      PresentOccurs(subs[1..], handle);
    }
  }

  lemma {:induction false} UnreachedFacts(subs: seq<Subscriber>, to: Audience, handle: int)
    ensures Occurs(Unreached(subs, to), handle) <= Occurs(subs, handle)
    ensures InactiveWait(subs) ==> InactiveWait(Unreached(subs, to))
    ensures to.All? ==> Unreached(subs, to) == []
    ensures to.Inactive? && !AnySelected(Unreached(subs, to), Active) ==> Unreached(subs, to) == []
  {
    if subs != [] {
      UnreachedFacts(subs[1..], to, handle);
      var rest := Unreached(subs[1..], to);
      assert ([subs[0]] + rest)[1..] == rest;
      assert [] + rest == rest;
    }
  }

  // ---------- the state and the list ----------

  /** Handles are distinct, an inactive subscriber is one that waits for the close, RELEASED has no
      subscribers, and PENDING and ACQUIRED have an active one or (after a modem restart) none. */
  ghost predicate Consistent(m: Machine) {
    && (forall h :: Occurs(m.subs, h) <= 1)
    && InactiveWait(m.subs)
    && (m.state.RELEASED? ==> m.subs == [])
    && (m.state.PENDING? || m.state.ACQUIRED? ==> m.subs == [] || AnySelected(m.subs, Active))
  }

  /** What holds on top of that as long as no modem restart dropped the subscribers. */
  ghost predicate Populated(m: Machine) {
    && (m.state.PENDING? || m.state.ACQUIRED? ==> AnySelected(m.subs, Active))
    && (m.state.RELEASING? ==> AnySelected(m.subs, Inactive))
  }

  lemma ConsistentAfterAdd(m: Machine, s: Subscriber)
    requires Consistent(m) && !s.isInactive && !m.state.RELEASED?
    ensures Consistent(AddSubscriber(m, s)) && (Populated(m) ==> Populated(AddSubscriber(m, s)))
  {
    PresentOccurs(m.subs, s.connHandle);
    forall h { AppendFacts(m.subs, s, h, Active); }
    AppendFacts(m.subs, s, 0, Inactive);
  }

  lemma ConsistentAfterSubscribe(m: Machine, s: Subscriber)
    requires Consistent(m) && !s.isInactive
    ensures Consistent(Subscribe(m, s)) && (Populated(m) ==> Populated(Subscribe(m, s)))
  {
    match m.state
    case RELEASED => forall h { AppendFacts([], s, h, Active); }
    case ACQUIRED => ConsistentAfterAdd(Send(m, [OpenOk.To(s.connHandle)]), s);
    case _ => ConsistentAfterAdd(m, s);
  }

  lemma ListsAfterLeave(m: Machine, handle: int)
    requires Consistent(m) && Present(m.subs, handle)
    ensures var left := Leave(m, Find(m.subs, handle));
            (forall h :: Occurs(left.subs, h) <= 1) && InactiveWait(left.subs) &&
            (left.subs != [] && !AnySelected(left.subs, Active) ==> AnySelected(left.subs, Inactive)) &&
            (AnySelected(m.subs, Inactive) ==> AnySelected(left.subs, Inactive))
  {
    var left := Leave(m, Find(m.subs, handle));
    forall h ensures Occurs(left.subs, h) <= 1 {
      WithoutFacts(m.subs, handle, h);
      DeactivateFacts(m.subs, handle, h);
    }
    WithoutFacts(m.subs, handle, handle);
    DeactivateFacts(m.subs, handle, handle);
    if !Find(m.subs, handle).waitForCloseComplete { WithoutKeepsInactive(m.subs, handle); }
    if left.subs != [] { assert Selected(left.subs[0], Active) || Selected(left.subs[0], Inactive); }
  }

  lemma ConsistentAfterUnsubscribe(m: Machine, handle: int)
    requires Consistent(m) && Present(m.subs, handle)
    ensures var after := Unsubscribe(m, Find(m.subs, handle));
            Consistent(after) && (Populated(m) ==> Populated(after))
  {
    hide Leave, Occurs, InactiveWait, AnySelected;
    ListsAfterLeave(m, handle);
    LeaveKeepsState(m, Find(m.subs, handle));
    NobodyThere();
  }

  lemma LeaveKeepsState(m: Machine, s: Subscriber)
    ensures Leave(m, s).state == m.state
  {
  }

  lemma NobodyThere()
    ensures !AnySelected([], Active) && !AnySelected([], Inactive) && InactiveWait([])
    ensures forall h :: Occurs([], h) == 0
  {
  }

  lemma ConsistentAfterFinish(m: Machine)
    requires Consistent(m)
    ensures Consistent(FinishReleasing(m)) && Populated(FinishReleasing(m))
  {
    hide Occurs, InactiveWait, AnySelected, Unreached, Notices;
    forall h ensures Occurs(Unreached(m.subs, Inactive), h) <= 1 { UnreachedFacts(m.subs, Inactive, h); }
    UnreachedFacts(m.subs, Inactive, 0);
  }

  lemma ConsistentAfterStep(m: Machine, e: Event)
    requires Consistent(m)
    ensures Consistent(Step(m, e)) && (Populated(m) && !e.ModemSsr? ==> Populated(Step(m, e)))
  {
    hide Occurs, InactiveWait, AnySelected, Unreached, Notices, Subscribe, Unsubscribe, FinishReleasing, Present;
    var got := Send(m, [Received(e)]);
    UnreachedFacts(m.subs, All, 0);
    NobodyThere();
    match e
    case RequestAtl(handle, wait) => ConsistentAfterSubscribe(got, Subscriber(handle, wait, false));
    case ReleaseAtl(handle) => if Present(m.subs, handle) { ConsistentAfterUnsubscribe(got, handle); }
    case Released => if m.state.RELEASING? { ConsistentAfterFinish(got); }
    case Denied => if m.state.RELEASING? { ConsistentAfterFinish(got); }
    case _ =>
  }

  lemma {:induction false} AlwaysConsistent(events: seq<Event>)
    ensures Consistent(Run(events)) && ((forall e :: e in events ==> !e.ModemSsr?) ==> Populated(Run(events)))
  {
    if events != [] {
      var front, last := events[..|events| - 1], events[|events| - 1];
      AlwaysConsistent(front);
      ConsistentAfterStep(Run(front), last);
      assert events == front + [last];
    }
  }

  // ---------- who is listed after a modem restart ----------

  /** No modem restart so far, or a subscription was asked for after the last one. */
  predicate Since(events: seq<Event>) {
    events == [] ||
    match events[|events| - 1]
    case ModemSsr => false
    case RequestAtl(_, _) => true
    case _ => Since(events[..|events| - 1])
  }

  /** Whether somebody waits for the connection to close after the event, if `waiting` says it for
      before: a listed subscriber that waits is released, and waits until the list is dropped or the
      connection is reported gone. */
  predicate WaitingAfter(m: Machine, e: Event, waiting: bool) {
    match e
    case ModemSsr => false
    case ReleaseAtl(handle) => waiting || (Present(m.subs, handle) && Find(m.subs, handle).waitForCloseComplete)
    case Released => waiting && m.state.PENDING?
    case Denied => waiting && m.state.ACQUIRED?
    case _ => waiting
  }

  predicate Waiting(events: seq<Event>) {
    events != [] &&
    var front := events[..|events| - 1];
    WaitingAfter(Run(front), events[|events| - 1], Waiting(front))
  }

  ghost predicate Listed(m: Machine, since: bool, waiting: bool) {
    && (m.state.PENDING? || m.state.ACQUIRED? ==> (AnySelected(m.subs, Active) <==> since))
    && (!m.state.RELEASED? ==> (m.subs != [] <==> since))
    && (AnySelected(m.subs, Inactive) <==> waiting)
  }

  lemma {:induction false} WithoutInactive(subs: seq<Subscriber>, to: Audience)
    ensures to.Inactive? || to.All? ==> !AnySelected(Unreached(subs, to), Inactive)
  {
    if subs != [] {
      WithoutInactive(subs[1..], to);
      var rest := Unreached(subs[1..], to);
      assert ([subs[0]] + rest)[1..] == rest;
      assert [] + rest == rest;
    }
  }

  lemma InactiveAfterLeave(m: Machine, handle: int)
    requires Consistent(m) && Present(m.subs, handle)
    ensures var s := Find(m.subs, handle);
            AnySelected(Leave(m, s).subs, Inactive) <==> AnySelected(m.subs, Inactive) || s.waitForCloseComplete
  {
    var s := Find(m.subs, handle);
    WithoutFacts(m.subs, handle, handle);
    DeactivateFacts(m.subs, handle, handle);
    if !s.waitForCloseComplete { WithoutKeepsInactive(m.subs, handle); }
  }

  lemma ListedAfterUnsubscribe(m: Machine, handle: int, since: bool, waiting: bool)
    requires Consistent(m) && Listed(m, since, waiting) && Present(m.subs, handle)
    ensures Listed(Unsubscribe(m, Find(m.subs, handle)), since, waiting || Find(m.subs, handle).waitForCloseComplete)
  {
    hide Leave, Occurs, InactiveWait, AnySelected, Present;
    InactiveAfterLeave(m, handle);
    ListsAfterLeave(m, handle);
    LeaveKeepsState(m, Find(m.subs, handle));
    NobodyThere();
    SomebodyThere(m.subs, handle);
  }

  lemma SomebodyThere(subs: seq<Subscriber>, handle: int)
    requires Present(subs, handle)
    ensures subs != []
  {
  }

  lemma ListedAfterSubscribe(m: Machine, s: Subscriber, since: bool, waiting: bool)
    requires Consistent(m) && Listed(m, since, waiting) && !s.isInactive
    ensures Listed(Subscribe(m, s), true, waiting)
  {
    hide Occurs, InactiveWait;
    AppendFacts(m.subs, s, s.connHandle, Active);
    AppendFacts(m.subs, s, s.connHandle, Inactive);
  }

  lemma ListedAfterFinish(m: Machine, since: bool, waiting: bool)
    requires Consistent(m) && Listed(m, since, waiting) && m.state.RELEASING?
    ensures Listed(FinishReleasing(m), since, false)
  {
    hide Occurs, InactiveWait, Notices;
    WithoutInactive(m.subs, Inactive);
    NobodyThere();
  }

  lemma ListedAfterStep(m: Machine, e: Event, since: bool, waiting: bool)
    requires Consistent(m) && Listed(m, since, waiting)
    ensures Listed(Step(m, e), if e.ModemSsr? then false else since || e.RequestAtl?, WaitingAfter(m, e, waiting))
  {
    hide Occurs, InactiveWait, AnySelected, Unreached, Notices, Subscribe, Unsubscribe, FinishReleasing, Present;
    var got := Send(m, [Received(e)]);
    UnreachedFacts(m.subs, All, 0);
    NobodyThere();
    match e
    case RequestAtl(handle, wait) => ListedAfterSubscribe(got, Subscriber(handle, wait, false), since, waiting);
    case ReleaseAtl(handle) => if Present(m.subs, handle) { ListedAfterUnsubscribe(got, handle, since, waiting); }
    case Released => if m.state.RELEASING? { ListedAfterFinish(got, since, waiting); }
    case Denied => if m.state.RELEASING? { ListedAfterFinish(got, since, waiting); }
    case _ =>
  }

  /** In every run, modem restarts included: in PENDING and ACQUIRED there is an active subscriber, and
      in any state but RELEASED there is a subscriber at all, if and only if someone has asked for one
      since the last restart; there is an inactive one, in RELEASING or elsewhere, if and only if a
      subscriber that waits for the close was released and neither dropped nor told since. */
  lemma {:induction false} ListedIff(events: seq<Event>)
    ensures var m := Run(events);
            && (m.state.PENDING? || m.state.ACQUIRED? ==> (AnySelected(m.subs, Active) <==> Since(events)))
            && (!m.state.RELEASED? ==> (m.subs != [] <==> Since(events)))
            && (AnySelected(m.subs, Inactive) <==> Waiting(events))
  {
    if events != [] {
      var front, last := events[..|events| - 1], events[|events| - 1];
      ListedIff(front);
      AlwaysConsistent(front);
      ListedAfterStep(Run(front), last, Since(front), Waiting(front));
    }
  }

  /** A restart while the connection is requested leaves PENDING without a subscriber, and one while it
      is being released leaves RELEASING without one. */
  lemma RestartLeavesNobody()
    ensures Run([RequestAtl(1, false), ModemSsr]).state.PENDING?
    ensures Run([RequestAtl(1, false), ModemSsr]).subs == []
    ensures Run([RequestAtl(1, true), ReleaseAtl(1), ModemSsr]).state.RELEASING?
    ensures Run([RequestAtl(1, true), ReleaseAtl(1), ModemSsr]).subs == []
  {
    hide *;
    RestartWhilePending();
    RestartWhileReleasing();
  }

  lemma RunOfOne(e: Event)
    ensures Run([e]) == Step(INIT, e)
  {
    RunOneMore([], e);
    assert [] + [e] == [e];
  }

  lemma DropsAll(m: Machine)
    ensures Step(m, ModemSsr).state == m.state && Step(m, ModemSsr).subs == []
  {
  }

  lemma RestartWhilePending()
    ensures Run([RequestAtl(1, false), ModemSsr]).state.PENDING?
    ensures Run([RequestAtl(1, false), ModemSsr]).subs == []
  {
    hide Run;
    var request := RequestAtl(1, false);
    RunOfOne(request);
    RunOneMore([request], ModemSsr);
    assert [request] + [ModemSsr] == [request, ModemSsr];
    DropsAll(Run([request]));
  }

  lemma RestartWhileReleasing()
    ensures Run([RequestAtl(1, true), ReleaseAtl(1), ModemSsr]).state.RELEASING?
    ensures Run([RequestAtl(1, true), ReleaseAtl(1), ModemSsr]).subs == []
  {
    hide Run, Step;
    var request, release := RequestAtl(1, true), ReleaseAtl(1);
    RunOfOne(request);
    RunOneMore([request], release);
    assert [request] + [release] == [request, release];
    RunOneMore([request, release], ModemSsr);
    assert [request, release] + [ModemSsr] == [request, release, ModemSsr];
    var m := WaitsAlone();
    ReleasingAlone(m);
    DropsAll(Run([request, release]));
  }

  lemma WaitsAlone() returns (m: Machine)
    ensures m == Step(INIT, RequestAtl(1, true)) && m.state.PENDING? && m.subs == [Subscriber(1, true, false)]
  {
    m := Step(INIT, RequestAtl(1, true));
  }

  lemma ReleasingAlone(m: Machine)
    requires m.state.PENDING? && m.subs == [Subscriber(1, true, false)]
    ensures Step(m, ReleaseAtl(1)).state.RELEASING?
  {
    var got, s := Send(m, [Received(ReleaseAtl(1))]), Subscriber(1, true, false);
    assert Find(got.subs, 1) == s;
    assert Leave(got, s).subs == [s.(isInactive := true)];
    assert !AnySelected(Leave(got, s).subs, Active);
  }

  lemma RunOneMore(events: seq<Event>, e: Event)
    ensures Run(events + [e]) == Step(Run(events), e)
  {
    assert (events + [e])[..|events|] == events;
  }

  // ---------- the data connection ----------

  /** The connection as the framework sees it, from the log alone. */
  datatype Phase = NoConn | Requested | Connected | Violated

  function NextPhase(p: Phase, a: Action): Phase {
    match a
    case RequestDataConn => if p.NoConn? then Requested else Violated
    case ReleaseDataConn => if p.Requested? || p.Connected? then NoConn else Violated
    case Received(Granted) => if p.Requested? then Connected else p
    case Received(Released) => if p.Connected? then NoConn else p
    case Received(Denied) => if p.Requested? then NoConn else p
    case _ => p
  }

  function PhaseOf(log: seq<Action>): Phase {
    if log == [] then NoConn else NextPhase(PhaseOf(log[..|log| - 1]), log[|log| - 1])
  }

  function PhaseIn(state: AgpsState): Phase {
    match state
    case PENDING => Requested
    case ACQUIRED => Connected
    case _ => NoConn
  }

  lemma PhaseSnoc(log: seq<Action>, a: Action)
    ensures PhaseOf(log + [a]) == NextPhase(PhaseOf(log), a)
  {
    assert (log + [a])[..|log|] == log;
  }

  /** Messages to subscribers do not touch the connection. */
  lemma {:induction false} PhaseAfterNotices(log: seq<Action>, subs: seq<Subscriber>, message: Message,
                                             to: Audience)
    ensures PhaseOf(log + Notices(subs, message, to)) == PhaseOf(log)
    decreases subs
  {
    hide PhaseOf, Notices;
    LogAfterNotices(log, subs, message, to);
    if subs != [] {
      if Selected(subs[0], to) {
        var first := message.To(subs[0].connHandle);
        PhaseSnoc(log, first);
        PhaseAfterNotices(log + [first], subs[1..], message, to);
      } else {
        PhaseAfterNotices(log, subs[1..], message, to);
      }
    }
  }

  lemma PhaseAfterAdd(m: Machine, s: Subscriber)
    ensures PhaseOf(AddSubscriber(m, s).log) == PhaseOf(m.log)
  {
    PhaseSnoc(m.log, Joined(s.connHandle));
  }

  lemma PhaseAfterSubscribe(m: Machine, s: Subscriber)
    requires PhaseOf(m.log) == PhaseIn(m.state)
    ensures PhaseOf(Subscribe(m, s).log) == PhaseIn(Subscribe(m, s).state)
  {
    hide PhaseOf, AddSubscriber;
    PhaseAfterAdd(m, s);
    AddKeepsState(m, s);
    PhaseSnoc(AddSubscriber(m, s).log, RequestDataConn);
    PhaseSnoc(m.log, OpenOk.To(s.connHandle));
    PhaseAfterAdd(Send(m, [OpenOk.To(s.connHandle)]), s);
    AddKeepsState(Send(m, [OpenOk.To(s.connHandle)]), s);
  }

  lemma AddKeepsState(m: Machine, s: Subscriber)
    ensures AddSubscriber(m, s).state == m.state
  {
  }

  lemma PhaseAfterUnsubscribe(m: Machine, s: Subscriber)
    requires PhaseOf(m.log) == PhaseIn(m.state)
    ensures PhaseOf(Unsubscribe(m, s).log) == PhaseIn(Unsubscribe(m, s).state)
  {
    hide PhaseOf, Deactivate, Without, AnySelected;
    PhaseSnoc(m.log, CloseOk.To(s.connHandle));
    PhaseSnoc(Leave(m, s).log, ReleaseDataConn);
  }

  lemma PhaseAfterFinish(m: Machine)
    requires m.state.RELEASING? && PhaseOf(m.log) == NoConn
    ensures PhaseOf(FinishReleasing(m).log) == PhaseIn(FinishReleasing(m).state)
  {
    hide PhaseOf, Notices, Unreached, AnySelected;
    PhaseAfterNotices(m.log, m.subs, CloseOk, Inactive);
    PhaseSnoc(m.log + Notices(m.subs, CloseOk, Inactive), RequestDataConn);
  }

  lemma PhaseAfterStep(m: Machine, e: Event)
    requires PhaseOf(m.log) == PhaseIn(m.state)
    ensures PhaseOf(Step(m, e).log) == PhaseIn(Step(m, e).state)
  {
    hide PhaseOf, Notices, Unreached, Subscribe, Unsubscribe, FinishReleasing, Present;
    var got := Send(m, [Received(e)]);
    PhaseSnoc(m.log, Received(e));
    match e
    case RequestAtl(handle, wait) => PhaseAfterSubscribe(got, Subscriber(handle, wait, false));
    case ReleaseAtl(handle) =>
      PhaseSnoc(got.log, AtlCloseStatus(handle, false));
      if Present(m.subs, handle) { PhaseAfterUnsubscribe(got, Find(m.subs, handle)); }
    case Granted => PhaseAfterNotices(got.log, m.subs, OpenOk, Active);
    case ModemSsr => PhaseAfterNotices(got.log, m.subs, Drop, All);
    case Released =>
      PhaseAfterNotices(got.log, m.subs, CloseOk, All);
      if m.state.RELEASING? { PhaseAfterFinish(got); }
    case Denied =>
      PhaseAfterNotices(got.log, m.subs, OpenFailed, All);
      if m.state.RELEASING? { PhaseAfterFinish(got); }
  }

  /** In every run, modem restarts included, a connection is requested only when there is none and
      released only when there is one, and it is outstanding exactly in PENDING and ACQUIRED. */
  lemma {:induction false} ConnectionFollowsState(events: seq<Event>)
    ensures PhaseOf(Run(events).log) == PhaseIn(Run(events).state)
  {
    if events != [] {
      var front, last := events[..|events| - 1], events[|events| - 1];
      ConnectionFollowsState(front);
      PhaseAfterStep(Run(front), last);
    }
  }

  predicate EndsConnection(a: Action) {
    a == ReleaseDataConn || a == Received(Denied) || a == Received(Released)
  }

  lemma {:induction false} PrefixesObey(log: seq<Action>, n: nat)
    requires n <= |log| && !PhaseOf(log).Violated?
    ensures !PhaseOf(log[..n]).Violated?
  {
    if n < |log| {
      PrefixesObey(log[..|log| - 1], n);
      assert log[..|log| - 1][..n] == log[..n];
    } else {
      assert log[..n] == log;
    }
  }

  /** Until something ends it, a request stays outstanding. */
  lemma {:induction false} StaysOutstanding(log: seq<Action>, i: nat, k: nat)
    requires i < k <= |log| && log[i] == RequestDataConn && !PhaseOf(log[..k]).Violated?
    requires forall j :: i < j < k ==> !EndsConnection(log[j])
    ensures PhaseOf(log[..k]).Requested? || PhaseOf(log[..k]).Connected?
  {
    hide PhaseOf;
    assert log[..k] == log[..k - 1] + [log[k - 1]];
    PhaseSnoc(log[..k - 1], log[k - 1]);
    if i < k - 1 { StaysOutstanding(log, i, k - 1); }
  }

  lemma SecondRequestViolates(log: seq<Action>, i: nat, k: nat)
    requires i < k < |log| && log[i] == log[k] == RequestDataConn
    requires forall j :: i < j < k ==> !EndsConnection(log[j])
    ensures PhaseOf(log[..k + 1]).Violated?
  {
    hide PhaseOf;
    assert log[..k + 1] == log[..k] + [log[k]];
    PhaseSnoc(log[..k], log[k]);
    if !PhaseOf(log[..k]).Violated? { StaysOutstanding(log, i, k); }
  }

  /** Between two requests there is always a release, a denial or a forced release. */
  lemma RequestsAreSeparated(events: seq<Event>, i: nat, k: nat)
    requires var log := Run(events).log;
             i < k < |log| && log[i] == RequestDataConn && log[k] == RequestDataConn
    ensures exists j :: i < j < k && EndsConnection(Run(events).log[j])
  {
    hide PhaseOf, Run;
    var log := Run(events).log;
    ConnectionFollowsState(events);
    PrefixesObey(log, k + 1);
    if forall j :: i < j < k ==> !EndsConnection(log[j]) { SecondRequestViolates(log, i, k); }
  }

  // ---------- notifications ----------

  /** Notifications that end a subscription. */
  function Terminations(log: seq<Action>, handle: int): nat {
    Count(log, CloseOk.To(handle)) + Count(log, OpenFailed.To(handle))
  }

  /** Everyone who joined is still listed, was told once that it is over, or was dropped. */
  ghost predicate Conserved(m: Machine, handle: int) {
    Count(m.log, Joined(handle)) ==
    Occurs(m.subs, handle) + Terminations(m.log, handle) + Count(m.log, Dropped(handle))
  }

  predicate Ends(a: Action, handle: int) {
    a == CloseOk.To(handle) || a == OpenFailed.To(handle) || a == Dropped(handle)
  }

  /** Joins minus ends. */
  function Tally(log: seq<Action>, handle: int): int {
    Count(log, Joined(handle)) - Terminations(log, handle) - Count(log, Dropped(handle))
  }

  lemma TallySnoc(log: seq<Action>, last: Action, handle: int)
    ensures Tally(log + [last], handle) ==
            Tally(log, handle) + (if last == Joined(handle) then 1 else 0) - (if Ends(last, handle) then 1 else 0)
  {
    assert (log + [last])[..|log|] == log;
  }

  /** A round of notices ends the subscriptions it reaches, unless it says "granted". */
  lemma {:induction false} TallyNotices(log: seq<Action>, subs: seq<Subscriber>, message: Message, to: Audience,
                                        handle: int)
    ensures Tally(log + Notices(subs, message, to), handle) == Tally(log, handle) -
            if message.OpenOk? then 0 else Occurs(subs, handle) - Occurs(Unreached(subs, to), handle)
    decreases subs
  {
    hide Tally, Notices;
    LogAfterNotices(log, subs, message, to);
    if subs != [] {
      var first, left := subs[0], Unreached(subs[1..], to);
      assert ([first] + left)[1..] == left;
      assert [] + left == left;
      if Selected(first, to) {
        TallySnoc(log, message.To(first.connHandle), handle);
        TallyNotices(log + [message.To(first.connHandle)], subs[1..], message, to, handle);
      } else {
        TallyNotices(log, subs[1..], message, to, handle);
      }
    }
  }

  lemma TallyAfterAdd(m: Machine, s: Subscriber, handle: int)
    ensures Tally(AddSubscriber(m, s).log, handle) - Occurs(AddSubscriber(m, s).subs, handle) ==
            Tally(m.log, handle) - Occurs(m.subs, handle)
  {
    hide Tally, Occurs;
    TallySnoc(m.log, Joined(s.connHandle), handle);
    AppendFacts(m.subs, s, handle, Active);
  }

  lemma ConservedAfterSubscribe(m: Machine, s: Subscriber, handle: int)
    requires Tally(m.log, handle) == Occurs(m.subs, handle)
    ensures Tally(Subscribe(m, s).log, handle) == Occurs(Subscribe(m, s).subs, handle)
  {
    hide Tally, Occurs, AddSubscriber;
    TallyAfterAdd(m, s, handle);
    TallySnoc(AddSubscriber(m, s).log, RequestDataConn, handle);
    TallySnoc(m.log, OpenOk.To(s.connHandle), handle);
    TallyAfterAdd(Send(m, [OpenOk.To(s.connHandle)]), s, handle);
  }

  lemma ConservedAfterLeave(m: Machine, s: Subscriber, handle: int)
    requires Tally(m.log, handle) == Occurs(m.subs, handle) && Occurs(m.subs, s.connHandle) == 1
    ensures Tally(Leave(m, s).log, handle) == Occurs(Leave(m, s).subs, handle)
  {
    hide Tally, Occurs;
    TallySnoc(m.log, CloseOk.To(s.connHandle), handle);
    WithoutFacts(m.subs, s.connHandle, handle);
    DeactivateFacts(m.subs, s.connHandle, handle);
  }

  lemma ConservedAfterUnsubscribe(m: Machine, s: Subscriber, handle: int)
    requires Tally(m.log, handle) == Occurs(m.subs, handle)
    requires !m.state.RELEASED? && Occurs(m.subs, s.connHandle) == 1
    ensures Tally(Unsubscribe(m, s).log, handle) == Occurs(Unsubscribe(m, s).subs, handle)
  {
    hide Tally, Occurs, Leave;
    ConservedAfterLeave(m, s, handle);
    TallySnoc(Leave(m, s).log, ReleaseDataConn, handle);
  }

  lemma ConservedAfterFinish(m: Machine, handle: int)
    requires Tally(m.log, handle) == Occurs(m.subs, handle)
    ensures Tally(FinishReleasing(m).log, handle) == Occurs(FinishReleasing(m).subs, handle)
  {
    hide Tally, Occurs, Notices, Unreached;
    TallyNotices(m.log, m.subs, CloseOk, Inactive, handle);
    TallySnoc(m.log + Notices(m.subs, CloseOk, Inactive), RequestDataConn, handle);
  }

  lemma ConservedAfterStep(m: Machine, e: Event, handle: int)
    requires Consistent(m) && Tally(m.log, handle) == Occurs(m.subs, handle)
    ensures Tally(Step(m, e).log, handle) == Occurs(Step(m, e).subs, handle)
  {
    hide Tally, Notices, Unreached, Subscribe, Unsubscribe, FinishReleasing;
    var got := Send(m, [Received(e)]);
    TallySnoc(m.log, Received(e), handle);
    UnreachedFacts(m.subs, All, handle);
    match e
    case RequestAtl(h, wait) => ConservedAfterSubscribe(got, Subscriber(h, wait, false), handle);
    case ReleaseAtl(h) =>
      TallySnoc(got.log, AtlCloseStatus(h, false), handle);
      if Present(m.subs, h) {
        PresentOccurs(m.subs, h);
        ConservedAfterUnsubscribe(got, Find(m.subs, h), handle);
      }
    case Granted => TallyNotices(got.log, m.subs, OpenOk, Active, handle);
    case ModemSsr => TallyNotices(got.log, m.subs, Drop, All, handle);
    case Released =>
      TallyNotices(got.log, m.subs, CloseOk, All, handle);
      if m.state.RELEASING? { ConservedAfterFinish(got, handle); }
    case Denied =>
      TallyNotices(got.log, m.subs, OpenFailed, All, handle);
      if m.state.RELEASING? { ConservedAfterFinish(got, handle); }
  }

  /** In every run each accepted subscription is still listed, was ended by exactly one terminating
      notification, or was dropped by a modem restart. */
  lemma {:induction false} SubscriptionsConserved(events: seq<Event>, handle: int)
    ensures Conserved(Run(events), handle)
  {
    if events != [] {
      var front, last := events[..|events| - 1], events[|events| - 1];
      SubscriptionsConserved(front, handle);
      AlwaysConsistent(front);
      ConservedAfterStep(Run(front), last, handle);
    }
  }

  // ---------- who has been told ----------

  /** The last word to the handle is that its connection is granted. */
  predicate Told(log: seq<Action>, handle: int) {
    log != [] &&
    var last := log[|log| - 1];
    last == OpenOk.To(handle) || (!Ends(last, handle) && Told(log[..|log| - 1], handle))
  }

  ghost predicate ActiveTold(m: Machine) {
    forall s :: s in m.subs && !s.isInactive ==> Told(m.log, s.connHandle)
  }

  lemma ToldSnoc(log: seq<Action>, last: Action, handle: int)
    ensures Told(log + [last], handle) <==>
            last == OpenOk.To(handle) || (!Ends(last, handle) && Told(log, handle))
  {
    assert (log + [last])[..|log|] == log;
  }

  lemma ToldAfter(log: seq<Action>, last: Action)
    ensures forall h :: Told(log + [last], h) <==>
              last == OpenOk.To(h) || (!Ends(last, h) && Told(log, h))
  {
    forall h
      ensures Told(log + [last], h) <==> last == OpenOk.To(h) || (!Ends(last, h) && Told(log, h))
    {
      ToldSnoc(log, last, h);
    }
  }

  lemma {:induction false} GrantTells(log: seq<Action>, subs: seq<Subscriber>, handle: int)
    requires Told(log, handle) || exists s :: s in subs && !s.isInactive && s.connHandle == handle
    ensures Told(log + Notices(subs, OpenOk, Active), handle)
    decreases subs
  {
    hide Told, Notices;
    LogAfterNotices(log, subs, OpenOk, Active);
    if subs != [] {
      var first := subs[0];
      assert forall s :: s in subs ==> s == first || s in subs[1..];
      if Selected(first, Active) {
        ToldSnoc(log, OpenOk.To(first.connHandle), handle);
        GrantTells(log + [OpenOk.To(first.connHandle)], subs[1..], handle);
      } else {
        GrantTells(log, subs[1..], handle);
      }
    }
  }

  lemma {:induction false} Survivors(subs: seq<Subscriber>, handle: int)
    ensures forall s :: s in Without(subs, handle) ==> s in subs && s.connHandle != handle
    ensures forall s :: s in Deactivate(subs, handle) && !s.isInactive ==> s in subs && s.connHandle != handle
  {
    if subs != [] { Survivors(subs[1..], handle); }
  }

  lemma ToldAfterUnsubscribe(m: Machine, s: Subscriber)
    requires m.state.ACQUIRED? ==> ActiveTold(m)
    ensures Unsubscribe(m, s).state.ACQUIRED? ==> ActiveTold(Unsubscribe(m, s))
  {
    hide Told, Without, Deactivate, AnySelected;
    Survivors(m.subs, s.connHandle);
    ToldAfter(m.log, CloseOk.To(s.connHandle));
  }

  lemma ToldAfterSubscribe(m: Machine, s: Subscriber)
    requires m.state.ACQUIRED? ==> ActiveTold(m)
    ensures Subscribe(m, s).state.ACQUIRED? ==> ActiveTold(Subscribe(m, s))
  {
    hide Told;
    var told := Send(m, [OpenOk.To(s.connHandle)]);
    ToldAfter(m.log, OpenOk.To(s.connHandle));
    ToldAfter(told.log, Joined(s.connHandle));
  }

  lemma ToldAfterStep(m: Machine, e: Event)
    requires m.state.ACQUIRED? ==> ActiveTold(m)
    ensures Step(m, e).state.ACQUIRED? ==> ActiveTold(Step(m, e))
  {
    hide Told, Notices, Subscribe, Unsubscribe, Unreached;
    var got := Send(m, [Received(e)]);
    ToldAfter(m.log, Received(e));
    match e
    case RequestAtl(h, wait) =>
      ToldAfterSubscribe(got, Subscriber(h, wait, false));
    case ReleaseAtl(h) =>
      ToldAfter(got.log, AtlCloseStatus(h, false));
      if Present(m.subs, h) { ToldAfterUnsubscribe(got, Find(m.subs, h)); }
    case Granted =>
      if m.state.PENDING? {
        forall s | s in m.subs && !s.isInactive
          ensures Told(got.log + Notices(m.subs, OpenOk, Active), s.connHandle)
        {
          GrantTells(got.log, m.subs, s.connHandle);
        }
      }
    case _ =>
  }

  /** In every run, while ACQUIRED, the last word to each active subscriber is GRANTED. */
  lemma {:induction false} ActiveAreTold(events: seq<Event>)
    ensures Run(events).state.ACQUIRED? ==> ActiveTold(Run(events))
  {
    if events != [] {
      ActiveAreTold(events[..|events| - 1]);
      ToldAfterStep(Run(events[..|events| - 1]), events[|events| - 1]);
    }
  }
}
