/** What each event brings about in the AGPS machine, said without its handlers: who is listed
    afterwards and how, which callbacks and commands are sent and how often, and in what order. */
module AgpsEffects {
  import opened AgpsModel

  // ---------- who is listed ----------

  datatype Status = Absent | Listed(waits: bool, inactive: bool)

  function StatusOf(subs: seq<Subscriber>, handle: int): Status {
    if Present(subs, handle) then Listed(Find(subs, handle).waitForCloseComplete, Find(subs, handle).isInactive)
    else Absent
  }

  /** The status of a handle after an event, from its status and the connection state before. */
  function StatusAfter(state: AgpsState, e: Event, handle: int, before: Status): Status {
    match e
    case RequestAtl(h, wait) => if h == handle && before.Absent? then Listed(wait, false) else before
    case ReleaseAtl(h) =>
      if h != handle || before.Absent? then before else if before.waits then Listed(true, true) else Absent
    case Granted => before
    case Released =>
      if state.ACQUIRED? || (state.RELEASING? && before.Listed? && before.inactive) then Absent else before
    case Denied =>
      if state.PENDING? || (state.RELEASING? && before.Listed? && before.inactive) then Absent else before
    case ModemSsr => Absent
  }

  lemma {:induction false} StatusAppend(subs: seq<Subscriber>, s: Subscriber, handle: int)
    ensures StatusOf(subs + [s], handle) ==
            if Present(subs, handle) then StatusOf(subs, handle)
            else if s.connHandle == handle then Listed(s.waitForCloseComplete, s.isInactive) else Absent
  {
    if subs == [] {
      assert subs + [s] == [s];
    } else {
      assert (subs + [s])[1..] == subs[1..] + [s];
      StatusAppend(subs[1..], s, handle);
    }
  }

  lemma {:induction false} StatusWithout(subs: seq<Subscriber>, gone: int, handle: int)
    ensures StatusOf(Without(subs, gone), handle) == if handle == gone then Absent else StatusOf(subs, handle)
  {
    if subs != [] {
      StatusWithout(subs[1..], gone, handle);
      var rest := Without(subs[1..], gone);
      assert ([subs[0]] + rest)[1..] == rest && [] + rest == rest;
    }
  }

  lemma {:induction false} StatusDeactivate(subs: seq<Subscriber>, left: int, handle: int)
    ensures var before, after := StatusOf(subs, handle), StatusOf(Deactivate(subs, left), handle);
            after == if handle == left && before.Listed? then Listed(before.waits, true) else before
  {
    if subs != [] { StatusDeactivate(subs[1..], left, handle); }
  }

  lemma {:induction false} StatusUnreached(subs: seq<Subscriber>, to: Audience, handle: int)
    requires Occurs(subs, handle) <= 1
    ensures var before := StatusOf(subs, handle);
            StatusOf(Unreached(subs, to), handle) ==
            if before.Listed? && Selected(Find(subs, handle), to) then Absent else before
  {
    if subs != [] {
      StatusUnreached(subs[1..], to, handle);
      PresentOccurs(subs[1..], handle);
      var rest := Unreached(subs[1..], to);
      assert ([subs[0]] + rest)[1..] == rest && [] + rest == rest;
    }
  }

  lemma StatusAfterUnsubscribe(m: Machine, left: int, handle: int)
    requires Present(m.subs, left) && !m.state.RELEASED?
    ensures StatusOf(Unsubscribe(m, Find(m.subs, left)).subs, handle) ==
            StatusAfter(m.state, ReleaseAtl(left), handle, StatusOf(m.subs, handle))
  {
    hide Without, Deactivate, AnySelected;
    StatusWithout(m.subs, left, handle);
    StatusDeactivate(m.subs, left, handle);
  }

  /** Every event, in every state, changes who is listed in exactly this way. */
  lemma StatusAfterStep(m: Machine, e: Event, handle: int)
    requires Consistent(m)
    ensures StatusOf(Step(m, e).subs, handle) == StatusAfter(m.state, e, handle, StatusOf(m.subs, handle))
  {
    hide Notices, Unreached, Unsubscribe, Occurs;
    var got := Send(m, [Received(e)]);
    UnreachedFacts(m.subs, All, handle);
    assert Occurs(m.subs, handle) <= 1;
    match e
    case RequestAtl(h, wait) => StatusAppend(m.subs, Subscriber(h, wait, false), handle);
    case ReleaseAtl(h) => if Present(m.subs, h) { StatusAfterUnsubscribe(got, h, handle); }
    case Granted =>
    case Released => StatusUnreached(m.subs, Inactive, handle);
    case Denied => StatusUnreached(m.subs, Inactive, handle);
    case ModemSsr =>
  }

  /** Who asks is listed, whatever the state. */
  lemma RequestIsListed(m: Machine, handle: int, wait: bool)
    requires Consistent(m)
    ensures Present(Step(m, RequestAtl(handle, wait)).subs, handle)
  {
    StatusAfterStep(m, RequestAtl(handle, wait), handle);
  }

  // ---------- the order of the list ----------

  /** `a` stands ahead of `b`. */
  predicate Ahead(subs: seq<Subscriber>, a: int, b: int) {
    subs != [] && if subs[0].connHandle == a then Present(subs[1..], b) else Ahead(subs[1..], a, b)
  }

  lemma {:induction false} AheadAppend(subs: seq<Subscriber>, s: Subscriber, a: int, b: int)
    requires Present(subs, a) && !Present(subs, s.connHandle)
    ensures Ahead(subs + [s], a, b) <==> Ahead(subs, a, b) || b == s.connHandle
  {
    assert (subs + [s])[1..] == subs[1..] + [s];
    if subs[0].connHandle == a {
      StatusAppend(subs[1..], s, b);
    } else {
      AheadAppend(subs[1..], s, a, b);
    }
  }

  lemma {:induction false} AheadWithout(subs: seq<Subscriber>, gone: int, a: int, b: int)
    requires a != gone && b != gone
    ensures Ahead(Without(subs, gone), a, b) <==> Ahead(subs, a, b)
  {
    if subs != [] {
      AheadWithout(subs[1..], gone, a, b);
      StatusWithout(subs[1..], gone, b);
      var rest := Without(subs[1..], gone);
      assert ([subs[0]] + rest)[1..] == rest && [] + rest == rest;
    }
  }

  lemma {:induction false} AheadDeactivate(subs: seq<Subscriber>, left: int, a: int, b: int)
    ensures Ahead(Deactivate(subs, left), a, b) <==> Ahead(subs, a, b)
  {
    if subs != [] {
      AheadDeactivate(subs[1..], left, a, b);
      StatusDeactivate(subs[1..], left, b);
    }
  }

  lemma {:induction false} AheadUnreached(subs: seq<Subscriber>, to: Audience, a: int, b: int)
    requires forall h :: Occurs(subs, h) <= 1
    requires Present(Unreached(subs, to), a) && Present(Unreached(subs, to), b)
    ensures Ahead(Unreached(subs, to), a, b) <==> Ahead(subs, a, b)
  {
    if subs != [] {
      var rest := Unreached(subs[1..], to);
      assert ([subs[0]] + rest)[1..] == rest && [] + rest == rest;
      OccursTail(subs);
      StatusUnreached(subs, to, a);
      StatusUnreached(subs, to, b);
      StatusUnreached(subs[1..], to, a);
      StatusUnreached(subs[1..], to, b);
      PresentOccurs(subs[1..], a);
      PresentOccurs(subs[1..], b);
      if Present(rest, a) && Present(rest, b) { AheadUnreached(subs[1..], to, a, b); }
      if !Present(rest, a) || !Present(rest, b) { assert !Selected(subs[0], to); }
      AheadNeedsBoth(subs[1..], a, b);
      AheadNeedsBoth(rest, a, b);
    }
  }

  lemma OccursTail(subs: seq<Subscriber>)
    requires subs != [] && forall h :: Occurs(subs, h) <= 1
    ensures forall h :: Occurs(subs[1..], h) <= 1
  {
    forall h ensures Occurs(subs[1..], h) <= 1 { assert Occurs(subs, h) <= 1; }
  }

  lemma {:induction false} AheadNeedsBoth(subs: seq<Subscriber>, a: int, b: int)
    ensures Ahead(subs, a, b) ==> Present(subs, a) && Present(subs, b)
  {
    if subs != [] { AheadNeedsBoth(subs[1..], a, b); }
  }

  /** A new subscriber stands behind all others, and no event changes the order of those that stay. */
  lemma OrderAfterStep(m: Machine, e: Event, a: int, b: int)
    requires Consistent(m) && Present(m.subs, a) && Present(Step(m, e).subs, a) && Present(Step(m, e).subs, b)
    ensures Ahead(Step(m, e).subs, a, b) <==> Ahead(m.subs, a, b) || !Present(m.subs, b)
  {
    hide Notices, Unreached, Without, Deactivate, AnySelected, Occurs;
    var after := Step(m, e);
    StatusAfterStep(m, e, a);
    StatusAfterStep(m, e, b);
    AheadNeedsBoth(m.subs, a, b);
    match e
    case RequestAtl(h, wait) =>
      if !Present(m.subs, h) { AheadAppend(m.subs, Subscriber(h, wait, false), a, b); }
    case ReleaseAtl(h) =>
      if Present(m.subs, h) {
        if a != h && b != h { AheadWithout(m.subs, h, a, b); }
        AheadDeactivate(m.subs, h, a, b);
      }
    case Granted =>
    case Released => if m.state.RELEASING? { AheadUnreached(m.subs, Inactive, a, b); }
    case Denied => if m.state.RELEASING? { AheadUnreached(m.subs, Inactive, a, b); }
    case ModemSsr =>
  }

  /** A round of notices speaks to one part of the list after the other, so in list order. */
  lemma {:induction false} NoticesInOrder(front: seq<Subscriber>, back: seq<Subscriber>, message: Message, to: Audience)
    ensures Notices(front + back, message, to) == Notices(front, message, to) + Notices(back, message, to)
  {
    if front == [] {
      assert front + back == back;
    } else {
      assert (front + back)[1..] == front[1..] + back;
      NoticesInOrder(front[1..], back, message, to);
    }
  }

  // ---------- what is sent ----------

  /** Whether a listed handle is neither inactive nor absent. */
  predicate IsActive(s: Status) {
    s.Listed? && !s.inactive
  }

  predicate IsInactive(s: Status) {
    s.Listed? && s.inactive
  }

  /** Somebody other than `handle` is listed and active. */
  ghost predicate OthersActive(subs: seq<Subscriber>, handle: int) {
    exists h :: h != handle && IsActive(StatusOf(subs, h))
  }

  ghost predicate SomeActive(subs: seq<Subscriber>) {
    exists h :: IsActive(StatusOf(subs, h))
  }

  /** Whether an event, in a state and with a list, sends an action; none is sent twice. */
  ghost predicate Brings(state: AgpsState, subs: seq<Subscriber>, e: Event, a: Action) {
    match a
    case Received(r) => r == e
    case AtlOpenStatus(h, true) =>
      // a connection that is there is granted at once, and one that comes is granted to those waiting for it
      || (state.ACQUIRED? && e.RequestAtl? && e.connHandle == h)
      || (state.PENDING? && e.Granted? && IsActive(StatusOf(subs, h)))
    case AtlOpenStatus(h, false) => state.PENDING? && e.Denied? && StatusOf(subs, h).Listed?
    case AtlCloseStatus(h, true) =>
      var s := StatusOf(subs, h);
      || (e.ReleaseAtl? && e.connHandle == h && s.Listed? && !s.waits)
      || (state.ACQUIRED? && e.Released? && s.Listed?)
      || (state.RELEASING? && (e.Released? || e.Denied?) && IsInactive(s))
    case AtlCloseStatus(h, false) => e.ReleaseAtl? && e.connHandle == h && StatusOf(subs, h).Absent?
    case RequestDataConn =>
      || (state.RELEASED? && e.RequestAtl?)
      || (state.RELEASING? && (e.Released? || e.Denied?) && SomeActive(subs))
    case ReleaseDataConn =>
      && (state.PENDING? || state.ACQUIRED?) && e.ReleaseAtl?
      && StatusOf(subs, e.connHandle).Listed? && !OthersActive(subs, e.connHandle)
    case Joined(h) => e.RequestAtl? && e.connHandle == h && StatusOf(subs, h).Absent?
    case Dropped(h) => e.ModemSsr? && StatusOf(subs, h).Listed?
  }

  lemma CountSnoc(log: seq<Action>, last: Action, a: Action)
    ensures Count(log + [last], a) == Count(log, a) + if last == a then 1 else 0
  {
    assert (log + [last])[..|log|] == log;
  }

  /** A round of notices sends its message once to each handle it reaches, and nothing else. */
  lemma {:induction false} CountNotices(log: seq<Action>, subs: seq<Subscriber>, message: Message, to: Audience,
                                        a: Action, handle: int)
    requires Occurs(subs, handle) <= 1 && (a != message.To(handle) ==> forall h :: a != message.To(h))
    ensures Count(log + Notices(subs, message, to), a) ==
            Count(log, a) + if a == message.To(handle) && Present(subs, handle) && Selected(Find(subs, handle), to)
                            then 1 else 0
    decreases subs
  {
    hide Notices, Count;
    LogAfterNotices(log, subs, message, to);
    if subs != [] {
      var first := subs[0];
      var next := if Selected(first, to) then log + [message.To(first.connHandle)] else log;
      CountSnoc(log, message.To(first.connHandle), a);
      CountNotices(next, subs[1..], message, to, a, handle);
      PresentOccurs(subs[1..], handle);
      ToIsInjective(message, first.connHandle, handle);
    }
  }

  lemma ToIsInjective(message: Message, g: int, h: int)
    ensures message.To(g) == message.To(h) <==> g == h
  {
  }

  function HandleOf(a: Action): int {
    match a
    case AtlOpenStatus(h, _) => h
    case AtlCloseStatus(h, _) => h
    case Joined(h) => h
    case Dropped(h) => h
    case _ => 0
  }

  lemma NoticeCounted(log: seq<Action>, subs: seq<Subscriber>, message: Message, to: Audience, a: Action)
    requires forall h :: Occurs(subs, h) <= 1
    ensures var h := HandleOf(a);
            Count(log + Notices(subs, message, to), a) ==
            Count(log, a) + if a == message.To(h) && Present(subs, h) && Selected(Find(subs, h), to) then 1 else 0
  {
    hide Notices, Count, Occurs;
    assert Occurs(subs, HandleOf(a)) <= 1;
    if a != message.To(HandleOf(a)) { forall h ensures a != message.To(h) {} }
    CountNotices(log, subs, message, to, a, HandleOf(a));
  }

  lemma {:induction false} ActiveIsSelected(subs: seq<Subscriber>)
    requires forall h :: Occurs(subs, h) <= 1
    ensures AnySelected(subs, Active) <==> SomeActive(subs)
  {
    if subs != [] {
      OccursTail(subs);
      ActiveIsSelected(subs[1..]);
      var first := subs[0].connHandle;
      assert Occurs(subs, first) <= 1;
      PresentOccurs(subs[1..], first);
      if AnySelected(subs, Active) {
        if Selected(subs[0], Active) {
          assert IsActive(StatusOf(subs, first));
        } else {
          var h :| IsActive(StatusOf(subs[1..], h));
          assert IsActive(StatusOf(subs, h));
        }
      }
      if SomeActive(subs) {
        var h :| IsActive(StatusOf(subs, h));
        if h != first { assert IsActive(StatusOf(subs[1..], h)); }
      }
    }
  }

  lemma SentBySubscribe(m: Machine, s: Subscriber, a: Action)
    ensures Count(Subscribe(m, s).log, a) == Count(m.log, a) +
            var e := RequestAtl(s.connHandle, s.waitForCloseComplete);
            if !a.Received? && Brings(m.state, m.subs, e, a) then 1 else 0
  {
    hide Count;
    var joined, ok := Joined(s.connHandle), OpenOk.To(s.connHandle);
    CountSnoc(m.log, joined, a);
    CountSnoc(m.log, ok, a);
    CountSnoc(m.log + [ok], joined, a);
    CountSnoc(m.log, RequestDataConn, a);
    CountSnoc(m.log + [joined], RequestDataConn, a);
  }

  lemma OthersAfterLeave(m: Machine, handle: int)
    requires Consistent(m) && Present(m.subs, handle)
    ensures var left := Leave(m, Find(m.subs, handle));
            && (AnySelected(left.subs, Active) <==> OthersActive(m.subs, handle))
            && (left.subs == [] ==> !OthersActive(m.subs, handle))
  {
    hide Occurs, Without, Deactivate, AnySelected;
    var left := Leave(m, Find(m.subs, handle));
    ListsAfterLeave(m, handle);
    ActiveIsSelected(left.subs);
    forall h ensures IsActive(StatusOf(left.subs, h)) <==> h != handle && IsActive(StatusOf(m.subs, h)) {
      StatusWithout(m.subs, handle, h);
      StatusDeactivate(m.subs, handle, h);
    }
    NobodyActive();
  }

  lemma NobodyActive()
    ensures !AnySelected([], Active)
  {
  }

  lemma SentByUnsubscribe(m: Machine, handle: int, a: Action)
    requires Consistent(m) && Present(m.subs, handle)
    ensures Count(Unsubscribe(m, Find(m.subs, handle)).log, a) ==
            Count(m.log, a) + if !a.Received? && Brings(m.state, m.subs, ReleaseAtl(handle), a) then 1 else 0
  {
    hide Count, AnySelected, Without, Deactivate, OthersActive, Occurs;
    var close := CloseOk.To(handle);
    OthersAfterLeave(m, handle);
    CountSnoc(m.log, close, a);
    CountSnoc(m.log, ReleaseDataConn, a);
    CountSnoc(m.log + [close], ReleaseDataConn, a);
  }

  lemma SentByFinish(m: Machine, e: Event, a: Action)
    requires Consistent(m) && m.state.RELEASING? && (e.Released? || e.Denied?)
    ensures Count(FinishReleasing(m).log, a) ==
            Count(m.log, a) + if !a.Received? && Brings(m.state, m.subs, e, a) then 1 else 0
  {
    hide Count, Notices, Unreached, SomeActive, AnySelected, Occurs;
    NoticeCounted(m.log, m.subs, CloseOk, Inactive, a);
    CountSnoc(m.log + Notices(m.subs, CloseOk, Inactive), RequestDataConn, a);
    ActiveUnreached(m.subs);
  }

  lemma ActiveUnreached(subs: seq<Subscriber>)
    requires forall h :: Occurs(subs, h) <= 1
    ensures AnySelected(Unreached(subs, Inactive), Active) <==> SomeActive(subs)
  {
    hide Unreached, AnySelected, Occurs;
    forall h ensures Occurs(Unreached(subs, Inactive), h) <= 1 { UnreachedFacts(subs, Inactive, h); }
    ActiveIsSelected(Unreached(subs, Inactive));
    forall h ensures IsActive(StatusOf(Unreached(subs, Inactive), h)) <==> IsActive(StatusOf(subs, h)) {
      assert Occurs(subs, h) <= 1;
      StatusUnreached(subs, Inactive, h);
    }
  }

  /** Every event, in every state, sends exactly these callbacks and commands, each once. */
  lemma SentByStep(m: Machine, e: Event, a: Action)
    requires Consistent(m)
    ensures Count(Step(m, e).log, a) == Count(m.log, a) + if Brings(m.state, m.subs, e, a) then 1 else 0
  {
    hide Count, Notices, Unreached, Subscribe, Unsubscribe, FinishReleasing, SomeActive, OthersActive, Occurs;
    var got := Send(m, [Received(e)]);
    CountSnoc(m.log, Received(e), a);
    match e
    case RequestAtl(h, wait) => SentBySubscribe(got, Subscriber(h, wait, false), a);
    case ReleaseAtl(h) =>
      CountSnoc(got.log, AtlCloseStatus(h, false), a);
      if Present(m.subs, h) { SentByUnsubscribe(got, h, a); }
    case Granted => NoticeCounted(got.log, m.subs, OpenOk, Active, a);
    case Released =>
      NoticeCounted(got.log, m.subs, CloseOk, All, a);
      if m.state.RELEASING? { SentByFinish(got, e, a); }
    case Denied =>
      NoticeCounted(got.log, m.subs, OpenFailed, All, a);
      if m.state.RELEASING? { SentByFinish(got, e, a); }
    case ModemSsr => NoticeCounted(got.log, m.subs, Drop, All, a);
  }

  // ---------- the connection state ----------

  ghost predicate OthersListed(subs: seq<Subscriber>, handle: int) {
    exists h :: h != handle && StatusOf(subs, h).Listed?
  }

  /** The state after an event, from the state and the list before. */
  ghost function StateAfter(state: AgpsState, subs: seq<Subscriber>, e: Event): AgpsState {
    match e
    case RequestAtl(_, _) => if state.RELEASED? then PENDING else state
    case ReleaseAtl(h) =>
      var s := StatusOf(subs, h);
      if s.Absent? then state
      else if !s.waits && !OthersListed(subs, h) then RELEASED
      else if !OthersActive(subs, h) then RELEASING
      else state
    case Granted => if state.PENDING? then ACQUIRED else state
    case Released =>
      if state.ACQUIRED? then RELEASED
      else if state.RELEASING? then if SomeActive(subs) then PENDING else RELEASED
      else state
    case Denied =>
      if state.PENDING? then RELEASED
      else if state.RELEASING? then if SomeActive(subs) then PENDING else RELEASED
      else state
    case ModemSsr => state
  }

  lemma EmptyAfterLeave(m: Machine, handle: int)
    requires Present(m.subs, handle)
    ensures Leave(m, Find(m.subs, handle)).subs == [] <==>
            !Find(m.subs, handle).waitForCloseComplete && !OthersListed(m.subs, handle)
  {
    hide Without, Deactivate;
    var left := Leave(m, Find(m.subs, handle));
    forall h ensures StatusOf(left.subs, h).Listed? <==>
                     StatusOf(m.subs, h).Listed? && (h != handle || Find(m.subs, handle).waitForCloseComplete)
    {
      StatusWithout(m.subs, handle, h);
      StatusDeactivate(m.subs, handle, h);
    }
    if left.subs != [] { assert StatusOf(left.subs, left.subs[0].connHandle).Listed?; }
  }

  /** Every event leads from every state to exactly this one. */
  lemma StateAfterStep(m: Machine, e: Event)
    requires Consistent(m)
    ensures Step(m, e).state == StateAfter(m.state, m.subs, e)
  {
    hide Notices, Unreached, AnySelected, Occurs, SomeActive, OthersActive, OthersListed, Leave;
    var got := Send(m, [Received(e)]);
    match e
    case ReleaseAtl(h) =>
      if Present(m.subs, h) {
        LeaveKeepsState(got, Find(m.subs, h));
        EmptyAfterLeave(got, h);
        OthersAfterLeave(got, h);
      }
    case Released => ActiveUnreached(m.subs);
    case Denied => ActiveUnreached(m.subs);
    case _ =>
  }

  // ---------- the order within an event ----------

  predicate IsCommand(a: Action) {
    a == RequestDataConn || a == ReleaseDataConn
  }

  /** From `from` on the log has no command for the data connection. */
  ghost predicate Quiet(log: seq<Action>, from: nat) {
    from <= |log| && forall i :: from <= i < |log| ==> !IsCommand(log[i])
  }

  /** From `from` on the log has no such command but for its last entry. */
  ghost predicate CommandLast(log: seq<Action>, from: nat) {
    from <= |log| && forall i :: from <= i < |log| - 1 ==> !IsCommand(log[i])
  }

  lemma QuietThen(log: seq<Action>, from: nat, last: Action)
    requires Quiet(log, from)
    ensures CommandLast(log, from) && CommandLast(log + [last], from)
    ensures !IsCommand(last) ==> Quiet(log + [last], from)
  {
  }

  lemma {:induction false} QuietNotices(log: seq<Action>, from: nat, subs: seq<Subscriber>, message: Message,
                                        to: Audience)
    requires Quiet(log, from)
    ensures Quiet(log + Notices(subs, message, to), from)
    decreases subs
  {
    hide Notices, Quiet;
    LogAfterNotices(log, subs, message, to);
    if subs != [] {
      QuietThen(log, from, message.To(subs[0].connHandle));
      QuietNotices(if Selected(subs[0], to) then log + [message.To(subs[0].connHandle)] else log, from, subs[1..],
                   message, to);
    }
  }

  lemma SubscribeCommandsLast(m: Machine, s: Subscriber, from: nat)
    requires Quiet(m.log, from)
    ensures CommandLast(Subscribe(m, s).log, from)
  {
    hide Quiet, CommandLast;
    QuietThen(m.log, from, Joined(s.connHandle));
    QuietThen(m.log, from, OpenOk.To(s.connHandle));
    QuietThen(m.log, from, RequestDataConn);
    QuietThen(m.log + [Joined(s.connHandle)], from, RequestDataConn);
    QuietThen(m.log + [OpenOk.To(s.connHandle)], from, Joined(s.connHandle));
  }

  lemma UnsubscribeCommandsLast(m: Machine, s: Subscriber, from: nat)
    requires Quiet(m.log, from)
    ensures CommandLast(Unsubscribe(m, s).log, from)
  {
    hide Quiet, CommandLast, AnySelected, Without, Deactivate;
    QuietThen(m.log, from, CloseOk.To(s.connHandle));
    QuietThen(m.log, from, ReleaseDataConn);
    QuietThen(m.log + [CloseOk.To(s.connHandle)], from, ReleaseDataConn);
  }

  lemma FinishCommandsLast(m: Machine, from: nat)
    requires Quiet(m.log, from)
    ensures CommandLast(FinishReleasing(m).log, from)
  {
    hide Quiet, CommandLast, AnySelected, Unreached, Notices;
    QuietNotices(m.log, from, m.subs, CloseOk, Inactive);
    QuietThen(m.log + Notices(m.subs, CloseOk, Inactive), from, RequestDataConn);
  }

  /** Every event sends its command for the data connection, if any, after all its callbacks. */
  lemma CommandComesLast(m: Machine, e: Event)
    ensures CommandLast(Step(m, e).log, |m.log|)
  {
    hide CommandLast, Quiet, Notices, Unreached, Subscribe, Unsubscribe, FinishReleasing;
    var from, got := |m.log|, Send(m, [Received(e)]);
    NothingYet(m.log);
    QuietThen(m.log, from, Received(e));
    QuietThen(got.log, from, Received(e));
    match e
    case RequestAtl(h, wait) => SubscribeCommandsLast(got, Subscriber(h, wait, false), from);
    case ReleaseAtl(h) =>
      QuietThen(got.log, from, AtlCloseStatus(h, false));
      if Present(m.subs, h) { UnsubscribeCommandsLast(got, Find(m.subs, h), from); }
    case Granted => NoticesCommandLast(got.log, from, m.subs, OpenOk, Active);
    case Released =>
      NoticesCommandLast(got.log, from, m.subs, CloseOk, All);
      FinishCommandsLast(got, from);
    case Denied =>
      NoticesCommandLast(got.log, from, m.subs, OpenFailed, All);
      FinishCommandsLast(got, from);
    case ModemSsr => NoticesCommandLast(got.log, from, m.subs, Drop, All);
  }

  lemma NothingYet(log: seq<Action>)
    ensures Quiet(log, |log|)
  {
  }

  lemma NoticesCommandLast(log: seq<Action>, from: nat, subs: seq<Subscriber>, message: Message, to: Audience)
    requires Quiet(log, from)
    ensures CommandLast(log + Notices(subs, message, to), from)
  {
    hide Quiet, CommandLast, Notices;
    QuietNotices(log, from, subs, message, to);
    QuietThen(log + Notices(subs, message, to), from, RequestDataConn);
  }

  // ---------- who is listed over a run ----------

  /** The handle has been asked for since it was last told that it is over, or dropped. */
  predicate AskedSince(log: seq<Action>, handle: int) {
    log != [] &&
    match log[|log| - 1]
    case Received(RequestAtl(h, _)) => h == handle || AskedSince(log[..|log| - 1], handle)
    case AtlOpenStatus(h, false) => h != handle && AskedSince(log[..|log| - 1], handle)
    case AtlCloseStatus(h, true) => h != handle && AskedSince(log[..|log| - 1], handle)
    case Dropped(h) => h != handle && AskedSince(log[..|log| - 1], handle)
    case _ => AskedSince(log[..|log| - 1], handle)
  }

  predicate IsOver(a: Action, handle: int) {
    a == AtlOpenStatus(handle, false) || a == AtlCloseStatus(handle, true) || a == Dropped(handle)
  }

  lemma AskedSnoc(log: seq<Action>, last: Action, handle: int)
    ensures AskedSince(log + [last], handle) <==>
            || (last.Received? && last.event.RequestAtl? && last.event.connHandle == handle)
            || (!IsOver(last, handle) && AskedSince(log, handle))
  {
    assert (log + [last])[..|log|] == log;
  }

  lemma {:induction false} AskedNotices(log: seq<Action>, subs: seq<Subscriber>, message: Message, to: Audience,
                                        handle: int)
    requires Occurs(subs, handle) <= 1
    ensures AskedSince(log + Notices(subs, message, to), handle) <==>
            AskedSince(log, handle) &&
            !(message != OpenOk && Present(subs, handle) && Selected(Find(subs, handle), to))
    decreases subs
  {
    hide AskedSince, Notices;
    LogAfterNotices(log, subs, message, to);
    if subs != [] {
      var first := subs[0];
      AskedSnoc(log, message.To(first.connHandle), handle);
      var next := if Selected(first, to) then log + [message.To(first.connHandle)] else log;
      AskedNotices(next, subs[1..], message, to, handle);
      PresentOccurs(subs[1..], handle);
    }
  }

  lemma AskedAfterSubscribe(m: Machine, s: Subscriber, handle: int)
    ensures AskedSince(Subscribe(m, s).log, handle) <==> AskedSince(m.log, handle)
  {
    hide AskedSince;
    AskedSnoc(m.log, Joined(s.connHandle), handle);
    AskedSnoc(m.log, OpenOk.To(s.connHandle), handle);
    AskedSnoc(m.log, RequestDataConn, handle);
    AskedSnoc(m.log + [Joined(s.connHandle)], RequestDataConn, handle);
    AskedSnoc(m.log + [OpenOk.To(s.connHandle)], Joined(s.connHandle), handle);
  }

  lemma AskedAfterUnsubscribe(m: Machine, left: int, handle: int)
    requires Present(m.subs, left) && !m.state.RELEASED?
    ensures AskedSince(Unsubscribe(m, Find(m.subs, left)).log, handle) <==>
            AskedSince(m.log, handle) && !(handle == left && !Find(m.subs, left).waitForCloseComplete)
  {
    hide AskedSince, AnySelected, Without, Deactivate;
    var close := CloseOk.To(left);
    AskedSnoc(m.log, close, handle);
    AskedSnoc(m.log, ReleaseDataConn, handle);
    AskedSnoc(m.log + [close], ReleaseDataConn, handle);
  }

  lemma AskedAfterFinish(m: Machine, handle: int)
    requires Occurs(m.subs, handle) <= 1
    ensures AskedSince(FinishReleasing(m).log, handle) <==>
            AskedSince(m.log, handle) && !IsInactive(StatusOf(m.subs, handle))
  {
    hide AskedSince, AnySelected, Unreached, Notices, Occurs;
    AskedNotices(m.log, m.subs, CloseOk, Inactive, handle);
    AskedSnoc(m.log + Notices(m.subs, CloseOk, Inactive), RequestDataConn, handle);
  }

  lemma AskedAfterStep(m: Machine, e: Event, handle: int)
    requires Consistent(m) && (Present(m.subs, handle) <==> AskedSince(m.log, handle))
    ensures var after := Step(m, e); Present(after.subs, handle) <==> AskedSince(after.log, handle)
  {
    hide AskedSince, Notices, Unreached, Subscribe, Unsubscribe, FinishReleasing, Occurs;
    var got := Send(m, [Received(e)]);
    assert Occurs(m.subs, handle) <= 1;
    AskedSnoc(m.log, Received(e), handle);
    StatusAfterStep(m, e, handle);
    match e
    case RequestAtl(h, wait) => AskedAfterSubscribe(got, Subscriber(h, wait, false), handle);
    case ReleaseAtl(h) =>
      AskedSnoc(got.log, AtlCloseStatus(h, false), handle);
      if Present(m.subs, h) { AskedAfterUnsubscribe(got, h, handle); }
    case Granted => AskedNotices(got.log, m.subs, OpenOk, Active, handle);
    case Released =>
      AskedNotices(got.log, m.subs, CloseOk, All, handle);
      AskedAfterFinish(got, handle);
    case Denied =>
      AskedNotices(got.log, m.subs, OpenFailed, All, handle);
      AskedAfterFinish(got, handle);
    case ModemSsr => AskedNotices(got.log, m.subs, Drop, All, handle);
  }

  /** In every run a handle is listed if and only if it has been asked for since it was last told that it
      is over, or dropped. */
  lemma {:induction false} ListedIffAsked(events: seq<Event>, handle: int)
    ensures Present(Run(events).subs, handle) <==> AskedSince(Run(events).log, handle)
  {
    if events != [] {
      var front := events[..|events| - 1];
      ListedIffAsked(front, handle);
      AlwaysConsistent(front);
      AskedAfterStep(Run(front), events[|events| - 1], handle);
    }
  }
}
