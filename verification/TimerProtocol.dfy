/** The timer service as a state machine over one container: client threads start and stop timers,
    the message task manages the heap and the kernel timer, the poll thread waits on the timer fd.
    Steps interleave freely; the message task's system calls, each timer it fires, the poll thread's
    three actions on waking, and the passing of time are separate steps. */
module TimerProtocol {
  import opened HeapTree
  import opened LocTimer
  import opened Options

  type Client = nat

  datatype Msg = MsgTimerPush(timer: TimerDelegate) | MsgTimerRemove(timer: TimerDelegate) | MsgTimerExpire

  /** System calls of `updateSoonestTime`. */
  datatype SysCall = AddPoll | DelPoll | SetTime(time: Option<Time>)

  /** Where the message task is: between messages, or in the loop that handles an expiry.  History:
      `first` says that it was the expiry's first pop and `before` what the heap was then; `ids` is how
      many timers there had been when the popped timer's client was read. */
  datatype MsgPc =
    | BetweenMsgs
    | ToPop(now: Time, first: bool)
    | Popped(now: Time, timer: TimerDelegate, first: bool, before: Tree<TimerDelegate>)
    | Stopping(now: Time, timer: TimerDelegate, first: bool, before: Tree<TimerDelegate>, client: Client, ids: nat)

  /** Where the poll thread is: in `epoll_wait`, or in `expire()` before its next action. */
  datatype PollPc = Waiting | ToDisarm | ToUnpoll | ToSend

  /** A successful `stop()`: of which timer, and whether the expiry path made it. */
  datatype Stop = Stop(timer: TimerDelegate, byExpiry: bool)

  /** History of a callback: when it was made, and what the expiry loop held then. */
  datatype CallBack =
    CallBack(at: Time, now: Time, popped: TimerDelegate, first: bool, before: Tree<TimerDelegate>, ids: nat)

  /** History of a start: when, and with what delay. */
  datatype Launch = Launch(at: Time, timeOutInMs: nat)

  datatype State = State(
    clock: Time,
    heap: Tree<TimerDelegate>,
    queue: seq<Msg>,
    msgPc: MsgPc,
    pending: seq<SysCall>,              // system calls the message task still has to make
    armed: Option<Time>,                // what the timer fd is set to
    registered: bool,                   // whether the timer fd is in the epoll set
    pollPc: PollPc,
    mTimer: map<Client, TimerDelegate>, // running timers by client
    mClient: map<TimerDelegate, Client>,
    nextId: nat,
    started: map<TimerDelegate, Launch>, // history: timers created, stopped, called back, deleted
    stops: multiset<Stop>,
    callbacks: multiset<TimerDelegate>,
    called: map<TimerDelegate, CallBack>,
    deleted: multiset<TimerDelegate>)

  const INIT := State(TimeSpec(0, 0), Leaf, [], BetweenMsgs, [], None, false, Waiting, map[], map[],
                      0, map[], multiset{}, multiset{}, map[], multiset{})

  // ---------- steps ----------

  datatype Step =
    | Tick(now: Time)
    | ClientStart(client: Client, timeOutInMs: nat)
    | ClientStop(client: Client)
    | Receive
    | MakeSysCall
    | PopNext
    | ReadClient
    | StopAndCallBack
    | PollWake
    | PollDisarm
    | PollUnpoll
    | PollSend

  function Top(heap: Tree<TimerDelegate>): Option<TimerDelegate> {
    if heap.Leaf? then None else Some(heap.data)
  }

  /** The system calls `updateSoonestTime(priorTop)` makes for the heap as it is now. */
  function UpdateSoonestTime(priorTop: Option<TimerDelegate>, heap: Tree<TimerDelegate>): seq<SysCall> {
    var curTop := Top(heap);
    if curTop == priorTop then []
    else if curTop.None? then [DelPoll, SetTime(None)]
    else if priorTop.None? || OutRanks(curTop.value, priorTop.value) then
      [AddPoll, SetTime(Some(curTop.value.futureTime))]
    else []
  }

  function NewTimer(s: State, timeOutInMs: nat): (t: TimerDelegate)
    requires FutureTime(s.clock, timeOutInMs).sec < TWO31
    ensures t.id == s.nextId
  {
    TimerDelegate(s.nextId, FutureTime(s.clock, timeOutInMs))
  }

  /** `LocTimer::start` when no timer is running: a new delegate is queued for the heap. */
  function Start(s: State, client: Client, timeOutInMs: nat): State
    requires FutureTime(s.clock, timeOutInMs).sec < TWO31
  {
    var timer := NewTimer(s, timeOutInMs);
    s.(mTimer := s.mTimer[client := timer],
       mClient := s.mClient[timer := client],
       queue := s.queue + [MsgTimerPush(timer)],
       nextId := s.nextId + 1,
       started := s.started[timer := Launch(s.clock, timeOutInMs)])
  }

  /** `LocTimer::stop` when a timer is running: its delegate is queued for removal and deletion. */
  function StopRunning(s: State, client: Client, byExpiry: bool): State
    requires client in s.mTimer
  {
    var timer := s.mTimer[client];
    s.(mTimer := s.mTimer - {client},
       mClient := s.mClient - {timer},
       queue := s.queue + [MsgTimerRemove(timer)],
       stops := s.stops + multiset{Stop(timer, byExpiry)})
  }

  /** Handling one message up to the system calls it leads to. */
  function Handle(s: State, msg: Msg): State {
    match msg
    case MsgTimerPush(timer) =>
      var heap := Push(s.heap, timer, OutRanks);
      s.(heap := heap, pending := UpdateSoonestTime(Top(s.heap), heap))
    case MsgTimerRemove(timer) =>
      var removed := if Finds(s.heap, timer, OutRanks) then Some(timer) else None;
      var heap := Remove(s.heap, timer, OutRanks);
      s.(heap := heap,
         pending := if Top(s.heap) == removed then UpdateSoonestTime(None, heap) else [],
         deleted := s.deleted + multiset{timer})
    case MsgTimerExpire =>
      s.(msgPc := ToPop(s.clock, true))
  }

  /** The expiry loop's next `pop` or `popIfOutRanks`. */
  function PopOrFinish(s: State, now: Time, first: bool): State {
    var timerOfNow := TimerDelegate(0, now);
    if s.heap.Node? && (first || !OutRanks(timerOfNow, s.heap.data)) then
      s.(heap := Pop(s.heap, OutRanks), msgPc := Popped(now, s.heap.data, first, s.heap))
    else
      s.(msgPc := BetweenMsgs, pending := UpdateSoonestTime(None, s.heap))
  }

  function MakeCall(s: State, call: SysCall): State {
    match call
    case AddPoll => s.(registered := true)
    case DelPoll => s.(registered := false)
    case SetTime(time) => s.(armed := time)
  }

  function CallBackNow(s: State): CallBack
    requires s.msgPc.Stopping?
  {
    CallBack(s.clock, s.msgPc.now, s.msgPc.timer, s.msgPc.first, s.msgPc.before, s.msgPc.ids)
  }

  /** The callback after a successful `stop()` of the client that the expiry loop read. */
  function CallBackAfter(s: State, stopped: State): State
    requires s.msgPc.Stopping? && s.msgPc.client in s.mTimer
  {
    var timer := s.mTimer[s.msgPc.client];
    stopped.(callbacks := s.callbacks + multiset{timer}, called := s.called[timer := CallBackNow(s)])
  }

  predicate Enabled(s: State, step: Step) {
    match step
    case Tick(now) => !Earlier(now, s.clock)
    case ClientStart(_, timeOutInMs) => FutureTime(s.clock, timeOutInMs).sec < TWO31
    case ClientStop(_) => true
    case Receive => s.msgPc.BetweenMsgs? && s.pending == [] && s.queue != []
    case MakeSysCall => s.pending != []
    case PopNext => s.msgPc.ToPop?
    case ReadClient => s.msgPc.Popped?
    case StopAndCallBack => s.msgPc.Stopping?
    case PollWake =>
      s.pollPc.Waiting? && s.registered && s.armed.Some? && !Earlier(s.clock, s.armed.value)
    case PollDisarm => s.pollPc.ToDisarm?
    case PollUnpoll => s.pollPc.ToUnpoll?
    case PollSend => s.pollPc.ToSend?
  }

  function Apply(s: State, step: Step): State
    requires Enabled(s, step)
  {
    match step
    case Tick(now) => s.(clock := now)
    case ClientStart(client, timeOutInMs) =>
      if client in s.mTimer then s else Start(s, client, timeOutInMs)
    case ClientStop(client) =>
      if client in s.mTimer then StopRunning(s, client, false) else s
    case Receive =>
      Handle(s.(queue := s.queue[1..]), s.queue[0])
    case MakeSysCall =>
      MakeCall(s.(pending := s.pending[1..]), s.pending[0])
    case PopNext =>
      PopOrFinish(s, s.msgPc.now, s.msgPc.first)
    case ReadClient =>
      if s.msgPc.timer in s.mClient
      then
        var pc := s.msgPc;
        s.(msgPc := Stopping(pc.now, pc.timer, pc.first, pc.before, s.mClient[pc.timer], s.nextId))
      else s.(msgPc := ToPop(s.msgPc.now, false))
    case StopAndCallBack =>
      var next := s.(msgPc := ToPop(s.msgPc.now, false));
      if s.msgPc.client in s.mTimer then CallBackAfter(s, StopRunning(next, s.msgPc.client, true)) else next
    case PollWake => s.(pollPc := ToDisarm)
    case PollDisarm => s.(pollPc := ToUnpoll, armed := None)
    case PollUnpoll => s.(pollPc := ToSend, registered := false)
    case PollSend => s.(pollPc := Waiting, queue := s.queue + [MsgTimerExpire])
  }

  /** The state after a run, or None if some step was not enabled. */
  ghost function Execute(steps: seq<Step>): Option<State> {
    if steps == [] then Some(INIT) else
      var before := Execute(steps[..|steps| - 1]);
      var step := steps[|steps| - 1];
      if before.Some? && Enabled(before.value, step) then Some(Apply(before.value, step)) else None
  }

  // ---------- what kinds of steps leave alone ----------

  /** Steps of a client, or of the expiry loop with a client: they touch neither heap nor kernel. */
  predicate ClientStep(step: Step) {
    step.ClientStart? || step.ClientStop? || step.ReadClient? || step.StopAndCallBack?
  }

  ghost predicate SameKernel(s: State, after: State) {
    && after.clock == s.clock && after.heap == s.heap && after.pending == s.pending
    && after.armed == s.armed && after.registered == s.registered && after.pollPc == s.pollPc
    && s.queue <= after.queue
    && (after.msgPc.BetweenMsgs? <==> s.msgPc.BetweenMsgs?)
  }

  lemma StartKeepsKernel(s: State, client: Client, timeOutInMs: nat)
    requires FutureTime(s.clock, timeOutInMs).sec < TWO31
    ensures SameKernel(s, Start(s, client, timeOutInMs))
  {
    hide NewTimer, FutureTime;
  }

  lemma StopKeepsKernel(s: State, client: Client, byExpiry: bool)
    requires client in s.mTimer
    ensures SameKernel(s, StopRunning(s, client, byExpiry))
  {
  }

  lemma CallBackKeepsKernel(s: State)
    requires s.msgPc.Stopping?
    ensures SameKernel(s, Apply(s, StopAndCallBack))
  {
    hide StopRunning, SameKernel;
    var next := s.(msgPc := ToPop(s.msgPc.now, false));
    if s.msgPc.client in s.mTimer { StopKeepsKernel(next, s.msgPc.client, true); }
    KernelIs(s, next, Apply(s, StopAndCallBack));
  }

  lemma KernelIs(s: State, next: State, after: State)
    requires next == s.(msgPc := next.msgPc) && s.msgPc.Stopping? && next.msgPc.ToPop?
    requires s.msgPc.client in s.mTimer ==>
               var stopped := StopRunning(next, s.msgPc.client, true);
               SameKernel(next, stopped) && after == CallBackAfter(s, stopped)
    requires s.msgPc.client !in s.mTimer ==> after == next
    ensures SameKernel(s, after)
  {
    hide StopRunning;
  }

  lemma ReadKeepsKernel(s: State)
    requires s.msgPc.Popped?
    ensures SameKernel(s, Apply(s, ReadClient))
  {
  }

  lemma ClientStepKeepsKernel(s: State, step: Step)
    requires ClientStep(step) && Enabled(s, step)
    ensures SameKernel(s, Apply(s, step))
  {
    match step
    case ClientStart(client, timeOutInMs) =>
      hide Start, SameKernel, FutureTime;
      if client in s.mTimer { KernelReflexive(s); } else { StartKeepsKernel(s, client, timeOutInMs); }
    case ClientStop(client) =>
      hide StopRunning, SameKernel;
      if client in s.mTimer { StopKeepsKernel(s, client, false); } else { KernelReflexive(s); }
    case ReadClient =>
      hide Apply, SameKernel;
      ReadKeepsKernel(s);
    case StopAndCallBack =>
      hide Apply, SameKernel;
      CallBackKeepsKernel(s);
  }

  lemma KernelReflexive(s: State)
    ensures SameKernel(s, s)
  {
  }

  /** Steps of time, of the kernel and of the poll thread: they touch no timer. */
  predicate KernelStep(step: Step) {
    step.Tick? || step.MakeSysCall? || step.PollWake? || step.PollDisarm? || step.PollUnpoll? || step.PollSend?
  }

  ghost predicate SameTimers(s: State, after: State) {
    && after == s.(clock := after.clock, queue := after.queue, pending := after.pending, armed := after.armed,
                   registered := after.registered, pollPc := after.pollPc)
    && !Earlier(after.clock, s.clock)
    && (after.queue == s.queue || after.queue == s.queue + [MsgTimerExpire])
  }

  lemma SysCallKeepsTimers(s: State)
    requires s.pending != []
    ensures SameTimers(s, Apply(s, MakeSysCall))
  {
    match s.pending[0]
    case AddPoll =>
    case DelPoll =>
    case SetTime(_) =>
  }

  lemma KernelStepKeepsTimers(s: State, step: Step)
    requires KernelStep(step) && Enabled(s, step)
    ensures SameTimers(s, Apply(s, step))
  {
    hide MakeCall;
    match step
    case Tick(_) =>
    case MakeSysCall =>
      hide Apply, SameTimers;
      SysCallKeepsTimers(s);
    case PollWake =>
    case PollDisarm =>
    case PollUnpoll =>
    case PollSend =>
  }

  /** What an expiry's next pop may change. */
  ghost predicate OnlyPops(s: State, after: State) {
    after == s.(heap := after.heap, msgPc := after.msgPc, pending := after.pending)
  }

  lemma PopOrFinishOnlyPops(s: State, now: Time, first: bool)
    ensures OnlyPops(s, PopOrFinish(s, now, first))
  {
    hide UpdateSoonestTime, Pop, OutRanks;
    if s.heap.Node? && (first || !OutRanks(TimerDelegate(0, now), s.heap.data)) {
      assert PopOrFinish(s, now, first) ==
             s.(heap := Pop(s.heap, OutRanks), msgPc := Popped(now, s.heap.data, first, s.heap));
    }
  }

  lemma PopNextOnlyPops(s: State)
    requires s.msgPc.ToPop?
    ensures OnlyPops(s, Apply(s, PopNext))
  {
    hide PopOrFinish, OnlyPops;
    PopOrFinishOnlyPops(s, s.msgPc.now, s.msgPc.first);
  }

  // ---------- no timer is lost ----------

  /** The kernel timer is set to the heap's top and polled, or the message task is about to see to
      it: the rest of its system calls do, or an expiry is being handled, queued or being raised. */
  ghost predicate WillWake(s: State) {
    s.heap.Node? ==>
      || (s.pending == [] && s.registered && s.armed == Some(s.heap.data.futureTime))
      || (s.pending == [SetTime(Some(s.heap.data.futureTime))] && s.registered)
      || s.pending == [AddPoll, SetTime(Some(s.heap.data.futureTime))]
      || !s.msgPc.BetweenMsgs?
      || MsgTimerExpire in s.queue
      || !s.pollPc.Waiting?
  }

  lemma WakesAfterReceive(s: State)
    requires WillWake(s) && Enabled(s, Receive)
    ensures WillWake(Apply(s, Receive))
  {
    var got, msg := s.(queue := s.queue[1..]), s.queue[0];
    assert s.queue == [msg] + got.queue;
    WakesAfterHandling(s, got, msg);
  }

  lemma WakesAfterHandling(s: State, got: State, msg: Msg)
    requires WillWake(s) && s.msgPc.BetweenMsgs? && s.pending == []
    requires got == s.(queue := got.queue) && s.queue == [msg] + got.queue
    ensures WillWake(Handle(got, msg))
  {
    match msg
    case MsgTimerPush(timer) =>
    case MsgTimerRemove(timer) =>
    case MsgTimerExpire =>
  }

  lemma WakesAfterPop(s: State)
    requires s.msgPc.ToPop?
    ensures WillWake(Apply(s, PopNext))
  {
    hide Pop, OutRanks, UpdateSoonestTime;
    if s.heap.Node? { FinishSetsTime(s.heap); }
  }

  lemma FinishSetsTime(heap: Tree<TimerDelegate>)
    requires heap.Node?
    ensures UpdateSoonestTime(None, heap) == [AddPoll, SetTime(Some(heap.data.futureTime))]
  {
  }

  lemma WakesAfterClient(s: State, after: State)
    requires WillWake(s) && SameKernel(s, after)
    ensures WillWake(after)
  {
    if MsgTimerExpire in s.queue { assert MsgTimerExpire in after.queue; }
  }

  lemma WakesAfterKernel(s: State, step: Step)
    requires WillWake(s) && KernelStep(step) && Enabled(s, step)
    ensures WillWake(Apply(s, step))
  {
    match step
    case Tick(_) =>
    case MakeSysCall =>
    case PollWake =>
    case PollDisarm =>
    case PollUnpoll =>
    case PollSend =>
  }

  lemma WakesAfterStep(s: State, step: Step)
    requires WillWake(s) && Enabled(s, step)
    ensures WillWake(Apply(s, step))
  {
    hide WillWake, SameKernel, Apply;
    if ClientStep(step) {
      ClientStepKeepsKernel(s, step);
      WakesAfterClient(s, Apply(s, step));
    } else if KernelStep(step) {
      WakesAfterKernel(s, step);
    } else if step.Receive? {
      WakesAfterReceive(s);
    } else {
      WakesAfterPop(s);
    }
  }

  // ---------- every timer's life ----------

  function Count(queue: seq<Msg>, m: Msg): nat {
    if queue == [] then 0 else (if queue[0] == m then 1 else 0) + Count(queue[1..], m)
  }

  /** No removal of `t` is queued ahead of its insertion. */
  predicate PushBeforeRemove(queue: seq<Msg>, t: TimerDelegate) {
    queue == [] ||
    (PushBeforeRemove(queue[1..], t) &&
     (queue[0] == MsgTimerRemove(t) ==> Count(queue[1..], MsgTimerPush(t)) == 0))
  }

  lemma {:induction false} CountSnoc(queue: seq<Msg>, last: Msg, m: Msg)
    ensures Count(queue + [last], m) == Count(queue, m) + if last == m then 1 else 0
  {
    if queue != [] {
      assert (queue + [last])[1..] == queue[1..] + [last];
      CountSnoc(queue[1..], last, m);
    }
  }

  lemma {:induction false} PushBeforeRemoveSnoc(queue: seq<Msg>, last: Msg, t: TimerDelegate)
    requires PushBeforeRemove(queue, t)
    requires last == MsgTimerPush(t) ==> Count(queue, MsgTimerRemove(t)) == 0
    ensures PushBeforeRemove(queue + [last], t)
  {
    if queue != [] {
      assert (queue + [last])[1..] == queue[1..] + [last];
      PushBeforeRemoveSnoc(queue[1..], last, t);
      CountSnoc(queue[1..], last, MsgTimerPush(t));
    }
  }

  lemma Enqueued(queue: seq<Msg>, last: Msg, t: TimerDelegate)
    requires PushBeforeRemove(queue, t)
    requires last == MsgTimerPush(t) ==> Count(queue, MsgTimerRemove(t)) == 0
    ensures PushBeforeRemove(queue + [last], t)
    ensures Count(queue + [last], MsgTimerPush(t)) ==
            Count(queue, MsgTimerPush(t)) + if last == MsgTimerPush(t) then 1 else 0
    ensures Count(queue + [last], MsgTimerRemove(t)) ==
            Count(queue, MsgTimerRemove(t)) + if last == MsgTimerRemove(t) then 1 else 0
  {
    PushBeforeRemoveSnoc(queue, last, t);
    CountSnoc(queue, last, MsgTimerPush(t));
    CountSnoc(queue, last, MsgTimerRemove(t));
  }

  function Firing(pc: MsgPc, t: TimerDelegate): nat {
    if (pc.Popped? || pc.Stopping?) && pc.timer == t then 1 else 0
  }

  /** How often the timer is queued for the heap, in the heap, or being fired. */
  ghost function Places(s: State, t: TimerDelegate): nat {
    Count(s.queue, MsgTimerPush(t)) + Elements(s.heap)[t] + Firing(s.msgPc, t)
  }

  ghost function StopsOf(s: State, t: TimerDelegate): nat {
    s.stops[Stop(t, false)] + s.stops[Stop(t, true)]
  }

  /** One timer's bookkeeping: before it is started nothing mentions it; a running timer is in
      exactly one place; a stopped one is queued for removal or deleted, once, and a deleted one is
      nowhere; it is called back exactly if the expiry path made its one successful stop. */
  ghost predicate Tracked(s: State, t: TimerDelegate) {
    && Places(s, t) <= 1
    && StopsOf(s, t) + (if t in s.mClient then 1 else 0) == (if t in s.started then 1 else 0)
    && Count(s.queue, MsgTimerRemove(t)) + s.deleted[t] == StopsOf(s, t)
    && (t in s.mClient ==> Places(s, t) == 1)
    && (t !in s.started || s.deleted[t] > 0 ==> Places(s, t) == 0)
    && PushBeforeRemove(s.queue, t)
    && s.callbacks[t] == s.stops[Stop(t, true)]
  }

  /** Clients and their delegates point at each other; ids are never reused; a delegate being fired
      was read with its own client. */
  ghost predicate Linked(s: State) {
    && (forall c :: c in s.mTimer ==> s.mTimer[c] in s.mClient && s.mClient[s.mTimer[c]] == c)
    && (forall t :: t in s.mClient ==> s.mClient[t] in s.mTimer && s.mTimer[s.mClient[t]] == t)
    && (forall t :: t in s.mClient ==> t in s.started)
    && (forall t :: t in s.started ==> t.id < s.nextId)
    && (s.msgPc.Stopping? ==> s.msgPc.timer in s.started)
    && (s.msgPc.Stopping? && s.msgPc.timer in s.mClient ==> s.mClient[s.msgPc.timer] == s.msgPc.client)
  }

  ghost predicate Inv(s: State) {
    && Ordered(s.heap, OutRanks)
    && WillWake(s)
    && Linked(s)
    && forall t :: Tracked(s, t)
  }

  lemma TrackedAfterStart(s: State, client: Client, timeOutInMs: nat, t: TimerDelegate)
    requires FutureTime(s.clock, timeOutInMs).sec < TWO31
    requires Tracked(s, t) && Linked(s) && client !in s.mTimer
    ensures Tracked(Start(s, client, timeOutInMs), t)
  {
    hide Count, PushBeforeRemove, FutureTime;
    var timer := NewTimer(s, timeOutInMs);
    assert timer !in s.started;
    Enqueued(s.queue, MsgTimerPush(timer), t);
  }

  lemma TrackedAfterStop(s: State, client: Client, t: TimerDelegate)
    requires client in s.mTimer && Linked(s) && Tracked(s, t)
    ensures Tracked(StopRunning(s, client, false), t)
    ensures forall called :: Tracked(StopRunning(s, client, true).(
              callbacks := s.callbacks + multiset{s.mTimer[client]}, called := called), t)
  {
    hide Count, PushBeforeRemove;
    assert s.mTimer[client] in s.mClient;
    Enqueued(s.queue, MsgTimerRemove(s.mTimer[client]), t);
  }

  lemma ElementsAfterRemove(heap: Tree<TimerDelegate>, timer: TimerDelegate)
    requires Ordered(heap, OutRanks)
    ensures Elements(Remove(heap, timer, OutRanks)) == Elements(heap) - multiset{timer}
  {
    TimersArePreordered();
    FindsIffPresent(heap, timer, OutRanks);
    if Finds(heap, timer, OutRanks) { RemoveTakesOne(heap, timer, OutRanks); }
  }

  lemma TrackedAfterPush(s: State, timer: TimerDelegate, t: TimerDelegate)
    requires s.queue != [] && s.queue[0] == MsgTimerPush(timer) && s.msgPc.BetweenMsgs? && Tracked(s, t)
    ensures Tracked(Handle(s.(queue := s.queue[1..]), s.queue[0]), t)
  {
    hide Elements, Push, UpdateSoonestTime, OutRanks;
    PushAddsOne(s.heap, timer, OutRanks);
  }

  lemma TrackedAfterRemove(s: State, timer: TimerDelegate, t: TimerDelegate)
    requires s.queue != [] && s.queue[0] == MsgTimerRemove(timer) && s.msgPc.BetweenMsgs? && Tracked(s, t)
    requires Ordered(s.heap, OutRanks)
    ensures Tracked(Handle(s.(queue := s.queue[1..]), s.queue[0]), t)
  {
    hide Elements, Ordered, Remove, Finds, UpdateSoonestTime, OutRanks;
    ElementsAfterRemove(s.heap, timer);
  }

  lemma TrackedAfterReceive(s: State, t: TimerDelegate)
    requires Enabled(s, Receive) && Tracked(s, t) && Ordered(s.heap, OutRanks)
    ensures Tracked(Apply(s, Receive), t)
  {
    match s.queue[0]
    case MsgTimerPush(timer) =>
      hide Tracked, Handle, Ordered;
      TrackedAfterPush(s, timer, t);
    case MsgTimerRemove(timer) =>
      hide Tracked, Handle, Ordered;
      TrackedAfterRemove(s, timer, t);
    case MsgTimerExpire =>
      hide Elements, Ordered;
  }

  lemma TrackedAfterPop(s: State, t: TimerDelegate)
    requires s.msgPc.ToPop? && Tracked(s, t)
    ensures Tracked(Apply(s, PopNext), t)
  {
    hide Places, Tracked, Apply, OnlyPops;
    PlacesAfterPop(s, t);
    PopNextOnlyPops(s);
    TrackedUnchanged(s, Apply(s, PopNext), t);
  }

  lemma PlacesAfterPop(s: State, t: TimerDelegate)
    requires s.msgPc.ToPop?
    ensures Places(Apply(s, PopNext), t) == Places(s, t)
  {
    hide PopOrFinish, Places;
    PlacesAfterPopping(s, s.msgPc.now, s.msgPc.first, t);
  }

  lemma PlacesAfterPopping(s: State, now: Time, first: bool, t: TimerDelegate)
    requires s.msgPc.ToPop?
    ensures Places(PopOrFinish(s, now, first), t) == Places(s, t)
  {
    hide Count, Elements, Pop, UpdateSoonestTime, OutRanks;
    if s.heap.Node? { TopLeavesOnce(s.heap, t); }
  }

  lemma TopLeavesOnce(heap: Tree<TimerDelegate>, t: TimerDelegate)
    requires heap.Node?
    ensures Elements(heap)[t] == Elements(Pop(heap, OutRanks))[t] + if heap.data == t then 1 else 0
  {
    PopTakesTop(heap, OutRanks);
  }

  lemma TrackedUnchanged(s: State, after: State, t: TimerDelegate)
    requires Tracked(s, t) && OnlyPops(s, after)
    requires Places(after, t) <= Places(s, t) && (t in s.mClient ==> Places(after, t) == Places(s, t))
    ensures Tracked(after, t)
  {
    hide Places, Count, PushBeforeRemove;
  }

  lemma TrackedAfterRead(s: State, t: TimerDelegate)
    requires s.msgPc.Popped? && Tracked(s, t)
    ensures Tracked(Apply(s, ReadClient), t)
  {
    hide Places, Tracked, Count, PushBeforeRemove, Elements;
    PlacesAfterRead(s, t);
    ReadOnlyReads(s);
    TrackedUnchanged(s, Apply(s, ReadClient), t);
  }

  lemma ReadOnlyReads(s: State)
    requires s.msgPc.Popped?
    ensures OnlyPops(s, Apply(s, ReadClient))
  {
  }

  lemma PlacesAfterRead(s: State, t: TimerDelegate)
    requires s.msgPc.Popped?
    ensures Places(Apply(s, ReadClient), t) <= Places(s, t)
    ensures t in s.mClient ==> Places(Apply(s, ReadClient), t) == Places(s, t)
  {
    hide Count, Elements;
  }

  /** Finishing a timer's firing: a running timer is stopped, by its own client's `stop()`. */
  lemma TrackedAfterCallBack(s: State, t: TimerDelegate)
    requires s.msgPc.Stopping? && Linked(s) && Tracked(s, t)
    ensures Tracked(Apply(s, StopAndCallBack), t)
  {
    hide Count, PushBeforeRemove, Elements;
    if s.msgPc.client in s.mTimer {
      var timer := s.mTimer[s.msgPc.client];
      Enqueued(s.queue, MsgTimerRemove(timer), t);
      assert timer in s.mClient;
    }
  }

  lemma TrackedAfterKernel(s: State, after: State, t: TimerDelegate)
    requires Tracked(s, t) && SameTimers(s, after)
    ensures Tracked(after, t)
  {
    hide Count, PushBeforeRemove, Elements;
    Enqueued(s.queue, MsgTimerExpire, t);
  }

  lemma TrackedAfterClient(s: State, step: Step, t: TimerDelegate)
    requires ClientStep(step) && Enabled(s, step) && Linked(s) && Tracked(s, t)
    ensures Tracked(Apply(s, step), t)
  {
    hide Tracked, Linked, Start, StopRunning, FutureTime;
    match step
    case ClientStart(client, timeOutInMs) =>
      if client !in s.mTimer { TrackedAfterStart(s, client, timeOutInMs, t); }
    case ClientStop(client) =>
      if client in s.mTimer { TrackedAfterStop(s, client, t); }
    case ReadClient =>
      hide Apply;
      TrackedAfterRead(s, t);
    case StopAndCallBack =>
      hide Apply;
      TrackedAfterCallBack(s, t);
  }

  lemma TrackedAfterStep(s: State, step: Step, t: TimerDelegate)
    requires Enabled(s, step) && Linked(s) && Tracked(s, t) && Ordered(s.heap, OutRanks)
    ensures Tracked(Apply(s, step), t)
  {
    hide Tracked, Linked, Ordered, Apply, SameTimers;
    if ClientStep(step) {
      TrackedAfterClient(s, step, t);
    } else if KernelStep(step) {
      KernelStepKeepsTimers(s, step);
      TrackedAfterKernel(s, Apply(s, step), t);
    } else if step.Receive? {
      TrackedAfterReceive(s, t);
    } else {
      TrackedAfterPop(s, t);
    }
  }

  lemma LinkedAfterStart(s: State, client: Client, timeOutInMs: nat)
    requires FutureTime(s.clock, timeOutInMs).sec < TWO31
    requires Linked(s) && client !in s.mTimer
    ensures Linked(Start(s, client, timeOutInMs))
  {
    hide FutureTime;
    assert NewTimer(s, timeOutInMs) !in s.started;
  }

  lemma LinkedAfterStop(s: State, client: Client, byExpiry: bool)
    requires Linked(s) && client in s.mTimer
    ensures Linked(StopRunning(s, client, byExpiry))
  {
  }

  lemma LinkedAfterFiring(s: State, step: Step)
    requires step.ReadClient? || step.StopAndCallBack?
    requires Enabled(s, step) && Linked(s)
    ensures Linked(Apply(s, step))
  {
    if step.StopAndCallBack? && s.msgPc.client in s.mTimer {
      LinkedAfterStop(s, s.msgPc.client, true);
    }
  }

  lemma LinkedUnchanged(s: State, after: State)
    requires Linked(s) && SameClients(s, after)
    ensures Linked(after)
  {
  }

  ghost predicate SameClients(s: State, after: State) {
    && after.mTimer == s.mTimer && after.mClient == s.mClient
    && after.started == s.started && after.nextId == s.nextId
    && after.callbacks == s.callbacks && after.called == s.called
    && !Earlier(after.clock, s.clock)
    && (after.msgPc.Stopping? ==> after.msgPc == s.msgPc)
  }

  lemma HandlingLeavesClients(s: State, msg: Msg)
    requires s.msgPc.BetweenMsgs?
    ensures var after := Handle(s, msg);
            SameClients(s, after) && (after.msgPc == s.msgPc || after.msgPc == ToPop(after.clock, true))
  {
    hide UpdateSoonestTime, Push, Remove, Finds, OutRanks, Top;
  }

  lemma PoppingLeavesClients(s: State, now: Time, first: bool)
    ensures SameClients(s, PopOrFinish(s, now, first))
  {
    hide UpdateSoonestTime, Pop, OutRanks;
  }

  lemma KernelLeavesClients(s: State, after: State)
    requires SameTimers(s, after)
    ensures SameClients(s, after) && after.msgPc == s.msgPc
  {
  }

  lemma OthersLeaveClients(s: State, step: Step)
    requires !ClientStep(step) && Enabled(s, step)
    ensures var after := Apply(s, step);
            && SameClients(s, after)
            && (!step.PopNext? ==> after.msgPc == s.msgPc || after.msgPc == ToPop(after.clock, true))
  {
    hide Handle, PopOrFinish, UpdateSoonestTime, SameTimers;
    if KernelStep(step) {
      hide Apply, SameClients;
      KernelStepKeepsTimers(s, step);
      KernelLeavesClients(s, Apply(s, step));
    } else if step.Receive? {
      HandlingLeavesClients(s.(queue := s.queue[1..]), s.queue[0]);
    } else {
      PoppingLeavesClients(s, s.msgPc.now, s.msgPc.first);
    }
  }

  lemma LinkedAfterStep(s: State, step: Step)
    requires Enabled(s, step) && Linked(s)
    ensures Linked(Apply(s, step))
  {
    hide Linked, Start, StopRunning, Handle, PopOrFinish, MakeCall, CallBackAfter, NewTimer, FutureTime;
    if !ClientStep(step) {
      OthersLeaveClients(s, step);
      LinkedUnchanged(s, Apply(s, step));
    } else if step.ClientStart? {
      if step.client !in s.mTimer { LinkedAfterStart(s, step.client, step.timeOutInMs); }
    } else if step.ClientStop? {
      if step.client in s.mTimer { LinkedAfterStop(s, step.client, false); }
    } else {
      LinkedAfterFiring(s, step);
    }
  }

  lemma OrderedAfterStep(s: State, step: Step)
    requires Enabled(s, step) && Ordered(s.heap, OutRanks)
    ensures Ordered(Apply(s, step).heap, OutRanks)
  {
    TimersArePreordered();
    match step
    case Receive =>
      match s.queue[0] {
        case MsgTimerPush(timer) => PushKeepsHeap(s.heap, timer, OutRanks);
        case MsgTimerRemove(timer) => RemoveKeepsHeap(s.heap, timer, OutRanks);
        case MsgTimerExpire =>
      }
    case PopNext => if s.heap.Node? { PopKeepsHeap(s.heap, OutRanks); }
    case _ =>
  }

  lemma {:induction false} Invariant(steps: seq<Step>)
    requires Execute(steps).Some?
    ensures Inv(Execute(steps).value)
  {
    if steps != [] {
      var front, step := steps[..|steps| - 1], steps[|steps| - 1];
      Invariant(front);
      var s := Execute(front).value;
      WakesAfterStep(s, step);
      LinkedAfterStep(s, step);
      OrderedAfterStep(s, step);
      forall t ensures Tracked(Apply(s, step), t) { TrackedAfterStep(s, step, t); }
    }
  }

  // ---------- what holds in every reachable state ----------

  /** Nothing is in flight: no message, no system call left, both threads waiting. */
  ghost predicate Quiescent(s: State) {
    s.queue == [] && s.pending == [] && s.msgPc.BetweenMsgs? && s.pollPc.Waiting?
  }

  /** No timer is lost: whenever the heap is not empty the kernel timer is set to its earliest time
      and polled, or a wake-up is on its way; a running timer is always queued for the heap, in it,
      or being fired; and at rest the kernel timer is polled and set no later than any running timer. */
  lemma NoTimerLost(steps: seq<Step>)
    requires Execute(steps).Some?
    ensures var s := Execute(steps).value;
      && WillWake(s)
      && (forall t :: t in Elements(s.heap) ==> !Earlier(t.futureTime, s.heap.data.futureTime))
      && (forall t :: t in s.mClient ==> Places(s, t) == 1)
      && (Quiescent(s) ==> forall t :: t in s.mClient ==>
            s.registered && s.armed.Some? && !Earlier(t.futureTime, s.armed.value))
  {
    Invariant(steps);
    var s := Execute(steps).value;
    forall t | t in Elements(s.heap) ensures !Earlier(t.futureTime, s.heap.data.futureTime) {
      TimersArePreordered();
      TopIsMaximal(s.heap, t, OutRanks);
      OutRanksIsEarlier(t, s.heap.data);
    }
    forall t | t in s.mClient ensures Places(s, t) == 1 { assert Tracked(s, t); }
    forall t | Quiescent(s) && t in s.mClient ensures t in Elements(s.heap) { assert Tracked(s, t); }
  }

  lemma {:induction false} CountsMembers(queue: seq<Msg>, m: Msg)
    ensures m in queue <==> Count(queue, m) > 0
  {
    if queue != [] {
      CountsMembers(queue[1..], m);
      assert queue == [queue[0]] + queue[1..];
    }
  }

  /** A delegate is deleted at most once, and only after it was stopped; from then on neither the
      heap, nor a queued message, nor the expiry loop refers to it.  With nothing queued, exactly
      the stopped delegates are deleted. */
  lemma DeletedOnceAndForGood(steps: seq<Step>, t: TimerDelegate)
    requires Execute(steps).Some?
    ensures var s := Execute(steps).value;
      && s.deleted[t] <= StopsOf(s, t) <= 1
      && (s.deleted[t] > 0 ==>
            t !in Elements(s.heap) && Firing(s.msgPc, t) == 0 &&
            MsgTimerPush(t) !in s.queue && MsgTimerRemove(t) !in s.queue)
      && (s.queue == [] ==> s.deleted[t] == StopsOf(s, t))
  {
    Invariant(steps);
    var s := Execute(steps).value;
    assert Tracked(s, t);
    CountsMembers(s.queue, MsgTimerPush(t));
    CountsMembers(s.queue, MsgTimerRemove(t));
  }

  /** A started timer is stopped at most once, by its client or by expiring, and its callback runs
      once if expiring stopped it and never if the client did. */
  lemma CallBackOnlyIfExpiryStopped(steps: seq<Step>, t: TimerDelegate)
    requires Execute(steps).Some?
    ensures var s := Execute(steps).value;
      && StopsOf(s, t) == (if t in s.started && t !in s.mClient then 1 else 0)
      && s.callbacks[t] == s.stops[Stop(t, true)] == StopsOf(s, t) - s.stops[Stop(t, false)]
  {
    Invariant(steps);
    assert Tracked(Execute(steps).value, t);
  }

  // ---------- callbacks that come early ----------

  /** The timer was the first that an expiry popped, and at that moment nothing in the heap was due. */
  ghost predicate TakenLate(c: CallBack, t: TimerDelegate) {
    t == c.popped && c.first && !SomeDue(Elements(c.before), c.now)
  }

  /** The timer was never popped: it was started between the read of the popped timer's client and the
      stop, with a delay or at a time past the expiry's `now`. */
  predicate StartedMeanwhile(c: CallBack, t: TimerDelegate, start: Launch) {
    t != c.popped && c.ids <= t.id && (start.timeOutInMs > 0 || start.at != c.now)
  }

  /** When a callback counts as early, and that time has not gone back since the expiry's `now`. */
  ghost predicate Explained(c: CallBack, t: TimerDelegate, start: Launch) {
    && (Earlier(c.now, t.futureTime) <==> TakenLate(c, t) || StartedMeanwhile(c, t, start))
    && !Earlier(c.at, c.now)
    && (t == c.popped <==> t.id < c.ids)
  }

  /** A popped timer was due unless it was the first and nothing was due. */
  ghost predicate PoppedDue(now: Time, timer: TimerDelegate, first: bool, before: Tree<TimerDelegate>) {
    Earlier(now, timer.futureTime) <==> first && !SomeDue(Elements(before), now)
  }

  /** What the expiry loop knows of the timer it holds; and the timer that the client runs is either
      that one or one started since. */
  ghost predicate Timely(s: State) {
    && (!s.msgPc.BetweenMsgs? ==> !Earlier(s.clock, s.msgPc.now))
    && (s.msgPc.Popped? || s.msgPc.Stopping? ==>
          PoppedDue(s.msgPc.now, s.msgPc.timer, s.msgPc.first, s.msgPc.before))
    && (s.msgPc.Stopping? ==> s.msgPc.timer.id < s.msgPc.ids <= s.nextId)
    && (s.msgPc.Stopping? && s.msgPc.client in s.mTimer ==>
          var t := s.mTimer[s.msgPc.client];
          t == s.msgPc.timer || (s.msgPc.ids <= t.id && t in s.started && !Earlier(s.started[t].at, s.msgPc.now)))
    && Launched(s.started)
    && Recorded(s.called, s.callbacks, s.started)
  }

  /** Every timer is due its delay after its start. */
  ghost predicate Launched(started: map<TimerDelegate, Launch>) {
    forall t :: t in started ==> FutureTime(started[t].at, started[t].timeOutInMs) == t.futureTime
  }

  ghost predicate Recorded(called: map<TimerDelegate, CallBack>, callbacks: multiset<TimerDelegate>,
                           started: map<TimerDelegate, Launch>) {
    && (forall t :: t in called ==> t in started && Explained(called[t], t, started[t]))
    && (forall t :: t in called <==> callbacks[t] > 0)
  }

  lemma RecordedOneMore(called: map<TimerDelegate, CallBack>, callbacks: multiset<TimerDelegate>,
                        started: map<TimerDelegate, Launch>, t: TimerDelegate, c: CallBack)
    requires Recorded(called, callbacks, started) && t in started && Explained(c, t, started[t])
    ensures Recorded(called[t := c], callbacks + multiset{t}, started)
  {
    hide Explained;
  }

  lemma LaunchedOneMore(called: map<TimerDelegate, CallBack>, callbacks: multiset<TimerDelegate>,
                        started: map<TimerDelegate, Launch>, t: TimerDelegate, start: Launch)
    requires Recorded(called, callbacks, started) && Launched(started) && t !in started
    requires FutureTime(start.at, start.timeOutInMs) == t.futureTime
    ensures Recorded(called, callbacks, started[t := start]) && Launched(started[t := start])
  {
    hide Explained, FutureTime;
  }

  /** The top of a heap is due exactly if anything in it is. */
  lemma TopDueIffSomeDue(heap: Tree<TimerDelegate>, now: Time)
    requires heap.Node? && Ordered(heap, OutRanks)
    ensures Due(heap.data, now) <==> SomeDue(Elements(heap), now)
  {
    TimersArePreordered();
    assert heap.data in Elements(heap);
    forall y | y in Elements(heap) && Due(y, now) ensures Due(heap.data, now) {
      TopIsMaximal(heap, y, OutRanks);
      OutRanksIsEarlier(y, heap.data);
    }
  }

  /** `popIfOutRanks` checks, the first pop does not. */
  lemma PopsDue(heap: Tree<TimerDelegate>, now: Time, first: bool)
    requires heap.Node? && Ordered(heap, OutRanks)
    requires first || !OutRanks(TimerDelegate(0, now), heap.data)
    ensures PoppedDue(now, heap.data, first, heap)
  {
    TopDueIffSomeDue(heap, now);
    OutRanksIsEarlier(TimerDelegate(0, now), heap.data);
  }

  lemma TimelyAfterPop(s: State)
    requires Timely(s) && Ordered(s.heap, OutRanks) && s.msgPc.ToPop?
    ensures Timely(Apply(s, PopNext))
  {
    hide Recorded, Launched, PoppedDue, Ordered, OutRanks, Pop, UpdateSoonestTime;
    var now, first := s.msgPc.now, s.msgPc.first;
    if s.heap.Node? && (first || !OutRanks(TimerDelegate(0, now), s.heap.data)) { PopsDue(s.heap, now, first); }
  }

  lemma TimelyAfterRead(s: State)
    requires Timely(s) && Linked(s) && s.msgPc.Popped?
    ensures Timely(Apply(s, ReadClient))
  {
    hide Recorded, Launched, PoppedDue, Earlier;
  }

  lemma TimelyAfterCallBack(s: State)
    requires Timely(s) && Linked(s) && s.msgPc.Stopping?
    ensures Timely(Apply(s, StopAndCallBack))
  {
    hide Explained, Earlier, Recorded, PoppedDue, Launched;
    if s.msgPc.client in s.mTimer {
      var t := s.mTimer[s.msgPc.client];
      assert t in s.mClient && t in s.started;
      LaunchedIs(s.started, t);
      NowExplained(CallBackNow(s), t, s.started[t]);
      RecordedOneMore(s.called, s.callbacks, s.started, t, CallBackNow(s));
    }
  }

  lemma LaunchedIs(started: map<TimerDelegate, Launch>, t: TimerDelegate)
    requires Launched(started) && t in started
    ensures FutureTime(started[t].at, started[t].timeOutInMs) == t.futureTime
  {
  }

  /** A timer started at or after `now` is due later than `now`, but for one without a delay at `now`. */
  lemma StartIsLater(now: Time, start: Launch)
    requires !Earlier(start.at, now)
    ensures Earlier(now, FutureTime(start.at, start.timeOutInMs)) <==> start.timeOutInMs > 0 || start.at != now
  {
    EarlierIsLess(start.at, now);
    EarlierIsLess(now, FutureTime(start.at, start.timeOutInMs));
  }

  lemma EarlierIsLess(a: TimeSpec, b: TimeSpec)
    requires 0 <= a.nsec < NANOS && 0 <= b.nsec < NANOS
    ensures Earlier(a, b) <==> Nanos(a) < Nanos(b)
    ensures a == b <==> Nanos(a) == Nanos(b)
  {
  }

  lemma NowExplained(c: CallBack, t: TimerDelegate, start: Launch)
    requires !Earlier(c.at, c.now) && c.popped.id < c.ids && PoppedDue(c.now, c.popped, c.first, c.before)
    requires t == c.popped || (c.ids <= t.id && !Earlier(start.at, c.now))
    requires FutureTime(start.at, start.timeOutInMs) == t.futureTime
    ensures Explained(c, t, start)
  {
    hide Earlier, FutureTime, SomeDue;
    if t != c.popped { StartIsLater(c.now, start); }
  }

  lemma TimelyAfterStart(s: State, client: Client, timeOutInMs: nat)
    requires Timely(s) && Linked(s) && client !in s.mTimer
    requires FutureTime(s.clock, timeOutInMs).sec < TWO31
    ensures Timely(Start(s, client, timeOutInMs))
  {
    hide FutureTime, Recorded, Launched, PoppedDue;
    var t := NewTimer(s, timeOutInMs);
    assert t !in s.started;
    LaunchedOneMore(s.called, s.callbacks, s.started, t, Launch(s.clock, timeOutInMs));
  }

  lemma TimelyUnchanged(s: State, after: State)
    requires Timely(s) && SameClients(s, after)
    requires after.msgPc == s.msgPc || after.msgPc == ToPop(after.clock, true)
    ensures Timely(after)
  {
    hide Recorded, Launched, PoppedDue;
  }

  lemma TimelyAfterStop(s: State, client: Client)
    requires Timely(s) && client in s.mTimer
    ensures Timely(StopRunning(s, client, false))
  {
    hide Recorded, Launched, PoppedDue;
  }

  lemma TimelyAfterStep(s: State, step: Step)
    requires Timely(s) && Linked(s) && Ordered(s.heap, OutRanks) && Enabled(s, step)
    ensures Timely(Apply(s, step))
  {
    hide Timely, Linked, Ordered, Start, StopRunning, Handle, PopOrFinish, MakeCall, CallBackAfter;
    hide NewTimer, FutureTime;
    if step.PopNext? {
      TimelyAfterPop(s);
    } else if !ClientStep(step) {
      OthersLeaveClients(s, step);
      TimelyUnchanged(s, Apply(s, step));
    } else if step.ClientStart? {
      if step.client !in s.mTimer { TimelyAfterStart(s, step.client, step.timeOutInMs); }
    } else if step.ClientStop? {
      if step.client in s.mTimer { TimelyAfterStop(s, step.client); }
    } else if step.ReadClient? {
      TimelyAfterRead(s);
    } else {
      TimelyAfterCallBack(s);
    }
  }

  lemma {:induction false} AlwaysTimely(steps: seq<Step>)
    requires Execute(steps).Some?
    ensures Timely(Execute(steps).value)
  {
    hide Timely, Apply, Enabled, Linked, Ordered;
    if steps == [] {
      TimelyAtFirst();
    } else {
      var front := steps[..|steps| - 1];
      AlwaysTimely(front);
      Invariant(front);
      TimelyAfterStep(Execute(front).value, steps[|steps| - 1]);
    }
  }

  lemma TimelyAtFirst()
    ensures Timely(INIT)
  {
  }

  /** When callbacks are on time.  Measured by the `now` that the expiry read, a timer is called back
      before it is due if and only if it was the first that the expiry popped and nothing in the heap was
      due then, or it was started between the read of the popped timer's client and the stop, not both
      without a delay and at `now`.  The clock may go on until the callback, so by the clock there are no
      other early ones, and if it stood still these are the early ones. */
  lemma CallBackEarlyIff(steps: seq<Step>, t: TimerDelegate)
    requires Execute(steps).Some? && t in Execute(steps).value.callbacks
    ensures var s := Execute(steps).value;
      t in s.called && t in s.started &&
      var c, early := s.called[t], TakenLate(s.called[t], t) || StartedMeanwhile(s.called[t], t, s.started[t]);
      && (Earlier(c.now, t.futureTime) <==> early)
      && (Earlier(c.at, t.futureTime) ==> early)
      && (c.at == c.now ==> (Earlier(c.at, t.futureTime) <==> early))
  {
    AlwaysTimely(steps);
    var s := Execute(steps).value;
    assert Explained(s.called[t], t, s.started[t]);
  }

  /** What `stop()` and the callback hit: the client's running timer.  That is the popped timer if that
      is still running, and otherwise one started since the client was read. */
  lemma FiringStopsTheFiredTimer(steps: seq<Step>)
    requires Execute(steps).Some? && Execute(steps).value.msgPc.Stopping?
    ensures var s := Execute(steps).value;
            var after := Apply(s, StopAndCallBack);
            && s.msgPc.timer !in after.mClient
            && (s.msgPc.client !in s.mTimer ==> after.stops == s.stops && after.callbacks == s.callbacks)
            && (s.msgPc.client in s.mTimer ==>
                  var t := s.mTimer[s.msgPc.client];
                  && (t == s.msgPc.timer <==> s.msgPc.timer in s.mClient)
                  && (t != s.msgPc.timer ==> s.msgPc.ids <= t.id)
                  && after.stops == s.stops + multiset{Stop(t, true)}
                  && after.callbacks == s.callbacks + multiset{t})
  {
    Invariant(steps);
    AlwaysTimely(steps);
  }

  lemma NeverDisarmsHandling(s: State, msg: Msg)
    requires DelPoll !in s.pending
    ensures DelPoll !in Handle(s, msg).pending
  {
    hide OutRanks;
  }

  lemma NeverDisarmsPopping(s: State, now: Time, first: bool)
    requires DelPoll !in s.pending
    ensures DelPoll !in PopOrFinish(s, now, first).pending
  {
    hide OutRanks, Pop;
  }

  lemma NeverDisarmsKernel(s: State, step: Step)
    requires KernelStep(step) && Enabled(s, step) && DelPoll !in s.pending
    ensures DelPoll !in Apply(s, step).pending
  {
    if step.MakeSysCall? { assert s.pending == [s.pending[0]] + s.pending[1..]; }
  }

  lemma NeverDisarmsStep(s: State, step: Step)
    requires Enabled(s, step) && DelPoll !in s.pending
    ensures DelPoll !in Apply(s, step).pending
  {
    hide Handle, PopOrFinish, UpdateSoonestTime;
    if ClientStep(step) {
      hide Apply;
      ClientStepKeepsKernel(s, step);
    } else if KernelStep(step) {
      hide Apply;
      NeverDisarmsKernel(s, step);
    } else if step.Receive? {
      NeverDisarmsHandling(s.(queue := s.queue[1..]), s.queue[0]);
    } else {
      NeverDisarmsPopping(s, s.msgPc.now, s.msgPc.first);
    }
  }

  /** The branch of `updateSoonestTime` that disarms the kernel timer is never taken: a caller that
      may leave the heap empty passes NULL as the prior top, so "no change" is what it sees. */
  lemma {:induction false} NeverDisarms(steps: seq<Step>)
    requires Execute(steps).Some?
    ensures DelPoll !in Execute(steps).value.pending
  {
    hide Apply, Enabled;
    if steps != [] {
      NeverDisarms(steps[..|steps| - 1]);
      NeverDisarmsStep(Execute(steps[..|steps| - 1]).value, steps[|steps| - 1]);
    }
  }
}
