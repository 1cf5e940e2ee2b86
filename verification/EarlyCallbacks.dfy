/** Two runs of the timer service in which a timer is called back before it is due, one for each of the
    ways `TimerProtocol.CallBackEarlyIff` allows.  In both the clock stands at 10 seconds. */
module EarlyCallbacks {
  import opened HeapTree
  import opened LocTimer
  import opened Options
  import opened TimerProtocol

  function Seconds(sec: nat): Time
    requires sec < TWO31
  {
    TimeSpec(sec, 0)
  }

  function Timer(id: nat, sec: nat): TimerDelegate
    requires sec < TWO31
  {
    TimerDelegate(id, Seconds(sec))
  }

  // Stretches of steps that both runs go through.
  const TO_HEAP: seq<Step> := [Receive, MakeSysCall, MakeSysCall]
  const WAKES_UP: seq<Step> := [PollWake, PollDisarm, PollUnpoll]
  const FIRES: seq<Step> := [PopNext, ReadClient, StopAndCallBack]

  lemma NothingYet()
    ensures Execute([]) == Some(INIT)
  {
  }

  lemma Go(steps: seq<Step>, s: State, step: Step) returns (more: seq<Step>, next: State)
    requires Execute(steps) == Some(s) && Enabled(s, step)
    ensures more == steps + [step] && next == Apply(s, step) && Execute(more) == Some(next)
  {
    more, next := steps + [step], Apply(s, step);
    assert more[..|steps|] == steps;
  }

  /** The kernel timer, set to `sec`, has gone off: the poll thread wakes and disarms it. */
  lemma Wakes(steps: seq<Step>, s0: State, sec: nat) returns (run: seq<Step>, s: State)
    requires sec <= 10 && Execute(steps) == Some(s0)
    requires s0.pollPc.Waiting? && s0.registered && s0.armed == Some(Seconds(sec)) && s0.clock == Seconds(10)
    ensures run == steps + WAKES_UP && Execute(run) == Some(s)
    ensures s == s0.(pollPc := ToSend, armed := None, registered := false)
  {
    hide Execute;
    run, s := Go(steps, s0, PollWake);
    run, s := Go(run, s, PollDisarm);
    run, s := Go(run, s, PollUnpoll);
  }

  /** The message task makes the two system calls that set the kernel timer. */
  lemma SetsKernelTimer(steps: seq<Step>, s0: State, time: Time) returns (run: seq<Step>, s: State)
    requires Execute(steps) == Some(s0) && s0.pending == [AddPoll, SetTime(Some(time))]
    ensures run == steps + [MakeSysCall, MakeSysCall] && Execute(run) == Some(s)
    ensures s == s0.(pending := [], registered := true, armed := Some(time))
  {
    hide Execute;
    run, s := Go(steps, s0, MakeSysCall);
    run, s := Go(run, s, MakeSysCall);
  }

  /** The expiry pops the top, reads its client, stops it and calls it back. */
  lemma Fires(steps: seq<Step>, s0: State) returns (run: seq<Step>, s: State)
    requires Execute(steps) == Some(s0) && s0.msgPc.ToPop? && s0.heap.Node? && s0.heap.data in s0.mClient
    requires s0.msgPc.first || !OutRanks(TimerDelegate(0, s0.msgPc.now), s0.heap.data)
    requires var c := s0.mClient[s0.heap.data]; c in s0.mTimer && s0.mTimer[c] == s0.heap.data
    ensures run == steps + FIRES && Execute(run) == Some(s)
    ensures var t, now := s0.heap.data, s0.msgPc.now;
            s == s0.(heap := Pop(s0.heap, OutRanks), msgPc := ToPop(now, false),
                     mTimer := s0.mTimer - {s0.mClient[t]}, mClient := s0.mClient - {t},
                     queue := s0.queue + [MsgTimerRemove(t)],
                     stops := s0.stops + multiset{Stop(t, true)}, callbacks := s0.callbacks + multiset{t},
                     called := s0.called[t := CallBack(s0.clock, now, t, s0.msgPc.first, s0.heap, s0.nextId)])
  {
    hide Execute, OutRanks, Pop;
    run, s := Go(steps, s0, PopNext);
    run, s := Go(run, s, ReadClient);
    run, s := Go(run, s, StopAndCallBack);
  }

  lemma ReceivesExpiry(steps: seq<Step>, s0: State) returns (run: seq<Step>, s: State)
    requires Execute(steps) == Some(s0) && s0.msgPc.BetweenMsgs? && s0.pending == []
    requires s0.queue != [] && s0.queue[0] == MsgTimerExpire
    ensures run == steps + [Receive] && Execute(run) == Some(s)
    ensures s == s0.(queue := s0.queue[1..], msgPc := ToPop(s0.clock, true))
  {
    hide Execute;
    run, s := Go(steps, s0, Receive);
  }

  lemma FinishesExpiry(steps: seq<Step>, s0: State) returns (run: seq<Step>, s: State)
    requires Execute(steps) == Some(s0) && s0.msgPc.ToPop? && !s0.msgPc.first && s0.heap.Node?
    requires OutRanks(TimerDelegate(0, s0.msgPc.now), s0.heap.data)
    ensures run == steps + [PopNext] && Execute(run) == Some(s)
    ensures s == s0.(msgPc := BetweenMsgs, pending := [AddPoll, SetTime(Some(s0.heap.data.futureTime))])
  {
    hide Execute, OutRanks, Pop;
    run, s := Go(steps, s0, PopNext);
  }

  /** The first timer reaches the heap and sets the kernel timer. */
  lemma PushesFirst(steps: seq<Step>, s0: State, t: TimerDelegate) returns (run: seq<Step>, s: State)
    requires Execute(steps) == Some(s0) && s0.msgPc.BetweenMsgs? && s0.pending == []
    requires s0.heap == Leaf && s0.queue != [] && s0.queue[0] == MsgTimerPush(t)
    ensures run == steps + TO_HEAP && Execute(run) == Some(s)
    ensures s == s0.(queue := s0.queue[1..], heap := Node(1, t, Leaf, Leaf), registered := true,
                     armed := Some(t.futureTime))
  {
    hide Execute, OutRanks;
    run, s := Go(steps, s0, Receive);
    run, s := SetsKernelTimer(run, s, t.futureTime);
  }

  lemma Starts(steps: seq<Step>, s0: State, client: Client, timeOutInMs: nat, t: TimerDelegate)
    returns (run: seq<Step>, s: State)
    requires Execute(steps) == Some(s0) && client !in s0.mTimer && t.id == s0.nextId
    requires FutureTime(s0.clock, timeOutInMs) == t.futureTime
    ensures run == steps + [ClientStart(client, timeOutInMs)] && Execute(run) == Some(s)
    ensures s == s0.(mTimer := s0.mTimer[client := t], mClient := s0.mClient[t := client],
                     queue := s0.queue + [MsgTimerPush(t)], nextId := t.id + 1,
                     started := s0.started[t := Launch(s0.clock, timeOutInMs)])
  {
    hide Execute;
    run, s := Go(steps, s0, ClientStart(client, timeOutInMs));
  }

  // ---------- a client restarted while its timer is fired ----------

  const POPPED_AT_TEN: seq<Step> :=
    [ClientStart(0, 10_000)] + TO_HEAP + [Tick(TimeSpec(10, 0))] + WAKES_UP + [PollSend] + [Receive] + [PopNext]

  const RESTARTED: seq<Step> :=
    POPPED_AT_TEN + [ReadClient] + [ClientStop(0)] + [ClientStart(0, 40_000)] + [StopAndCallBack]

  /** The client's timer, due at 10, is being fired when the client stops it and starts one due at 50:
      that one is stopped and called back at 10, though it never was in the heap. */
  lemma RestartedIsCalledEarly()
    ensures Execute(RESTARTED).Some?
    ensures var s, t := Execute(RESTARTED).value, Timer(1, 50);
            && t in s.callbacks && t in s.called && t in s.started
            && s.called[t].at == Seconds(10) && StartedMeanwhile(s.called[t], t, s.started[t])
  {
    hide Execute;
    var run, s := PoppedAtTen();
    var t := Timer(1, 50);
    run, s := Go(run, s, ReadClient);
    run, s := Go(run, s, ClientStop(0));
    run, s := Go(run, s, ClientStart(0, 40_000));
    assert s.mTimer == map[0 := t];
    run, s := Go(run, s, StopAndCallBack);
  }

  lemma PoppedAtTen() returns (run: seq<Step>, s: State)
    ensures run == POPPED_AT_TEN && Execute(run) == Some(s)
    ensures var t := Timer(0, 10);
            s == INIT.(clock := Seconds(10), msgPc := Popped(Seconds(10), t, true, Node(1, t, Leaf, Leaf)),
                       mTimer := map[0 := t], mClient := map[t := 0], nextId := 1,
                       started := map[t := Launch(Seconds(0), 10_000)])
  {
    hide Execute;
    NothingYet();
    var t := Timer(0, 10);
    run, s := Starts([], INIT, 0, 10_000, t);
    assert run == [ClientStart(0, 10_000)];
    run, s := PushesFirst(run, s, t);
    run, s := ExpiresAtTen(run, s);
    run, s := Go(run, s, PopNext);
  }

  lemma ExpiresAtTen(steps: seq<Step>, s0: State) returns (run: seq<Step>, s: State)
    requires Execute(steps) == Some(s0) && s0.msgPc.BetweenMsgs? && s0.pending == [] && s0.queue == []
    requires s0.pollPc.Waiting? && s0.registered && s0.armed == Some(Seconds(10)) && s0.clock == Seconds(0)
    ensures run == steps + [Tick(TimeSpec(10, 0))] + WAKES_UP + [PollSend] + [Receive]
    ensures Execute(run) == Some(s)
    ensures s == s0.(clock := Seconds(10), armed := None, registered := false, msgPc := ToPop(Seconds(10), true))
  {
    hide Execute;
    run, s := Go(steps, s0, Tick(TimeSpec(10, 0)));
    run, s := Wakes(run, s, 10);
    run, s := Go(run, s, PollSend);
    run, s := ReceivesExpiry(run, s);
  }

  // ---------- two expiries in the queue ----------

  const THREE_STARTED: seq<Step> := [ClientStart(0, 10_000)] + [ClientStart(1, 20_000)] + [ClientStart(2, 9_000)]

  const TWO_EXPIRIES: seq<Step> :=
    THREE_STARTED + TO_HEAP + [Receive] + [Tick(TimeSpec(10, 0))] + WAKES_UP + TO_HEAP + [PollSend] +
    WAKES_UP + [PollSend] + [Receive] + FIRES + FIRES + [PopNext] + [MakeSysCall, MakeSysCall] + [Receive] + FIRES

  /** No timer is stopped by its client here.  The timer due at 9 reaches the heap after the poll thread
      has unregistered the kernel timer for the one due at 10, so both have an expiry queued; the first
      fires both, and the second takes the timer due at 20. */
  lemma SecondExpiryCallsEarly()
    ensures Execute(TWO_EXPIRIES).Some?
    ensures var s, t := Execute(TWO_EXPIRIES).value, Timer(1, 20);
            t in s.callbacks && t in s.called && s.called[t].at == Seconds(10) && TakenLate(s.called[t], t)
    ensures forall step :: step in TWO_EXPIRIES ==> !step.ClientStop?
  {
    hide Execute, Apply, Enabled, Pop, OutRanks;
    var t := Timer(1, 20);
    var run, s := TwoInHeap();
    run, s := BothExpiriesQueued(run, s);
    run, s := FirstExpiry(run, s);
    run, s := SecondExpiry(run, s);
  }

  /** Three timers started, the first two in the heap. */
  lemma TwoInHeap() returns (run: seq<Step>, s: State)
    ensures run == THREE_STARTED + TO_HEAP + [Receive] && Execute(run) == Some(s)
    ensures s.heap == Node(2, Timer(0, 10), Node(1, Timer(1, 20), Leaf, Leaf), Leaf)
    ensures s.queue == [MsgTimerPush(Timer(2, 9))] && s.pending == [] && s.msgPc.BetweenMsgs?
    ensures s.pollPc.Waiting? && s.registered && s.armed == Some(Seconds(10)) && s.clock == Seconds(0)
    ensures s.mTimer == map[0 := Timer(0, 10), 1 := Timer(1, 20), 2 := Timer(2, 9)]
    ensures s.mClient == map[Timer(0, 10) := 0, Timer(1, 20) := 1, Timer(2, 9) := 2]
  {
    hide Execute, Apply, Enabled, OutRanks, Push;
    NothingYet();
    var a, b, c := Timer(0, 10), Timer(1, 20), Timer(2, 9);
    run, s := Starts([], INIT, 0, 10_000, a);
    assert run == [ClientStart(0, 10_000)] && s.queue == [MsgTimerPush(a)];
    run, s := Starts(run, s, 1, 20_000, b);
    run, s := Starts(run, s, 2, 9_000, c);
    Dequeue(MsgTimerPush(a), MsgTimerPush(b), MsgTimerPush(c));
    run, s := PushesFirst(run, s, Timer(0, 10));
    run, s := PushesSecond(run, s);
  }

  lemma Dequeue(a: Msg, b: Msg, c: Msg)
    ensures ([a] + [b] + [c])[0] == a && ([a] + [b] + [c])[1..] == [b, c]
  {
  }

  lemma PushesSecond(steps: seq<Step>, s0: State) returns (run: seq<Step>, s: State)
    requires Execute(steps) == Some(s0) && s0.msgPc.BetweenMsgs? && s0.pending == []
    requires s0.heap == Node(1, Timer(0, 10), Leaf, Leaf)
    requires s0.queue == [MsgTimerPush(Timer(1, 20)), MsgTimerPush(Timer(2, 9))]
    ensures run == steps + [Receive] && Execute(run) == Some(s)
    ensures s == s0.(heap := Node(2, Timer(0, 10), Node(1, Timer(1, 20), Leaf, Leaf), Leaf),
                     queue := [MsgTimerPush(Timer(2, 9))])
  {
    hide Execute;
    run, s := Go(steps, s0, Receive);
  }

  /** The third timer reaches the heap between the poll thread's wake-up and its message. */
  lemma BothExpiriesQueued(steps: seq<Step>, s0: State) returns (run: seq<Step>, s: State)
    requires Execute(steps) == Some(s0)
    requires s0.heap == Node(2, Timer(0, 10), Node(1, Timer(1, 20), Leaf, Leaf), Leaf)
    requires s0.queue == [MsgTimerPush(Timer(2, 9))] && s0.pending == [] && s0.msgPc.BetweenMsgs?
    requires s0.pollPc.Waiting? && s0.registered && s0.armed == Some(Seconds(10)) && s0.clock == Seconds(0)
    ensures run == steps + [Tick(TimeSpec(10, 0))] + WAKES_UP + TO_HEAP + [PollSend] + WAKES_UP + [PollSend]
    ensures Execute(run) == Some(s)
    ensures s == s0.(clock := Seconds(10), armed := None, registered := false,
                     heap := Node(3, Timer(2, 9), Node(1, Timer(1, 20), Leaf, Leaf), Node(1, Timer(0, 10), Leaf, Leaf)),
                     queue := [MsgTimerExpire, MsgTimerExpire])
  {
    hide Execute;
    run, s := Go(steps, s0, Tick(TimeSpec(10, 0)));
    run, s := Wakes(run, s, 10);
    run, s := PushesThird(run, s);
    run, s := Go(run, s, PollSend);
    run, s := Wakes(run, s, 9);
    run, s := Go(run, s, PollSend);
  }

  lemma PushesThird(steps: seq<Step>, s0: State) returns (run: seq<Step>, s: State)
    requires Execute(steps) == Some(s0)
    requires s0.heap == Node(2, Timer(0, 10), Node(1, Timer(1, 20), Leaf, Leaf), Leaf)
    requires s0.queue == [MsgTimerPush(Timer(2, 9))] && s0.pending == [] && s0.msgPc.BetweenMsgs?
    ensures run == steps + TO_HEAP && Execute(run) == Some(s)
    ensures s == s0.(heap := Node(3, Timer(2, 9), Node(1, Timer(1, 20), Leaf, Leaf), Node(1, Timer(0, 10), Leaf, Leaf)),
                     queue := [], registered := true, armed := Some(Seconds(9)))
  {
    hide Execute;
    run, s := Go(steps, s0, Receive);
    run, s := SetsKernelTimer(run, s, Seconds(9));
  }

  /** The first expiry fires the timers due at 9 and at 10 and stops at the one due at 20. */
  lemma FirstExpiry(steps: seq<Step>, s0: State) returns (run: seq<Step>, s: State)
    requires Execute(steps) == Some(s0) && s0.clock == Seconds(10)
    requires s0.heap == Node(3, Timer(2, 9), Node(1, Timer(1, 20), Leaf, Leaf), Node(1, Timer(0, 10), Leaf, Leaf))
    requires s0.queue == [MsgTimerExpire, MsgTimerExpire] && s0.pending == [] && s0.msgPc.BetweenMsgs?
    requires s0.mTimer == map[0 := Timer(0, 10), 1 := Timer(1, 20), 2 := Timer(2, 9)]
    requires s0.mClient == map[Timer(0, 10) := 0, Timer(1, 20) := 1, Timer(2, 9) := 2]
    ensures run == steps + [Receive] + FIRES + FIRES + [PopNext]
    ensures Execute(run) == Some(s) && s.clock == Seconds(10)
    ensures s.heap == Node(1, Timer(1, 20), Leaf, Leaf) && s.queue != [] && s.queue[0] == MsgTimerExpire
    ensures s.msgPc.BetweenMsgs? && s.pending == [AddPoll, SetTime(Some(Seconds(20)))]
    ensures s.mTimer == map[1 := Timer(1, 20)] && s.mClient == map[Timer(1, 20) := 1]
  {
    hide Execute, Apply, Enabled, Pop, OutRanks;
    run, s := ReceivesExpiry(steps, s0);
    run, s := FiresBoth(run, s);
    PopsInOrder();
    run, s := FinishesExpiry(run, s);
  }

  lemma FiresBoth(steps: seq<Step>, s0: State) returns (run: seq<Step>, s: State)
    requires Execute(steps) == Some(s0) && s0.clock == Seconds(10) && s0.msgPc == ToPop(Seconds(10), true)
    requires s0.heap == Node(3, Timer(2, 9), Node(1, Timer(1, 20), Leaf, Leaf), Node(1, Timer(0, 10), Leaf, Leaf))
    requires s0.queue == [MsgTimerExpire] && s0.pending == []
    requires s0.mTimer == map[0 := Timer(0, 10), 1 := Timer(1, 20), 2 := Timer(2, 9)]
    requires s0.mClient == map[Timer(0, 10) := 0, Timer(1, 20) := 1, Timer(2, 9) := 2]
    ensures run == steps + FIRES + FIRES && Execute(run) == Some(s) && s.clock == Seconds(10)
    ensures s.msgPc == ToPop(Seconds(10), false) && s.heap == Node(1, Timer(1, 20), Leaf, Leaf)
    ensures s.pending == [] && s.queue != [] && s.queue[0] == MsgTimerExpire
    ensures s.mTimer == map[1 := Timer(1, 20)] && s.mClient == map[Timer(1, 20) := 1]
  {
    hide *;
    run, s := FiresThird(steps, s0);
    run, s := FiresFirst(run, s);
  }

  lemma FiresThird(steps: seq<Step>, s0: State) returns (run: seq<Step>, s: State)
    requires Execute(steps) == Some(s0) && s0.clock == Seconds(10) && s0.msgPc == ToPop(Seconds(10), true)
    requires s0.heap == Node(3, Timer(2, 9), Node(1, Timer(1, 20), Leaf, Leaf), Node(1, Timer(0, 10), Leaf, Leaf))
    requires s0.queue == [MsgTimerExpire] && s0.pending == []
    requires s0.mTimer == map[0 := Timer(0, 10), 1 := Timer(1, 20), 2 := Timer(2, 9)]
    requires s0.mClient == map[Timer(0, 10) := 0, Timer(1, 20) := 1, Timer(2, 9) := 2]
    ensures run == steps + FIRES && Execute(run) == Some(s) && s.clock == Seconds(10)
    ensures s.msgPc == ToPop(Seconds(10), false)
    ensures s.heap == Node(2, Timer(0, 10), Node(1, Timer(1, 20), Leaf, Leaf), Leaf)
    ensures s.pending == [] && s.queue != [] && s.queue[0] == MsgTimerExpire
    ensures s.mTimer == map[0 := Timer(0, 10), 1 := Timer(1, 20)]
    ensures s.mClient == map[Timer(0, 10) := 0, Timer(1, 20) := 1]
  {
    hide Execute, Apply, Enabled, Pop, OutRanks;
    PopsInOrder();
    run, s := Fires(steps, s0);
  }

  lemma FiresFirst(steps: seq<Step>, s0: State) returns (run: seq<Step>, s: State)
    requires Execute(steps) == Some(s0) && s0.clock == Seconds(10) && s0.msgPc == ToPop(Seconds(10), false)
    requires s0.heap == Node(2, Timer(0, 10), Node(1, Timer(1, 20), Leaf, Leaf), Leaf)
    requires s0.pending == [] && s0.queue != [] && s0.queue[0] == MsgTimerExpire
    requires s0.mTimer == map[0 := Timer(0, 10), 1 := Timer(1, 20)]
    requires s0.mClient == map[Timer(0, 10) := 0, Timer(1, 20) := 1]
    ensures run == steps + FIRES && Execute(run) == Some(s) && s.clock == Seconds(10)
    ensures s.msgPc == ToPop(Seconds(10), false) && s.heap == Node(1, Timer(1, 20), Leaf, Leaf)
    ensures s.pending == [] && s.queue != [] && s.queue[0] == MsgTimerExpire
    ensures s.mTimer == map[1 := Timer(1, 20)] && s.mClient == map[Timer(1, 20) := 1]
  {
    hide Execute, Apply, Enabled, Pop, OutRanks;
    PopsInOrder();
    run, s := Fires(steps, s0);
  }

  lemma PopsInOrder()
    ensures var a, b, c := Node(1, Timer(0, 10), Leaf, Leaf), Timer(2, 9), Node(1, Timer(1, 20), Leaf, Leaf);
            && Pop(Node(3, b, c, a), OutRanks) == Node(2, Timer(0, 10), c, Leaf)
            && Pop(Node(2, Timer(0, 10), c, Leaf), OutRanks) == c
            && !OutRanks(TimerDelegate(0, Seconds(10)), b) && !OutRanks(TimerDelegate(0, Seconds(10)), Timer(0, 10))
            && OutRanks(TimerDelegate(0, Seconds(10)), Timer(1, 20))
  {
  }

  /** The second expiry finds the timer due at 20 on top and takes it. */
  lemma SecondExpiry(steps: seq<Step>, s0: State) returns (run: seq<Step>, s: State)
    requires Execute(steps) == Some(s0) && s0.clock == Seconds(10)
    requires s0.heap == Node(1, Timer(1, 20), Leaf, Leaf) && s0.queue != [] && s0.queue[0] == MsgTimerExpire
    requires s0.msgPc.BetweenMsgs? && s0.pending == [AddPoll, SetTime(Some(Seconds(20)))]
    requires s0.mTimer == map[1 := Timer(1, 20)] && s0.mClient == map[Timer(1, 20) := 1]
    ensures run == steps + [MakeSysCall, MakeSysCall] + [Receive] + FIRES
    ensures Execute(run) == Some(s)
    ensures var t := Timer(1, 20);
            t in s.callbacks && t in s.called && s.called[t].at == Seconds(10) && TakenLate(s.called[t], t)
  {
    hide Execute;
    run, s := SetsKernelTimer(steps, s0, Seconds(20));
    run, s := ReceivesExpiry(run, s);
    PopsInOrder();
    run, s := Fires(run, s);
  }
}
