/** What the message task does about the kernel timer, when an expiry ends, and that the service never
    gets stuck: said of the timers in the heap rather than of its shape. */
module TimerEffects {
  import opened HeapTree
  import opened LocTimer
  import opened Options
  import opened TimerProtocol

  ghost predicate IsEarliest(t: TimerDelegate, all: multiset<TimerDelegate>) {
    t in all && forall y :: y in all ==> !Earlier(y.futureTime, t.futureTime)
  }

  lemma TopIsEarliest(heap: Tree<TimerDelegate>)
    requires heap.Node? && Ordered(heap, OutRanks)
    ensures IsEarliest(heap.data, Elements(heap))
  {
    TimersArePreordered();
    assert heap.data in Elements(heap);
    forall y | y in Elements(heap) ensures !Earlier(y.futureTime, heap.data.futureTime) {
      TopIsMaximal(heap, y, OutRanks);
      OutRanksIsEarlier(y, heap.data);
    }
  }

  /** The kernel timer is registered first and then set. */
  function Sets(t: TimerDelegate): seq<SysCall> {
    [AddPoll, SetTime(Some(t.futureTime))]
  }

  /** A new timer makes for system calls exactly if it is earlier than all others, and they set its time. */
  lemma PushSetsKernelIff(s: State, timer: TimerDelegate)
    requires Ordered(s.heap, OutRanks) && timer !in Elements(s.heap)
    ensures Handle(s, MsgTimerPush(timer)).pending ==
            if forall y :: y in Elements(s.heap) ==> Earlier(timer.futureTime, y.futureTime) then Sets(timer) else []
  {
    hide Ordered, OutRanks, Push, Elements, Earlier;
    TimersArePreordered();
    PushKeepsHeap(s.heap, timer, OutRanks);
    if s.heap.Node? {
      TopIsEarliest(s.heap);
      OutRanksIsEarlier(timer, s.heap.data);
      forall y | y in Elements(s.heap) && Earlier(timer.futureTime, s.heap.data.futureTime)
        ensures Earlier(timer.futureTime, y.futureTime)
      {
        EarlierThanAll(timer.futureTime, s.heap.data.futureTime, y.futureTime);
      }
    } else {
      LeafHasNone();
    }
  }

  lemma LeafHasNone()
    ensures Elements<TimerDelegate>(Leaf) == multiset{}
  {
  }

  lemma EarlierThanAll(a: Time, b: Time, c: Time)
    requires Earlier(a, b) && !Earlier(c, b)
    ensures Earlier(a, c)
  {
  }

  /** A removal makes for system calls exactly if it takes out the top and others are left, and they set the
      time of the earliest of those. */
  lemma RemoveSetsKernelIff(s: State, timer: TimerDelegate)
    requires Ordered(s.heap, OutRanks)
    ensures var pending, rest := Handle(s, MsgTimerRemove(timer)).pending, Elements(s.heap) - multiset{timer};
            if s.heap.Node? && s.heap.data == timer && rest != multiset{}
            then exists y :: IsEarliest(y, rest) && pending == Sets(y)
            else pending == []
  {
    hide Ordered, OutRanks, Remove, Finds, Elements, IsEarliest, UpdateSoonestTime;
    var left := Remove(s.heap, timer, OutRanks);
    RemovalCalls(s, timer);
    ElementsAfterRemove(s.heap, timer);
    LeafHasNone();
    if left.Node? {
      TimersArePreordered();
      RemoveKeepsHeap(s.heap, timer, OutRanks);
      HasTop(left);
      TopIsEarliest(left);
      EarliestIs(left);
    }
  }

  lemma EarliestIs(heap: Tree<TimerDelegate>)
    requires heap.Node?
    ensures UpdateSoonestTime(None, heap) == Sets(heap.data)
  {
  }

  /** The removal looks at the kernel timer exactly if the top was taken out, or there was none. */
  lemma RemovalCalls(s: State, timer: TimerDelegate)
    requires Ordered(s.heap, OutRanks)
    ensures Handle(s, MsgTimerRemove(timer)).pending ==
            if s.heap.Node? && s.heap.data == timer then UpdateSoonestTime(None, Remove(s.heap, timer, OutRanks))
            else []
    ensures UpdateSoonestTime(None, Leaf) == []
  {
    hide Ordered, OutRanks, Remove, Finds, Elements;
    TimersArePreordered();
    FindsIffPresent(s.heap, timer, OutRanks);
    RemoveNothing(timer, OutRanks);
    LeafHasNone();
    if s.heap.Node? { HasTop(s.heap); }
  }

  lemma HasTop(heap: Tree<TimerDelegate>)
    requires heap.Node?
    ensures heap.data in Elements(heap) && Elements(heap) != multiset{}
  {
  }

  /** An expiry ends exactly if the heap is empty, or this is not its first pop and nothing is due; then it
      sets the kernel timer to the earliest timer left, if any.  Otherwise it takes the earliest. */
  lemma ExpiryEndsIff(s: State, now: Time, first: bool)
    requires Ordered(s.heap, OutRanks) && s.msgPc.ToPop?
    ensures var after := PopOrFinish(s, now, first);
            && (after.msgPc.BetweenMsgs? <==>
                  Elements(s.heap) == multiset{} || (!first && !SomeDue(Elements(s.heap), now)))
            && (after.msgPc.BetweenMsgs? ==>
                  && after.heap == s.heap
                  && if Elements(s.heap) == multiset{} then after.pending == []
                     else exists y :: IsEarliest(y, Elements(s.heap)) && after.pending == Sets(y))
            && (!after.msgPc.BetweenMsgs? ==>
                  && after.msgPc.Popped? && IsEarliest(after.msgPc.timer, Elements(s.heap))
                  && Elements(after.heap) == Elements(s.heap) - multiset{after.msgPc.timer})
  {
    hide Ordered, OutRanks, Pop, Elements, IsEarliest, SomeDue;
    LeafHasNone();
    if s.heap.Node? {
      HasTop(s.heap);
      TopIsEarliest(s.heap);
      TopDueIffSomeDue(s.heap, now);
      OutRanksIsEarlier(TimerDelegate(0, now), s.heap.data);
      PopTakesTop(s.heap, OutRanks);
    }
  }

  /** What the poll thread does on waking, if nothing comes between: the kernel timer is disarmed and
      unregistered, and one expiry is queued. */
  lemma PollRaisesExpiry(s: State)
    requires Enabled(s, PollWake)
    ensures var disarm := Apply(s, PollWake);
            && Enabled(disarm, PollDisarm)
            && var unpoll := Apply(disarm, PollDisarm);
               && Enabled(unpoll, PollUnpoll)
               && var send := Apply(unpoll, PollUnpoll);
                  && Enabled(send, PollSend)
                  && Apply(send, PollSend) ==
                     s.(armed := None, registered := false, queue := s.queue + [MsgTimerExpire])
  {
  }

  /** A step of the message task or of the poll thread that does not wait for time to pass or for a client. */
  predicate IsInternal(step: Step) {
    !step.Tick? && !step.ClientStart? && !step.ClientStop? && !step.PollWake?
  }

  /** The service never gets stuck: unless everything is at rest, one of its own steps can be taken. */
  lemma NeverStuck(s: State)
    requires !Quiescent(s)
    ensures exists step :: IsInternal(step) && Enabled(s, step)
  {
    var step :=
      if s.pending != [] then MakeSysCall
      else if s.pollPc.ToDisarm? then PollDisarm
      else if s.pollPc.ToUnpoll? then PollUnpoll
      else if s.pollPc.ToSend? then PollSend
      else
        match s.msgPc
        case BetweenMsgs => Receive
        case ToPop(_, _) => PopNext
        case Popped(_, _, _, _) => ReadClient
        case Stopping(_, _, _, _, _, _) => StopAndCallBack;
    assert IsInternal(step) && Enabled(s, step);
  }

  /** At rest, a running timer whose time has come makes the poll thread wake. */
  lemma DueTimerWakes(steps: seq<Step>, t: TimerDelegate)
    requires Execute(steps).Some? && Quiescent(Execute(steps).value)
    requires t in Execute(steps).value.mClient && Due(t, Execute(steps).value.clock)
    ensures Enabled(Execute(steps).value, PollWake)
  {
    hide Execute;
    NoTimerLost(steps);
  }
}
