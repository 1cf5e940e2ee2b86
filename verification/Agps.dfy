/** The AGPS state machine object: handlers over a mutable state and subscriber list, with the
    loops of the original.  Each is proved to do what `AgpsModel.Step` says. */
module Agps {
  import opened AgpsModel
  import opened Options

  class AgpsStateMachine {
    var mState: AgpsState
    var mSubscriberList: seq<Subscriber>
    var mCurrentSubscriber: Subscriber
    ghost var Log: seq<Action>

    ghost function Machine(): AgpsModel.Machine
      reads this
    {
      AgpsModel.Machine(mState, mSubscriberList, Log)
    }

    constructor ()
      ensures Machine() == INIT
    {
      mState, mSubscriberList, mCurrentSubscriber := RELEASED, [], Subscriber(0, false, false);
      Log := [];
    }

    // ---------- the list ----------

    method AddSubscriber(s: Subscriber)
      modifies this`mSubscriberList, this`Log
      ensures Machine() == AgpsModel.AddSubscriber(old(Machine()), s)
    {
      var it := 0;
      while it < |mSubscriberList|
        invariant 0 <= it <= |mSubscriberList|
        invariant mSubscriberList == old(mSubscriberList) && Log == old(Log)
        invariant Present(mSubscriberList, s.connHandle) <==> Present(mSubscriberList[it..], s.connHandle)
      {
        if mSubscriberList[it].connHandle == s.connHandle {
          return;
        }
        it := it + 1;
      }
      mSubscriberList := mSubscriberList + [s];
      Log := Log + [Joined(s.connHandle)];
    }

    method DeleteSubscriber(handle: int)
      modifies this`mSubscriberList
      ensures mSubscriberList == Without(old(mSubscriberList), handle)
    {
      var it := 0;
      while it < |mSubscriberList|
        invariant 0 <= it <= |mSubscriberList|
        invariant mSubscriberList[..it] + Without(mSubscriberList[it..], handle) ==
                  Without(old(mSubscriberList), handle)
        decreases |mSubscriberList| - it
      {
        var rest := mSubscriberList[it + 1..];
        assert mSubscriberList[it..][1..] == rest;
        if mSubscriberList[it].connHandle == handle {
          assert [] + Without(rest, handle) == Without(rest, handle);
          mSubscriberList := mSubscriberList[..it] + rest;
          assert mSubscriberList[it..] == rest;
        } else {
          it := it + 1;
        }
      }
    }

    method AnyActiveSubscribers() returns (any: bool)
      ensures any <==> AnySelected(mSubscriberList, Active)
    {
      var it := 0;
      while it < |mSubscriberList|
        invariant 0 <= it <= |mSubscriberList|
        invariant AnySelected(mSubscriberList, Active) <==> AnySelected(mSubscriberList[it..], Active)
      {
        if !mSubscriberList[it].isInactive {
          return true;
        }
        it := it + 1;
      }
      return false;
    }

    method GetSubscriber(handle: int) returns (s: Option<Subscriber>)
      ensures s == if Present(mSubscriberList, handle) then Some(Find(mSubscriberList, handle)) else None
    {
      var it := 0;
      while it < |mSubscriberList|
        invariant 0 <= it <= |mSubscriberList|
        invariant Present(mSubscriberList, handle) <==> Present(mSubscriberList[it..], handle)
        invariant Present(mSubscriberList, handle) ==>
                  Find(mSubscriberList, handle) == Find(mSubscriberList[it..], handle)
      {
        if mSubscriberList[it].connHandle == handle {
          return Some(mSubscriberList[it]);
        }
        it := it + 1;
      }
      return None;
    }

    /** `mCurrentSubscriber->mIsInactive = true`, where the current subscriber is a list element. */
    method SetCurrentInactive()
      modifies this`mSubscriberList, this`mCurrentSubscriber
      ensures mSubscriberList == Deactivate(old(mSubscriberList), old(mCurrentSubscriber.connHandle))
    {
      hide Deactivate;
      mCurrentSubscriber := mCurrentSubscriber.(isInactive := true);
      ghost var subs, done, rest := mSubscriberList, [], mSubscriberList;
      var it := 0;
      while it < |mSubscriberList|
        invariant it == |done| && mSubscriberList == done + rest
        invariant mCurrentSubscriber.connHandle == old(mCurrentSubscriber.connHandle)
        invariant done + Deactivate(rest, mCurrentSubscriber.connHandle) ==
                  Deactivate(subs, mCurrentSubscriber.connHandle)
      {
        if mSubscriberList[it].connHandle == mCurrentSubscriber.connHandle {
          mSubscriberList := mSubscriberList[it := mSubscriberList[it].(isInactive := true)];
        }
        DeactivateStep(done, rest, mCurrentSubscriber.connHandle);
        done, rest := done + [mSubscriberList[it]], rest[1..];
        it := it + 1;
      }
      assert rest == [];
      DeactivateEnd(done, mCurrentSubscriber.connHandle);
    }

    // ---------- what is sent ----------

    method NotifyEventToSubscriber(message: Message, handle: int, deleteSubscriberPostNotify: bool)
      modifies this`mSubscriberList, this`Log
      ensures Log == old(Log) + [message.To(handle)]
      ensures mSubscriberList == if deleteSubscriberPostNotify then Without(old(mSubscriberList), handle)
                                 else old(mSubscriberList)
    {
      Log := Log + [message.To(handle)];
      if deleteSubscriberPostNotify {
        DeleteSubscriber(handle);
      }
    }

    method NotifyAllSubscribers(message: Message, deleteSubscriberPostNotify: bool, to: Audience)
      modifies this`mSubscriberList, this`Log
      ensures Log == old(Log) + Notices(old(mSubscriberList), message, to)
      ensures mSubscriberList == if deleteSubscriberPostNotify then Unreached(old(mSubscriberList), to)
                                 else old(mSubscriberList)
    {
      hide Notices, Unreached;
      ghost var subs, kept, rest := mSubscriberList, [], mSubscriberList;
      var it := 0;
      while it < |mSubscriberList|
        invariant it == |kept| && mSubscriberList == kept + rest
        invariant Log + Notices(rest, message, to) == old(Log) + Notices(subs, message, to)
        invariant deleteSubscriberPostNotify ==> kept + Unreached(rest, to) == Unreached(subs, to)
        invariant !deleteSubscriberPostNotify ==> mSubscriberList == subs
        decreases |rest|
      {
        var s := mSubscriberList[it];
        LogAfterNotices(Log, rest, message, to);
        UnreachedStep(kept, rest, to);
        rest := rest[1..];
        if to.All? || (to.Inactive? && s.isInactive) || (to.Active? && !s.isInactive) {
          NotifyEventToSubscriber(message, s.connHandle, false);
          if deleteSubscriberPostNotify {
            mSubscriberList := mSubscriberList[..it] + mSubscriberList[it + 1..];
          } else {
            it, kept := it + 1, kept + [s];
          }
        } else {
          it, kept := it + 1, kept + [s];
        }
      }
      LogAfterNotices(Log, [], message, to);
      UnreachedEnd(kept, to);
    }

    method RequestOrReleaseDataConn(request: bool)
      modifies this`Log
      ensures Log == old(Log) + [if request then RequestDataConn else ReleaseDataConn]
    {
      Log := Log + [if request then RequestDataConn else ReleaseDataConn];
    }

    method DropAllSubscribers()
      modifies this`mSubscriberList, this`Log
      ensures mSubscriberList == []
      ensures Log == old(Log) + Notices(old(mSubscriberList), Drop, All)
    {
      hide Notices;
      LogAfterNotices(Log, [], Drop, All);
      while mSubscriberList != []
        invariant Log + Notices(mSubscriberList, Drop, All) == old(Log) + Notices(old(mSubscriberList), Drop, All)
        decreases |mSubscriberList|
      {
        LogAfterNotices(Log, mSubscriberList, Drop, All);
        Log := Log + [Dropped(mSubscriberList[0].connHandle)];
        mSubscriberList := mSubscriberList[1..];
      }
    }

    // ---------- the handlers ----------

    method ProcessAgpsEventSubscribe()
      modifies this`mState, this`mSubscriberList, this`Log
      ensures Machine() == Subscribe(old(Machine()), mCurrentSubscriber)
    {
      match mState {
        case RELEASED =>
          AddSubscriber(mCurrentSubscriber);
          RequestOrReleaseDataConn(true);
          mState := PENDING;
        case PENDING =>
          AddSubscriber(mCurrentSubscriber);
        case ACQUIRED =>
          NotifyEventToSubscriber(OpenOk, mCurrentSubscriber.connHandle, false);
          AddSubscriber(mCurrentSubscriber);
        case RELEASING =>
          AddSubscriber(mCurrentSubscriber);
      }
    }

    method ProcessAgpsEventUnsubscribe()
      modifies this
      ensures Machine() == Unsubscribe(old(Machine()), old(mCurrentSubscriber))
    {
      match mState {
        case RELEASED =>
          NotifyEventToSubscriber(CloseOk, mCurrentSubscriber.connHandle, false);
        case RELEASING =>
          LeaveList();
          if mSubscriberList == [] {
            mState := RELEASED;
          }
        case _ =>
          LeaveList();
          if mSubscriberList == [] {
            mState := RELEASED;
            RequestOrReleaseDataConn(false);
          } else {
            var any := AnyActiveSubscribers();
            if !any {
              mState := RELEASING;
              RequestOrReleaseDataConn(false);
            }
          }
      }
    }

    /** The part the PENDING, ACQUIRED and RELEASING cases share. */
    method LeaveList()
      modifies this`mSubscriberList, this`mCurrentSubscriber, this`Log
      ensures Machine() == Leave(old(Machine()), old(mCurrentSubscriber))
    {
      if mCurrentSubscriber.waitForCloseComplete {
        SetCurrentInactive();
      } else {
        NotifyEventToSubscriber(CloseOk, mCurrentSubscriber.connHandle, true);
      }
    }

    method ProcessAgpsEventGranted()
      modifies this`mState, this`mSubscriberList, this`Log
      ensures Machine() == Handle(old(Machine()), Granted)
    {
      if mState == PENDING {
        mState := ACQUIRED;
        NotifyAllSubscribers(OpenOk, false, Active);
      }
    }

    /** What RELEASED and DENIED do while releasing. */
    method NotifyInactiveAndReconnect()
      modifies this`mState, this`mSubscriberList, this`Log
      ensures Machine() == FinishReleasing(old(Machine()))
    {
      NotifyAllSubscribers(CloseOk, true, Inactive);
      var any := AnyActiveSubscribers();
      if any {
        mState := PENDING;
        RequestOrReleaseDataConn(true);
      } else {
        mState := RELEASED;
      }
    }

    method ProcessAgpsEventReleased()
      modifies this`mState, this`mSubscriberList, this`Log
      ensures Machine() == Handle(old(Machine()), Released)
    {
      match mState {
        case ACQUIRED =>
          mState := RELEASED;
          NotifyAllSubscribers(CloseOk, true, All);
        case RELEASING =>
          NotifyInactiveAndReconnect();
        case _ =>
      }
    }

    method ProcessAgpsEventDenied()
      modifies this`mState, this`mSubscriberList, this`Log
      ensures Machine() == Handle(old(Machine()), Denied)
    {
      match mState {
        case PENDING =>
          mState := RELEASED;
          NotifyAllSubscribers(OpenFailed, true, All);
        case RELEASING =>
          NotifyInactiveAndReconnect();
        case _ =>
      }
    }

    // ---------- what the manager calls ----------

    /** One event, from an ATL call, a report of the framework, or a modem restart. */
    method Deliver(e: Event)
      modifies this
      ensures Machine() == Step(old(Machine()), e)
    {
      Log := Log + [Received(e)];
      match e {
        case RequestAtl(handle, wait) =>
          mCurrentSubscriber := Subscriber(handle, wait, false);
          ProcessAgpsEventSubscribe();
        case ReleaseAtl(handle) =>
          var found := GetSubscriber(handle);
          if found.None? {
            Log := Log + [AtlCloseStatus(handle, false)];
          } else {
            mCurrentSubscriber := found.value;
            ProcessAgpsEventUnsubscribe();
          }
        case Granted => ProcessAgpsEventGranted();
        case Released => ProcessAgpsEventReleased();
        case Denied => ProcessAgpsEventDenied();
        case ModemSsr => DropAllSubscribers();
      }
    }
  }

  lemma DeactivateStep(done: seq<Subscriber>, rest: seq<Subscriber>, handle: int)
    requires rest != []
    ensures done + Deactivate(rest, handle) ==
            (done + [if rest[0].connHandle == handle then rest[0].(isInactive := true) else rest[0]]) +
            Deactivate(rest[1..], handle)
  {
    Regroup(done, [if rest[0].connHandle == handle then rest[0].(isInactive := true) else rest[0]],
            Deactivate(rest[1..], handle));
  }

  lemma Regroup(a: seq<Subscriber>, b: seq<Subscriber>, c: seq<Subscriber>)
    ensures (a + b) + c == a + (b + c)
  {
  }

  lemma DeactivateEnd(done: seq<Subscriber>, handle: int)
    ensures done + Deactivate([], handle) == done
  {
  }

  lemma UnreachedEnd(kept: seq<Subscriber>, to: Audience)
    ensures kept + Unreached([], to) == kept
  {
  }

  lemma UnreachedStep(kept: seq<Subscriber>, rest: seq<Subscriber>, to: Audience)
    requires rest != []
    ensures kept + Unreached(rest, to) ==
            kept + (if Selected(rest[0], to) then [] else [rest[0]]) + Unreached(rest[1..], to)
  {
    hide Selected;
    Regroup(kept, if Selected(rest[0], to) then [] else [rest[0]], Unreached(rest[1..], to));
  }

  /** The object run over any events reaches the state `Run` says, so everything proved of `Run`
      holds of it. */
  method RunMachine(events: seq<Event>) returns (sm: AgpsStateMachine)
    ensures fresh(sm) && sm.Machine() == Run(events)
    ensures Consistent(sm.Machine()) && PhaseOf(sm.Log) == PhaseIn(sm.mState)
  {
    sm := new AgpsStateMachine();
    for i := 0 to |events|
      invariant fresh(sm) && sm.Machine() == Run(events[..i])
    {
      sm.Deliver(events[i]);
      assert events[..i + 1][..i] == events[..i];
    }
    assert events[..|events|] == events;
    AlwaysConsistent(events);
    ConnectionFollowsState(events);
  }
}
