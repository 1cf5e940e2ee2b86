/** `SystemStatusOsObserver` as an object: its public operations post messages to a FIFO task, whose
    handlers update the two subscription maps and the cache in place. */
module OsObserver {
  import opened Options
  import opened SetMap
  import opened Subscriptions
  import opened SubscriptionEffects

  function ItemSet(l: seq<DataItemId>): (items: set<DataItemId>)
    ensures forall d :: d in items <==> d in l
  {
    set d | d in l
  }

  /** The objects made for the items of `l`; the vector starts with as many null entries. */
  function Received(l: seq<DataItem>): seq<Option<DataItem>> {
    seq(|l|, _ => None) + Created(l)
  }

  function Created(l: seq<DataItem>): seq<Option<DataItem>> {
    if l == [] then [] else Created(l[..|l| - 1]) + if l[|l| - 1].created then [Some(l[|l| - 1])] else []
  }

  /** What a list of items makes known of `d`, given what was known before: the value of the last one that
      an object was made for and that takes effect. */
  function KnownAfter(known: Option<Value>, l: seq<DataItem>, d: DataItemId): Option<Value> {
    if l == [] then known
    else
      var earlier, item := KnownAfter(known, l[..|l| - 1], d), l[|l| - 1];
      if item.created && TakesEffect(earlier.Some?, Some(item), d) then Some(item.value) else earlier
  }

  /** Posting a list of items has exactly that effect: the null entries ahead of them have none. */
  lemma {:induction false} ReceivedHasEffect(stream: seq<Option<DataItem>>, l: seq<DataItem>, d: DataItemId)
    ensures Latest(stream + Received(l), d) == KnownAfter(Latest(stream, d), l, d)
  {
    NullsHaveNone(stream, |l|, d);
    CreatedHasEffect(stream + seq(|l|, _ => None), l, d);
    assert stream + Received(l) == stream + seq(|l|, _ => None) + Created(l);
  }

  lemma {:induction false} NullsHaveNone(stream: seq<Option<DataItem>>, n: nat, d: DataItemId)
    ensures Latest(stream + seq(n, _ => None), d) == Latest(stream, d)
  {
    var nulls: seq<Option<DataItem>> := seq(n, _ => None);
    if n == 0 {
      assert stream + nulls == stream;
    } else {
      var fewer: seq<Option<DataItem>> := seq(n - 1, _ => None);
      NullsHaveNone(stream, n - 1, d);
      assert stream + nulls == stream + fewer + [None];
      LatestAfter(stream + fewer, None, d);
    }
  }

  lemma {:induction false} CreatedHasEffect(stream: seq<Option<DataItem>>, l: seq<DataItem>, d: DataItemId)
    ensures Latest(stream + Created(l), d) == KnownAfter(Latest(stream, d), l, d)
  {
    if l == [] {
      assert stream + Created(l) == stream;
    } else {
      var front, item := l[..|l| - 1], l[|l| - 1];
      CreatedHasEffect(stream, front, d);
      if item.created {
        assert stream + Created(l) == stream + Created(front) + [Some(item)];
        LatestAfter(stream + Created(front), Some(item), d);
      } else {
        assert stream + Created(l) == stream + Created(front);
      }
    }
  }

  class SystemStatusOsObserver {
    const mClientToDataItems: LocUnorderedSetMap<Client, DataItemId>
    const mDataItemToClients: LocUnorderedSetMap<DataItemId, Client>
    var mSubscriptionObj: Option<SubscriptionObj>
    var mDataItemCache: map<DataItemId, Value>
    var mMsgTask: seq<Message>
    var calls: seq<Call>
    var notices: seq<Notice>

    ghost predicate Valid()
      reads this
    {
      mClientToDataItems != mDataItemToClients
    }

    ghost function View(): State
      reads this, mClientToDataItems, mDataItemToClients
    {
      State(mClientToDataItems.mMap, mDataItemToClients.mMap, mSubscriptionObj, mDataItemCache, calls, notices)
    }

    constructor ()
      ensures Valid() && fresh(mClientToDataItems) && fresh(mDataItemToClients)
      ensures View() == START && mMsgTask == []
    {
      mClientToDataItems := new LocUnorderedSetMap();
      mDataItemToClients := new LocUnorderedSetMap();
      mSubscriptionObj, mDataItemCache, mMsgTask, calls, notices := None, map[], [], [], [];
    }

    // ---------------------------------------------------------------- the public operations

    method SetSubscriptionObj(subscriptionObj: Option<SubscriptionObj>)
      modifies this`mMsgTask
      ensures mMsgTask == old(mMsgTask) + if subscriptionObj.None? then [] else [SetSubsObj(subscriptionObj.value)]
    {
      if subscriptionObj.Some? {
        mMsgTask := mMsgTask + [SetSubsObj(subscriptionObj.value)];
      }
    }

    method Subscribe(l: seq<DataItemId>, client: Option<Client>, toRequestData: bool)
      modifies this`mMsgTask
      ensures mMsgTask == old(mMsgTask) +
                          if l == [] || client.None? then []
                          else [SubscribeReq(client.value, ItemSet(l), toRequestData)]
    {
      if l != [] && client.Some? {
        mMsgTask := mMsgTask + [SubscribeReq(client.value, ItemSet(l), toRequestData)];
      }
    }

    method Unsubscribe(l: seq<DataItemId>, client: Option<Client>)
      modifies this`mMsgTask
      ensures mMsgTask == old(mMsgTask) +
                          if l == [] || client.None? then [] else [UnsubscribeReq(client.value, ItemSet(l))]
    {
      if l != [] && client.Some? {
        mMsgTask := mMsgTask + [UnsubscribeReq(client.value, ItemSet(l))];
      }
    }

    method UnsubscribeAll(client: Option<Client>)
      modifies this`mMsgTask
      ensures mMsgTask == old(mMsgTask) + if client.None? then [] else [UnsubscribeAllReq(client.value)]
    {
      if client.Some? {
        mMsgTask := mMsgTask + [UnsubscribeAllReq(client.value)];
      }
    }

    method Notify(dlist: seq<DataItem>)
      modifies this`mMsgTask
      ensures mMsgTask == old(mMsgTask) + if dlist == [] then [] else [NotifyReq(Received(dlist))]
    {
      if dlist != [] {
        var dataItemVec: seq<Option<DataItem>> := seq(|dlist|, _ => None);
        for i := 0 to |dlist|
          invariant dataItemVec == seq(|dlist|, _ => None) + Created(dlist[..i])
        {
          assert dlist[..i + 1][..i] == dlist[..i];
          if dlist[i].created {
            dataItemVec := dataItemVec + [Some(dlist[i])];
          }
        }
        assert dlist[..|dlist|] == dlist;
        mMsgTask := mMsgTask + [NotifyReq(dataItemVec)];
      }
    }

    // ---------------------------------------------------------------- the message handlers

    /** The message task takes its first message and handles it. */
    method RunTask()
      requires Valid() && mMsgTask != []
      modifies this, mClientToDataItems, mDataItemToClients
      ensures Valid() && mMsgTask == old(mMsgTask)[1..]
      ensures Step(old(View()), old(mMsgTask)[0], View())
    {
      var m := mMsgTask[0];
      mMsgTask := mMsgTask[1..];
      match m {
        case SetSubsObj(obj) => ProcSetSubsObj(obj);
        case SubscribeReq(client, items, toRequestData) => ProcSubscribe(client, items, toRequestData);
        case UnsubscribeReq(client, items) => ProcUnsubscribe(client, items);
        case UnsubscribeAllReq(client) => ProcUnsubscribeAll(client);
        case NotifyReq(received) => ProcNotify(received);
      }
    }

    method ProcSetSubsObj(obj: SubscriptionObj)
      requires Valid()
      modifies this`mSubscriptionObj, this`calls
      ensures Valid() && Step(old(View()), SetSubsObj(obj), View())
    {
      mSubscriptionObj := Some(obj);
      if mDataItemToClients.mMap != map[] {
        var dis := mDataItemToClients.mMap.Keys;
        var subscribeCall, requestCall := Call.Subscribe(obj, dis), RequestData(obj, dis);
        calls := calls + [subscribeCall];
        calls := calls + [requestCall];
      }
    }

    method ProcSubscribe(client: Client, items: set<DataItemId>, toRequestData: bool)
      requires Valid()
      modifies this`calls, this`notices, mClientToDataItems, mDataItemToClients
      ensures Valid() && Step(old(View()), SubscribeReq(client, items, toRequestData), View())
    {
      hide Added, CachedNotice;
      var dataItemsToSubscribe := mDataItemToClients.AddAll(items, {client});
      var _ := mClientToDataItems.Add(client, items);
      SendCachedDataItems(items, client);
      if mSubscriptionObj.Some? && dataItemsToSubscribe != {} {
        if toRequestData {
          calls := calls + [RequestData(mSubscriptionObj.value, dataItemsToSubscribe)];
        } else {
          calls := calls + [Call.Subscribe(mSubscriptionObj.value, dataItemsToSubscribe)];
        }
      }
    }

    method ProcUnsubscribe(client: Client, items: set<DataItemId>)
      requires Valid()
      modifies this`calls, mClientToDataItems, mDataItemToClients
      ensures Valid() && Step(old(View()), UnsubscribeReq(client, items), View())
    {
      hide Trimmed;
      ghost var was := mClientToDataItems.mMap;
      var _, dataItemsUnusedByClient := mClientToDataItems.TrimOrRemove({client}, items);
      GoneFromOne(was, client, items, dataItemsUnusedByClient);
      var dataItemsToUnsubscribe, _ := mDataItemToClients.TrimOrRemove(dataItemsUnusedByClient, {client});
      if mSubscriptionObj.Some? && dataItemsToUnsubscribe != {} {
        calls := calls + [Call.Unsubscribe(mSubscriptionObj.value, dataItemsToUnsubscribe)];
      }
    }

    method ProcUnsubscribeAll(client: Client)
      requires Valid()
      modifies this`calls, mClientToDataItems, mDataItemToClients
      ensures Valid() && Step(old(View()), UnsubscribeAllReq(client), View())
    {
      hide Trimmed;
      var diByClient := mClientToDataItems.GetValSet(client);
      if diByClient != {} {
        var _ := mClientToDataItems.Remove(client);
        var dataItemsToUnsubscribe, _ := mDataItemToClients.TrimOrRemove(diByClient, {client});
        if dataItemsToUnsubscribe != {} && mSubscriptionObj.Some? {
          calls := calls + [Call.Unsubscribe(mSubscriptionObj.value, dataItemsToUnsubscribe)];
        }
      } else {
        TrimmedNothing(mDataItemToClients.mMap, {client});
      }
    }

    /** Updates the cache with one item; reports whether the cached item is new or changed. */
    method UpdateCache(item: Option<DataItem>) returns (dataItemUpdated: bool)
      modifies this`mDataItemCache
      ensures dataItemUpdated == IsUpdate(old(mDataItemCache), item)
      ensures dataItemUpdated <==> item.Some? && TakesEffect(item.value.id in old(mDataItemCache), item, item.value.id)
      ensures mDataItemCache == if dataItemUpdated then old(mDataItemCache)[item.value.id := item.value.value]
                                else old(mDataItemCache)
    {
      dataItemUpdated := false;
      if item.Some? && item.value.handled {
        var d := item.value;
        if d.id !in mDataItemCache {
          if d.stored {
            mDataItemCache := mDataItemCache[d.id := d.value];
            dataItemUpdated := true;
          }
        } else if d.copied {
          mDataItemCache := mDataItemCache[d.id := d.value];
          dataItemUpdated := true;
        }
      }
    }

    /** Sends the client what the cache has of `ids`, unless that is nothing. */
    method SendCachedDataItems(ids: set<DataItemId>, to: Client)
      modifies this`notices
      ensures notices == old(notices) + CachedNotice(mDataItemCache, ids, to)
    {
      var dataItems: map<DataItemId, Value>, rest := map[], ids;
      while rest != {}
        invariant rest <= ids && dataItems == Restrict(mDataItemCache, ids - rest)
        decreases |rest|
        modifies {}
      {
        var each :| each in rest;
        rest := rest - {each};
        if each in mDataItemCache {
          dataItems := dataItems[each := mDataItemCache[each]];
        }
      }
      assert ids - {} == ids;
      if dataItems != map[] {
        notices := notices + [Notice(to, dataItems)];
      }
    }

    method ProcNotify(received: seq<Option<DataItem>>)
      requires Valid()
      modifies this`mDataItemCache, this`notices
      ensures Valid() && Step(old(View()), NotifyReq(received), View())
    {
      ghost var s := View();
      var dataItemIdsToBeSent := UpdateAll(received);
      var clientSet := SubscribersOf(dataItemIdsToBeSent);
      assert AreClientsOf(s, dataItemIdsToBeSent, clientSet);
      NotifyAll(dataItemIdsToBeSent, clientSet);
      assert Delivered(s, mDataItemCache, dataItemIdsToBeSent, clientSet, notices[|s.notices|..]);
    }

    method UpdateAll(received: seq<Option<DataItem>>) returns (dataItemIdsToBeSent: set<DataItemId>)
      modifies this`mDataItemCache
      ensures mDataItemCache == CacheAfter(old(mDataItemCache), received)
      ensures dataItemIdsToBeSent == Updated(old(mDataItemCache), received)
    {
      dataItemIdsToBeSent := {};
      for i := 0 to |received|
        invariant mDataItemCache == CacheAfter(old(mDataItemCache), received[..i])
        invariant dataItemIdsToBeSent == Updated(old(mDataItemCache), received[..i])
      {
        assert received[..i + 1][..i] == received[..i];
        var updated := UpdateCache(received[i]);
        if updated {
          dataItemIdsToBeSent := dataItemIdsToBeSent + {received[i].value.id};
        }
      }
      assert received[..|received|] == received;
    }

    /** The clients that have any of `updated`, found through the item-to-clients map. */
    method SubscribersOf(updated: set<DataItemId>) returns (clientSet: set<Client>)
      ensures AreClientsOf(View(), updated, clientSet)
    {
      clientSet := {};
      var rest := updated;
      while rest != {}
        invariant rest <= updated && AreClientsOf(View(), updated - rest, clientSet)
        decreases |rest|
      {
        var each :| each in rest;
        ClientsOfOneMore(View(), updated - rest, each, clientSet);
        assert updated - rest + {each} == updated - (rest - {each});
        rest := rest - {each};
        if each in mDataItemToClients.mMap {
          clientSet := clientSet + mDataItemToClients.mMap[each];
        }
      }
      assert updated - {} == updated;
    }

    method OnlyUpdated(ids: set<DataItemId>, updated: set<DataItemId>) returns (kept: set<DataItemId>)
      ensures kept == ids * updated
    {
      var rest := ids;
      kept := ids;
      while rest != {}
        invariant rest <= ids && kept == ids * updated + rest
        decreases |rest|
      {
        var id :| id in rest;
        rest := rest - {id};
        if id !in updated {
          kept := kept - {id};
        }
      }
    }

    /** Sends each of the clients its updated items, found through the client-to-items map. */
    method NotifyAll(updated: set<DataItemId>, clientSet: set<Client>)
      modifies this`notices
      ensures old(notices) <= notices
      ensures Delivered(old(View()), mDataItemCache, updated, clientSet, notices[|old(notices)|..])
    {
      hide Delivered, CachedNotice;
      ghost var start, sent, done: set<Client> := View(), [], {};
      var rest := clientSet;
      DeliveredNothing(start, mDataItemCache, updated);
      while rest != {}
        invariant rest !! done && rest + done == clientSet
        invariant View() == start.(notices := start.notices + sent)
        invariant Delivered(start, mDataItemCache, updated, done, sent)
        decreases |rest|
      {
        var client :| client in rest;
        rest := rest - {client};
        var dataItemIdsForThisClient := mClientToDataItems.GetValSet(client);
        dataItemIdsForThisClient := OnlyUpdated(dataItemIdsForThisClient, updated);
        SendCachedDataItems(dataItemIdsForThisClient, client);
        ghost var more := CachedNotice(mDataItemCache, dataItemIdsForThisClient, client);
        DeliveredOneMore(start, mDataItemCache, updated, done, client, sent);
        assert start.notices + sent + more == start.notices + (sent + more);
        sent, done := sent + more, done + {client};
      }
      assert done == clientSet;
      assert notices[|start.notices|..] == sent;
    }
  }

  /** The object run over any messages goes through the states of a run, so everything proved of runs
      holds of it. */
  method RunObserver(messages: seq<Message>) returns (o: SystemStatusOsObserver, ghost states: seq<State>)
    ensures fresh(o) && o.Valid()
    ensures IsRun(states, messages) && o.View() == states[|messages|]
    ensures Inverse(o.View()) && UpToDate(o.View())
    ensures AlwaysInStep(states, messages) <==> GivenClean(messages)
  {
    hide Step, Inverse, UpToDate, GivenClean, AlwaysInStep;
    o := new SystemStatusOsObserver();
    states := [START];
    o.mMsgTask := messages;
    for i := 0 to |messages|
      invariant fresh(o) && fresh(o.mClientToDataItems) && fresh(o.mDataItemToClients) && o.Valid()
      invariant o.mMsgTask == messages[i..]
      invariant |states| == i + 1 && states[0] == START && states[i] == o.View()
      invariant forall j :: 0 <= j < i ==> Step(states[j], messages[j], states[j + 1])
    {
      o.RunTask();
      states := states + [o.View()];
    }
    IndexHoldsTheSubscriptions(states, messages);
    ClientsAreUpToDate(states, messages);
    FrameworkHoldsWhatIsWantedIff(states, messages);
  }

  lemma GoneFromOne(before: map<Client, set<DataItemId>>, client: Client, items: set<DataItemId>, gone: set<DataItemId>)
    requires Gone(before, {client}, items, gone)
    ensures gone == ItemsOf(before, client) * items
  {
    forall d ensures d in gone <==> d in ItemsOf(before, client) * items {
      if d in ItemsOf(before, client) * items {
        assert client in {client} && Has(before, client, d);
      }
    }
  }

  lemma ClientsOfOneMore(s: State, ids: set<DataItemId>, id: DataItemId, clients: set<Client>)
    requires AreClientsOf(s, ids, clients)
    ensures AreClientsOf(s, ids + {id}, clients + if id in s.dataItemToClients then s.dataItemToClients[id] else {})
  {
    var more := clients + if id in s.dataItemToClients then s.dataItemToClients[id] else {};
    forall c ensures c in more <==> exists d :: d in ids + {id} && Has(s.dataItemToClients, d, c) {
      if c in clients {
        var d :| d in ids && Has(s.dataItemToClients, d, c);
        assert d in ids + {id};
      } else if c in more {
        assert id in ids + {id} && Has(s.dataItemToClients, id, c);
      }
    }
  }

  lemma DeliveredNothing(s: State, cache: map<DataItemId, Value>, updated: set<DataItemId>)
    ensures Delivered(s, cache, updated, {}, [])
  {
  }

  lemma DeliveredOneMore(s: State, cache: map<DataItemId, Value>, updated: set<DataItemId>, clients: set<Client>,
                         client: Client, sent: seq<Notice>)
    requires Delivered(s, cache, updated, clients, sent) && client !in clients
    ensures var notice := CachedNotice(cache, ItemsOf(s.clientToDataItems, client) * updated, client);
            Delivered(s, cache, updated, clients + {client}, sent + notice)
  {
    var all := sent + CachedNotice(cache, ItemsOf(s.clientToDataItems, client) * updated, client);
    forall c | c in clients + {client} && ToldTo(s, cache, updated, c) != map[]
      ensures exists n :: n in all && n.client == c
    {
      if c == client {
        assert all[|sent|] in all;
      } else {
        var n :| n in sent && n.client == c;
        assert n in all;
      }
    }
    forall i, j | 0 <= i < j < |all| ensures all[i].client != all[j].client {
      assert sent[i] in sent;
    }
  }
}
