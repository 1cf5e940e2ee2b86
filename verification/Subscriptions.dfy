/** The subscription index of `SystemStatusOsObserver` as a state machine over its messages: what the
    two maps mean, what the framework's subscription object holds, and what the clients know. */
module Subscriptions {
  import opened Options
  import opened SetMap

  type Client = nat
  type DataItemId = nat
  type Value = int
  type SubscriptionObj = nat

  /** A call made on a subscription object of the framework. */
  datatype Call =
    | Subscribe(to: SubscriptionObj, items: set<DataItemId>)
    | RequestData(to: SubscriptionObj, items: set<DataItemId>)
    | Unsubscribe(to: SubscriptionObj, items: set<DataItemId>)

  /** Cached data items handed to a client. */
  datatype Notice = Notice(client: Client, items: map<DataItemId, Value>)

  /** A data item received from the framework.  `created`: the library makes an object for it when it
      arrives; `handled`: SystemStatus records it; `stored`: the library makes an object to cache it;
      `copied`: copying it over the cached one changes that one. */
  datatype DataItem = DataItem(id: DataItemId, value: Value, created: bool, handled: bool, stored: bool, copied: bool)

  datatype Message =
    | SetSubsObj(obj: SubscriptionObj)
    | SubscribeReq(client: Client, items: set<DataItemId>, toRequestData: bool)
    | UnsubscribeReq(client: Client, items: set<DataItemId>)
    | UnsubscribeAllReq(client: Client)
    | NotifyReq(received: seq<Option<DataItem>>)

  datatype State = State(
    clientToDataItems: map<Client, set<DataItemId>>,
    dataItemToClients: map<DataItemId, set<Client>>,
    subscriptionObj: Option<SubscriptionObj>,
    cache: map<DataItemId, Value>,
    calls: seq<Call>,
    notices: seq<Notice>)

  // ---------------------------------------------------------------- the steps

  function ItemsOf(m: map<Client, set<DataItemId>>, client: Client): set<DataItemId> {
    if client in m then m[client] else {}
  }

  function Restrict(cache: map<DataItemId, Value>, ids: set<DataItemId>): map<DataItemId, Value> {
    map d | d in cache && d in ids :: cache[d]
  }

  /** The call that announces newly needed items, if there is one to announce and someone to tell. */
  function Announce(obj: Option<SubscriptionObj>, items: set<DataItemId>, toRequestData: bool): seq<Call> {
    if obj.None? || items == {} then []
    else if toRequestData then [RequestData(obj.value, items)]
    else [Subscribe(obj.value, items)]
  }

  function Withdraw(obj: Option<SubscriptionObj>, items: set<DataItemId>): seq<Call> {
    if obj.None? || items == {} then [] else [Unsubscribe(obj.value, items)]
  }

  /** What `sendCachedDataItems` sends. */
  function CachedNotice(cache: map<DataItemId, Value>, ids: set<DataItemId>, client: Client): seq<Notice> {
    if Restrict(cache, ids) == map[] then [] else [Notice(client, Restrict(cache, ids))]
  }

  predicate IsUpdate(cache: map<DataItemId, Value>, item: Option<DataItem>) {
    item.Some? && item.value.handled && if item.value.id in cache then item.value.copied else item.value.stored
  }

  function CacheAfter(cache: map<DataItemId, Value>, received: seq<Option<DataItem>>): map<DataItemId, Value> {
    if received == [] then cache
    else
      var before := CacheAfter(cache, received[..|received| - 1]);
      var item := received[|received| - 1];
      if IsUpdate(before, item) then before[item.value.id := item.value.value] else before
  }

  function Updated(cache: map<DataItemId, Value>, received: seq<Option<DataItem>>): set<DataItemId> {
    if received == [] then {}
    else
      var before := CacheAfter(cache, received[..|received| - 1]);
      var item := received[|received| - 1];
      Updated(cache, received[..|received| - 1]) + if IsUpdate(before, item) then {item.value.id} else {}
  }

  /** One notice to each of `clients` that has an updated item, with all of its updated items. */
  ghost predicate Delivered(s: State, cache: map<DataItemId, Value>, updated: set<DataItemId>, clients: set<Client>,
                            sent: seq<Notice>) {
    && (forall n :: n in sent ==>
          n.client in clients && n.items == ToldTo(s, cache, updated, n.client) && n.items != map[])
    && (forall c :: c in clients && ToldTo(s, cache, updated, c) != map[] ==> exists n :: n in sent && n.client == c)
    && forall i, j :: 0 <= i < j < |sent| ==> sent[i].client != sent[j].client
  }

  function ToldTo(s: State, cache: map<DataItemId, Value>, updated: set<DataItemId>, client: Client)
    : map<DataItemId, Value>
  {
    Restrict(cache, ItemsOf(s.clientToDataItems, client) * updated)
  }

  ghost predicate AreClientsOf(s: State, updated: set<DataItemId>, clients: set<Client>) {
    forall c :: c in clients <==> exists d :: d in updated && Has(s.dataItemToClients, d, c)
  }

  ghost predicate Step(s: State, m: Message, t: State) {
    match m
    case SetSubsObj(obj) =>
      && t.calls == s.calls + SetCalls(obj, s.dataItemToClients.Keys)
      && t == s.(subscriptionObj := Some(obj), calls := t.calls)
    case SubscribeReq(client, items, toRequestData) =>
      && Added(s.dataItemToClients, items, {client}, t.dataItemToClients)
      && Added(s.clientToDataItems, {client}, items, t.clientToDataItems)
      && t.subscriptionObj == s.subscriptionObj && t.cache == s.cache
      && (var needed := t.dataItemToClients.Keys - s.dataItemToClients.Keys;
          t.calls == s.calls + Announce(s.subscriptionObj, needed, toRequestData))
      && t.notices == s.notices + CachedNotice(s.cache, items, client)
    case UnsubscribeReq(client, items) =>
      && Trimmed(s.clientToDataItems, {client}, items, t.clientToDataItems)
      && Dropped(s, client, ItemsOf(s.clientToDataItems, client) * items, t)
    case UnsubscribeAllReq(client) =>
      && t.clientToDataItems ==
         s.clientToDataItems - (if ItemsOf(s.clientToDataItems, client) == {} then {} else {client})
      && Dropped(s, client, ItemsOf(s.clientToDataItems, client), t)
    case NotifyReq(received) =>
      && t == s.(cache := CacheAfter(s.cache, received), notices := t.notices)
      && s.notices <= t.notices
      && exists clients ::
           && AreClientsOf(s, Updated(s.cache, received), clients)
           && Delivered(s, t.cache, Updated(s.cache, received), clients, t.notices[|s.notices|..])
  }

  function SetCalls(obj: SubscriptionObj, keys: set<DataItemId>): seq<Call> {
    if keys == {} then [] else [Subscribe(obj, keys), RequestData(obj, keys)]
  }

  /** The client is taken off the entries of `unused`; the entries left empty are withdrawn. */
  ghost predicate Dropped(s: State, client: Client, unused: set<DataItemId>, t: State) {
    && Trimmed(s.dataItemToClients, unused, {client}, t.dataItemToClients)
    && t.subscriptionObj == s.subscriptionObj && t.cache == s.cache && t.notices == s.notices
    && t.calls == s.calls + Withdraw(s.subscriptionObj, s.dataItemToClients.Keys - t.dataItemToClients.Keys)
  }

  const START := State(map[], map[], None, map[], [], [])

  ghost predicate IsRun(states: seq<State>, messages: seq<Message>) {
    && |states| == |messages| + 1 && states[0] == START
    && forall i :: 0 <= i < |messages| ==> Step(states[i], messages[i], states[i + 1])
  }

  // ---------------------------------------------------------------- the index

  /** Whether `client` has asked for `item` and not withdrawn it since. */
  predicate Wants(messages: seq<Message>, client: Client, item: DataItemId) {
    if messages == [] then false
    else
      var earlier := Wants(messages[..|messages| - 1], client, item);
      match messages[|messages| - 1]
      case SubscribeReq(c, items, _) => earlier || (c == client && item in items)
      case UnsubscribeReq(c, items) => earlier && !(c == client && item in items)
      case UnsubscribeAllReq(c) => earlier && c != client
      case _ => earlier
  }

  ghost predicate IsWanted(messages: seq<Message>, item: DataItemId) {
    exists c :: Wants(messages, c, item)
  }

  ghost predicate Inverse(s: State) {
    && NoEmptyEntry(s.clientToDataItems) && NoEmptyEntry(s.dataItemToClients)
    && forall c, d :: Has(s.clientToDataItems, c, d) <==> Has(s.dataItemToClients, d, c)
  }

  lemma SubscribeKeepsInverse(s: State, m: Message, t: State)
    requires Inverse(s) && m.SubscribeReq? && Step(s, m, t)
    ensures Inverse(t)
    ensures forall c, d :: Has(t.dataItemToClients, d, c) <==>
              Has(s.dataItemToClients, d, c) || (c == m.client && d in m.items)
  {
    AddedKeepsNoEmpty(s.dataItemToClients, m.items, {m.client}, t.dataItemToClients);
    AddedKeepsNoEmpty(s.clientToDataItems, {m.client}, m.items, t.clientToDataItems);
    forall c, d
      ensures Has(t.dataItemToClients, d, c) <==> Has(s.dataItemToClients, d, c) || (c == m.client && d in m.items)
      ensures Has(t.clientToDataItems, c, d) <==> Has(t.dataItemToClients, d, c)
    {
      AddedRelation(s.dataItemToClients, m.items, {m.client}, t.dataItemToClients, d, c);
      AddedRelation(s.clientToDataItems, {m.client}, m.items, t.clientToDataItems, c, d);
    }
  }

  lemma DropKeepsInverse(s: State, m: Message, t: State)
    requires Inverse(s) && (m.UnsubscribeReq? || m.UnsubscribeAllReq?) && Step(s, m, t)
    ensures Inverse(t)
    ensures forall c, d :: Has(t.dataItemToClients, d, c) <==>
              Has(s.dataItemToClients, d, c) && !(c == m.client && (m.UnsubscribeReq? ==> d in m.items))
  {
    var all := ItemsOf(s.clientToDataItems, m.client);
    var unused := if m.UnsubscribeReq? then all * m.items else all;
    TrimmedKeepsNoEmpty(s.dataItemToClients, unused, {m.client}, t.dataItemToClients);
    if m.UnsubscribeReq? {
      TrimmedKeepsNoEmpty(s.clientToDataItems, {m.client}, m.items, t.clientToDataItems);
    }
    forall c, d
      ensures Has(t.dataItemToClients, d, c) <==>
              Has(s.dataItemToClients, d, c) && !(c == m.client && (m.UnsubscribeReq? ==> d in m.items))
      ensures Has(t.clientToDataItems, c, d) <==> Has(t.dataItemToClients, d, c)
    {
      TrimmedRelation(s.dataItemToClients, unused, {m.client}, t.dataItemToClients, d, c);
      assert d in all <==> Has(s.clientToDataItems, m.client, d);
      if m.UnsubscribeReq? {
        TrimmedRelation(s.clientToDataItems, {m.client}, m.items, t.clientToDataItems, c, d);
      }
    }
  }

  lemma StepKeepsInverse(s: State, m: Message, t: State)
    requires Inverse(s) && Step(s, m, t)
    ensures Inverse(t)
  {
    match m
    case SubscribeReq(_, _, _) => SubscribeKeepsInverse(s, m, t);
    case UnsubscribeReq(_, _) => DropKeepsInverse(s, m, t);
    case UnsubscribeAllReq(_) => DropKeepsInverse(s, m, t);
    case _ =>
  }

  /** In every run the two maps are inverse to each other, have no empty entries, and hold exactly the
      subscriptions that are in force. */
  lemma {:induction false} IndexHoldsTheSubscriptions(states: seq<State>, messages: seq<Message>)
    requires IsRun(states, messages)
    ensures Inverse(states[|messages|])
    ensures forall c, d :: Has(states[|messages|].dataItemToClients, d, c) <==> Wants(messages, c, d)
  {
    var n := |messages|;
    if n > 0 {
      var m := messages[n - 1];
      IndexHoldsTheSubscriptions(states[..n], messages[..n - 1]);
      assert Step(states[n - 1], m, states[n]);
      if m.SubscribeReq? {
        SubscribeKeepsInverse(states[n - 1], m, states[n]);
      } else if m.UnsubscribeReq? || m.UnsubscribeAllReq? {
        DropKeepsInverse(states[n - 1], m, states[n]);
      }
    }
  }

  // ---------------------------------------------------------------- the framework

  /** What `obj` has been asked to report and not told to stop reporting. */
  function Held(calls: seq<Call>, obj: SubscriptionObj): set<DataItemId> {
    if calls == [] then {}
    else
      var earlier := Held(calls[..|calls| - 1], obj);
      var call := calls[|calls| - 1];
      if call.to != obj then earlier
      else if call.Unsubscribe? then earlier - call.items
      else earlier + call.items
  }

  /** No item is subscribed twice or unsubscribed without being held; data is requested for new items
      or again for all of them. */
  ghost predicate Orderly(calls: seq<Call>) {
    forall i :: 0 <= i < |calls| ==> InOrder(calls[..i], calls[i])
  }

  ghost predicate InOrder(earlier: seq<Call>, call: Call) {
    var held := Held(earlier, call.to);
    && call.items != {}
    && match call
       case Subscribe(_, items) => items !! held
       case RequestData(_, items) => items !! held || items == held
       case Unsubscribe(_, items) => items <= held
  }

  lemma HeldAfter(calls: seq<Call>, call: Call, obj: SubscriptionObj)
    ensures Held(calls + [call], obj) ==
            if call.to != obj then Held(calls, obj)
            else if call.Unsubscribe? then Held(calls, obj) - call.items
            else Held(calls, obj) + call.items
  {
    assert (calls + [call])[..|calls|] == calls;
  }

  lemma OrderlyAfter(calls: seq<Call>, call: Call)
    requires Orderly(calls) && InOrder(calls, call)
    ensures Orderly(calls + [call])
  {
    var longer := calls + [call];
    forall i | 0 <= i < |longer| ensures InOrder(longer[..i], longer[i]) {
      assert longer[..i] == calls[..i];
      assert calls[..|calls|] == calls;
    }
  }

  /** The calls so far were in order, and the current object holds the keys of the index. */
  ghost predicate Synchronised(s: State) {
    && Orderly(s.calls)
    && (s.subscriptionObj.None? ==> s.calls == [])
    && (s.subscriptionObj.Some? ==> Held(s.calls, s.subscriptionObj.value) == s.dataItemToClients.Keys)
  }

  lemma TrimmedShrinks(before: map<DataItemId, set<Client>>, keys: set<DataItemId>, vals: set<Client>,
                       after: map<DataItemId, set<Client>>)
    requires Trimmed(before, keys, vals, after)
    ensures after.Keys <= before.Keys
  {
  }

  lemma AddedGrows(before: map<DataItemId, set<Client>>, keys: set<DataItemId>, vals: set<Client>,
                   after: map<DataItemId, set<Client>>)
    requires Added(before, keys, vals, after)
    ensures before.Keys <= after.Keys
  {
  }

  /** One call on the current object, moving what it holds from `before` to `after`. */
  lemma CallKeepsSync(s: State, call: Call, t: State)
    requires Synchronised(s) && s.subscriptionObj == t.subscriptionObj == Some(call.to)
    requires t.calls == s.calls + [call] && call.items != {}
    requires var before, after := s.dataItemToClients.Keys, t.dataItemToClients.Keys;
             if call.Unsubscribe? then after <= before && call.items == before - after
             else before <= after && call.items == after - before
    ensures Synchronised(t)
  {
    OrderlyAfter(s.calls, call);
    HeldAfter(s.calls, call, call.to);
  }

  lemma QuietKeepsSync(s: State, t: State)
    requires Synchronised(s) && s.subscriptionObj == t.subscriptionObj && s.calls == t.calls
    requires var before, after := s.dataItemToClients.Keys, t.dataItemToClients.Keys;
             s.subscriptionObj.Some? ==>
               (after <= before && before - after == {}) || (before <= after && after - before == {})
    ensures Synchronised(t)
  {
    var before, after := s.dataItemToClients.Keys, t.dataItemToClients.Keys;
    assert before <= after + (before - after) && after <= before + (after - before);
  }

  lemma StepKeepsSync(s: State, m: Message, t: State)
    requires Synchronised(s) && Step(s, m, t)
    requires m.SetSubsObj? ==> Held(s.calls, m.obj) == {}
    ensures Synchronised(t)
  {
    match m
    case SetSubsObj(obj) => SettingKeepsSync(s, obj, t);
    case SubscribeReq(client, items, toRequestData) =>
      AddedGrows(s.dataItemToClients, items, {client}, t.dataItemToClients);
      var needed := t.dataItemToClients.Keys - s.dataItemToClients.Keys;
      if s.subscriptionObj.Some? && needed != {} {
        CallKeepsSync(s, Announce(s.subscriptionObj, needed, toRequestData)[0], t);
      } else {
        QuietKeepsSync(s, t);
      }
    case UnsubscribeReq(client, items) => DropKeepsSync(s, client, ItemsOf(s.clientToDataItems, client) * items, t);
    case UnsubscribeAllReq(client) => DropKeepsSync(s, client, ItemsOf(s.clientToDataItems, client), t);
    case NotifyReq(_) =>
  }

  lemma DropKeepsSync(s: State, client: Client, unused: set<DataItemId>, t: State)
    requires Synchronised(s) && Dropped(s, client, unused, t)
    ensures Synchronised(t)
  {
    TrimmedShrinks(s.dataItemToClients, unused, {client}, t.dataItemToClients);
    var gone := s.dataItemToClients.Keys - t.dataItemToClients.Keys;
    if s.subscriptionObj.Some? && gone != {} {
      CallKeepsSync(s, Unsubscribe(s.subscriptionObj.value, gone), t);
    } else {
      QuietKeepsSync(s, t);
    }
  }

  lemma HeldAfterSetting(calls: seq<Call>, obj: SubscriptionObj, keys: set<DataItemId>, o: SubscriptionObj)
    ensures Held(calls + SetCalls(obj, keys), o) == Held(calls, o) + if o == obj then keys else {}
  {
    if keys == {} {
      assert calls + SetCalls(obj, keys) == calls;
    } else {
      HeldAfter(calls, Subscribe(obj, keys), o);
      HeldAfter(calls + [Subscribe(obj, keys)], RequestData(obj, keys), o);
      assert calls + SetCalls(obj, keys) == calls + [Subscribe(obj, keys)] + [RequestData(obj, keys)];
    }
  }

  lemma SettingKeepsSync(s: State, obj: SubscriptionObj, t: State)
    requires Synchronised(s) && Step(s, SetSubsObj(obj), t) && Held(s.calls, obj) == {}
    ensures Synchronised(t)
  {
    SettingMatchesIff(s, obj, t);
  }

  /** Giving an object, new or not, leaves it holding the wanted items exactly when it held no others,
      and the calls that does are in order exactly when there are none or it held nothing. */
  lemma SettingMatchesIff(s: State, obj: SubscriptionObj, t: State)
    requires Step(s, SetSubsObj(obj), t)
    ensures Held(t.calls, obj) == t.dataItemToClients.Keys <==> Held(s.calls, obj) <= s.dataItemToClients.Keys
    ensures Orderly(s.calls) ==> (Orderly(t.calls) <==> s.dataItemToClients.Keys == {} || Held(s.calls, obj) == {})
  {
    hide Orderly, Held;
    var keys := s.dataItemToClients.Keys;
    HeldAfterSetting(s.calls, obj, keys, obj);
    if Orderly(s.calls) { SetCallsInOrderIff(s.calls, obj, keys); }
  }

  /** The calls that give an object are in order exactly when there are none or it held nothing. */
  lemma SetCallsInOrderIff(calls: seq<Call>, obj: SubscriptionObj, keys: set<DataItemId>)
    requires Orderly(calls)
    ensures Orderly(calls + SetCalls(obj, keys)) <==> keys == {} || Held(calls, obj) == {}
  {
    hide Orderly, Held;
    if keys == {} {
      assert calls + SetCalls(obj, keys) == calls;
    } else if Held(calls, obj) == {} {
      SetCallsInOrder(calls, obj, keys);
    } else if Orderly(calls + SetCalls(obj, keys)) {
      SetCallsOutOfOrder(calls, obj, keys);
    }
  }

  lemma SetCallsOutOfOrder(calls: seq<Call>, obj: SubscriptionObj, keys: set<DataItemId>)
    requires Orderly(calls + SetCalls(obj, keys)) && keys != {}
    ensures Held(calls, obj) == {}
  {
    hide Held;
    var all, k := calls + SetCalls(obj, keys), |calls|;
    assert InOrder(all[..k], all[k]) && InOrder(all[..k + 1], all[k + 1]);
    assert all[..k] == calls && all[k] == Subscribe(obj, keys);
    assert all[..k + 1] == calls + [Subscribe(obj, keys)] && all[k + 1] == RequestData(obj, keys);
    HeldAfter(calls, Subscribe(obj, keys), obj);
  }

  lemma SetCallsInOrder(calls: seq<Call>, obj: SubscriptionObj, keys: set<DataItemId>)
    requires Orderly(calls) && Held(calls, obj) == {} && keys != {}
    ensures Orderly(calls + SetCalls(obj, keys))
  {
    OrderlyAfter(calls, Subscribe(obj, keys));
    HeldAfter(calls, Subscribe(obj, keys), obj);
    assert InOrder(calls + [Subscribe(obj, keys)], RequestData(obj, keys));
    OrderlyAfter(calls + [Subscribe(obj, keys)], RequestData(obj, keys));
    assert calls + SetCalls(obj, keys) == calls + [Subscribe(obj, keys)] + [RequestData(obj, keys)];
  }

  /** An object that already held something is out of step once it is given. */
  lemma SettingBreaksSync(s: State, obj: SubscriptionObj, t: State)
    requires Orderly(s.calls) && Step(s, SetSubsObj(obj), t) && Held(s.calls, obj) != {}
    ensures !Synchronised(t)
  {
    SettingMatchesIff(s, obj, t);
  }

  function Current(messages: seq<Message>): Option<SubscriptionObj> {
    if messages == [] then None
    else if messages[|messages| - 1].SetSubsObj? then Some(messages[|messages| - 1].obj)
    else Current(messages[..|messages| - 1])
  }

  ghost predicate AnyWanted(messages: seq<Message>) {
    exists d :: IsWanted(messages, d)
  }

  /** Whether something was wanted when `obj` was last the current object: at this moment if it is, and
      otherwise when another one replaced it. */
  ghost predicate LeftHolding(messages: seq<Message>, obj: SubscriptionObj) {
    if Current(messages) == Some(obj) then AnyWanted(messages)
    else messages != [] && LeftHolding(messages[..|messages| - 1], obj)
  }

  /** Whenever an object is given, it is new, or nothing was wanted when it was last current. */
  ghost predicate GivenClean(messages: seq<Message>) {
    forall j :: 0 <= j < |messages| && messages[j].SetSubsObj? ==> !LeftHolding(messages[..j], messages[j].obj)
  }

  lemma {:induction false} CurrentIs(states: seq<State>, messages: seq<Message>)
    requires IsRun(states, messages)
    ensures states[|messages|].subscriptionObj == Current(messages)
  {
    var n := |messages|;
    if n > 0 {
      CurrentIs(states[..n], messages[..n - 1]);
      assert Step(states[n - 1], messages[n - 1], states[n]);
    }
  }

  lemma KeysAreWanted(s: State, messages: seq<Message>, item: DataItemId)
    requires NoEmptyEntry(s.dataItemToClients)
    requires forall c :: Has(s.dataItemToClients, item, c) <==> Wants(messages, c, item)
    ensures item in s.dataItemToClients.Keys <==> IsWanted(messages, item)
  {
    if item in s.dataItemToClients {
      var c :| c in s.dataItemToClients[item];
      assert Has(s.dataItemToClients, item, c);
      assert Wants(messages, c, item);
    }
  }

  lemma KeysAreTheWanted(states: seq<State>, messages: seq<Message>)
    requires IsRun(states, messages)
    ensures forall d :: d in states[|messages|].dataItemToClients <==> IsWanted(messages, d)
    ensures states[|messages|].dataItemToClients.Keys != {} <==> AnyWanted(messages)
  {
    hide Wants, Step, IsWanted;
    IndexHoldsTheSubscriptions(states, messages);
    forall d ensures d in states[|messages|].dataItemToClients <==> IsWanted(messages, d) {
      KeysAreWanted(states[|messages|], messages, d);
    }
  }

  /** In step so far, an object holds something exactly if it was left holding something. */
  lemma {:induction false} HoldsWhatItWasLeftWith(states: seq<State>, messages: seq<Message>, obj: SubscriptionObj)
    requires IsRun(states, messages) && forall i :: 0 <= i <= |messages| ==> Synchronised(states[i])
    ensures Held(states[|messages|].calls, obj) != {} <==> LeftHolding(messages, obj)
  {
    hide Held, Orderly, AnyWanted;
    var n := |messages|;
    CurrentIs(states, messages);
    if Current(messages) == Some(obj) {
      KeysAreTheWanted(states, messages);
    } else if n == 0 {
      NothingHeld(obj);
    } else {
      var s, m, t := states[n - 1], messages[n - 1], states[n];
      assert Step(s, m, t);
      if m.SetSubsObj? {
        HeldAfterSetting(s.calls, m.obj, s.dataItemToClients.Keys, obj);
      } else {
        ReplacedObjectKeepsItems(s, m, t, obj);
      }
      HoldsWhatItWasLeftWith(states[..n], messages[..n - 1], obj);
    }
  }

  lemma NothingHeld(obj: SubscriptionObj)
    ensures Held([], obj) == {}
  {
  }

  ghost predicate AllSynchronised(states: seq<State>) {
    forall i :: 0 <= i < |states| ==> Synchronised(states[i])
  }

  lemma AllSynchronisedStep(states: seq<State>, n: nat)
    requires |states| == n + 1
    ensures AllSynchronised(states) <==> AllSynchronised(states[..n]) && Synchronised(states[n])
  {
    hide Synchronised;
    if AllSynchronised(states[..n]) {
      assert forall i :: 0 <= i < n ==> Synchronised(states[..n][i]);
      assert forall i :: 0 <= i < n ==> states[i] == states[..n][i];
    }
  }

  lemma {:induction false} SynchronisedIff(states: seq<State>, messages: seq<Message>)
    requires IsRun(states, messages)
    ensures AllSynchronised(states) <==> GivenClean(messages)
  {
    hide Synchronised, LeftHolding, AllSynchronised, GivenClean, Step;
    var n := |messages|;
    if n == 0 {
      StartIsSynchronised();
      NothingGiven();
      assert states == [START];
    } else {
      SynchronisedIff(states[..n], messages[..n - 1]);
      AllSynchronisedStep(states, n);
      GivenCleanStep(messages);
      if AllSynchronised(states[..n]) { LastStepSynchronised(states, messages); }
    }
  }

  lemma NothingGiven()
    ensures GivenClean([])
  {
  }

  /** In step so far, the last message keeps that up unless it gives an object left holding something. */
  lemma LastStepSynchronised(states: seq<State>, messages: seq<Message>)
    requires IsRun(states, messages) && messages != [] && AllSynchronised(states[..|messages|])
    ensures var n := |messages|;
            var m := messages[n - 1];
            Synchronised(states[n]) <==> !(m.SetSubsObj? && LeftHolding(messages[..n - 1], m.obj))
  {
    hide Synchronised, LeftHolding, Held;
    var n := |messages|;
    var s, m, t := states[n - 1], messages[n - 1], states[n];
    assert Step(s, m, t);
    assert states[..n][n - 1] == s;
    if m.SetSubsObj? { HoldsWhatItWasLeftWith(states[..n], messages[..n - 1], m.obj); }
    if m.SetSubsObj? && Held(s.calls, m.obj) != {} {
      SynchronisedIsOrderly(s);
      SettingBreaksSync(s, m.obj, t);
    } else {
      StepKeepsSync(s, m, t);
    }
  }

  lemma SynchronisedIsOrderly(s: State)
    requires Synchronised(s)
    ensures Orderly(s.calls)
  {
  }

  lemma StartIsSynchronised()
    ensures Synchronised(START) && AllSynchronised([START])
  {
  }

  lemma GivenCleanStep(messages: seq<Message>)
    requires messages != []
    ensures var n := |messages|;
            GivenClean(messages) <==>
            (&& GivenClean(messages[..n - 1])
             && (messages[n - 1].SetSubsObj? ==> !LeftHolding(messages[..n - 1], messages[n - 1].obj)))
  {
    hide LeftHolding;
    var n, front := |messages|, messages[..|messages| - 1];
    forall j | 0 <= j < n - 1 ensures front[..j] == messages[..j] && front[j] == messages[j] {}
    if GivenClean(messages) {
      forall j | 0 <= j < n - 1 && front[j].SetSubsObj? ensures !LeftHolding(front[..j], front[j].obj) {
        assert messages[j].SetSubsObj?;
      }
    }
  }

  /** At every moment of the run the calls so far were in order, no item being subscribed twice or
      unsubscribed without being held, and the current object holds exactly the wanted items. */
  ghost predicate AlwaysInStep(states: seq<State>, messages: seq<Message>)
    requires |states| == |messages| + 1
  {
    forall i :: 0 <= i <= |messages| ==> InStep(states[i], messages[..i])
  }

  ghost predicate InStep(s: State, messages: seq<Message>) {
    && Orderly(s.calls)
    && (s.subscriptionObj.Some? ==> forall d :: d in Held(s.calls, s.subscriptionObj.value) <==> IsWanted(messages, d))
  }

  lemma InStepIsSynchronised(states: seq<State>, messages: seq<Message>)
    requires IsRun(states, messages)
    ensures InStep(states[|messages|], messages) <==> Synchronised(states[|messages|])
  {
    hide Orderly, Held, IsWanted, Step;
    KeysAreTheWanted(states, messages);
    NothingSentAtFirst(states, messages);
    var s := states[|messages|];
    if s.subscriptionObj.Some? && InStep(s, messages) {
      assert forall d :: d in Held(s.calls, s.subscriptionObj.value) <==> d in s.dataItemToClients.Keys;
    }
  }

  lemma {:induction false} NothingSentAtFirst(states: seq<State>, messages: seq<Message>)
    requires IsRun(states, messages)
    ensures states[|messages|].subscriptionObj.None? ==> states[|messages|].calls == []
  {
    var n := |messages|;
    if n > 0 {
      NothingSentAtFirst(states[..n], messages[..n - 1]);
      assert Step(states[n - 1], messages[n - 1], states[n]);
    }
  }

  /** In every run: nothing is sent before there is a subscription object; and calls are always in order
      and the current object always holds exactly the items that some client wants, if and only if every
      object that is given is new or nothing was wanted when it was last current. */
  lemma FrameworkHoldsWhatIsWantedIff(states: seq<State>, messages: seq<Message>)
    requires IsRun(states, messages)
    ensures AlwaysInStep(states, messages) <==> GivenClean(messages)
    ensures forall i :: 0 <= i <= |messages| && states[i].subscriptionObj.None? ==> states[i].calls == []
  {
    hide InStep, Synchronised, GivenClean, Step;
    SynchronisedIff(states, messages);
    forall i | 0 <= i <= |messages|
      ensures InStep(states[i], messages[..i]) <==> Synchronised(states[i])
      ensures states[i].subscriptionObj.None? ==> states[i].calls == []
    {
      RunUpTo(states, messages, i);
      InStepIsSynchronised(states[..i + 1], messages[..i]);
      NothingSentAtFirst(states[..i + 1], messages[..i]);
    }
  }

  lemma RunUpTo(states: seq<State>, messages: seq<Message>, i: nat)
    requires IsRun(states, messages) && i <= |messages|
    ensures IsRun(states[..i + 1], messages[..i])
  {
    hide Step;
  }

  /** No subscription object is given a second time. */
  ghost predicate GivenOnce(messages: seq<Message>) {
    forall i, j :: 0 <= i < j < |messages| && messages[i].SetSubsObj? && messages[j].SetSubsObj? ==>
      messages[i].obj != messages[j].obj
  }

  lemma {:induction false} NewHoldsNothing(messages: seq<Message>, obj: SubscriptionObj)
    requires forall i :: 0 <= i < |messages| && messages[i].SetSubsObj? ==> messages[i].obj != obj
    ensures !LeftHolding(messages, obj) && Current(messages) != Some(obj)
  {
    if messages != [] { NewHoldsNothing(messages[..|messages| - 1], obj); }
  }

  /** In particular they always do when no object is given twice. */
  lemma FrameworkHoldsWhatIsWanted(states: seq<State>, messages: seq<Message>)
    requires IsRun(states, messages) && GivenOnce(messages)
    ensures AlwaysInStep(states, messages)
    ensures states[|messages|].subscriptionObj.None? ==> states[|messages|].calls == []
  {
    hide LeftHolding, AlwaysInStep, Step;
    forall j | 0 <= j < |messages| && messages[j].SetSubsObj? ensures !LeftHolding(messages[..j], messages[j].obj) {
      NewHoldsNothing(messages[..j], messages[j].obj);
    }
    FrameworkHoldsWhatIsWantedIff(states, messages);
  }

  lemma OthersKeepItems(calls: seq<Call>, more: seq<Call>, obj: SubscriptionObj)
    requires |more| <= 1 && (more != [] ==> more[0].to != obj)
    ensures Held(calls + more, obj) == Held(calls, obj)
  {
    if more == [] {
      assert calls + more == calls;
    } else {
      HeldAfter(calls, more[0], obj);
      assert more == [more[0]];
    }
  }

  /** An object that was replaced is not told to stop anything. */
  lemma ReplacedObjectKeepsItems(s: State, m: Message, t: State, obj: SubscriptionObj)
    requires Step(s, m, t) && s.subscriptionObj != Some(obj) && m != SetSubsObj(obj)
    ensures Held(t.calls, obj) == Held(s.calls, obj)
  {
    var before, after := s.dataItemToClients.Keys, t.dataItemToClients.Keys;
    match m
    case SetSubsObj(o) => HeldAfterSetting(s.calls, o, s.dataItemToClients.Keys, obj);
    case SubscribeReq(_, _, toRequestData) =>
      OthersKeepItems(s.calls, Announce(s.subscriptionObj, after - before, toRequestData), obj);
    case NotifyReq(_) =>
    case _ => OthersKeepItems(s.calls, Withdraw(s.subscriptionObj, before - after), obj);
  }

  // A run that gives object 1 again: client 0 subscribes item 9, object 2 takes over, and the client
  // unsubscribes before object 1 comes back.
  const GIVEN_AGAIN :=
    [SetSubsObj(1), SubscribeReq(0, {9}, false), SetSubsObj(2), UnsubscribeReq(0, {9}), SetSubsObj(1)]
  const S1 := START.(subscriptionObj := Some(1))
  const S2 := S1.(clientToDataItems := map[0 := {9}], dataItemToClients := map[9 := {0}], calls := [Subscribe(1, {9})])
  const S3 := S2.(subscriptionObj := Some(2), calls := S2.calls + SetCalls(2, {9}))
  const S4 := S1.(subscriptionObj := Some(2), calls := S3.calls + [Unsubscribe(2, {9})])
  const S5 := S4.(subscriptionObj := Some(1))

  lemma FirstSteps()
    ensures Step(START, GIVEN_AGAIN[0], S1) && Step(S1, GIVEN_AGAIN[1], S2) && Step(S2, GIVEN_AGAIN[2], S3)
  {
    assert S2.dataItemToClients.Keys == {9} && S1.dataItemToClients.Keys == {};
    assert {9} - {} == {9};
  }

  lemma LastSteps()
    ensures Step(S3, GIVEN_AGAIN[3], S4) && Step(S4, GIVEN_AGAIN[4], S5)
  {
    assert S3.dataItemToClients.Keys == {9} && S4.dataItemToClients.Keys == {};
    assert {9} - {} == {9};
    assert ItemsOf(S3.clientToDataItems, 0) * {9} == {9};
  }

  /** Why objects must be given once: object 1 comes back still holding an item that nobody wants. */
  lemma StaleWhenGivenAgain()
    ensures IsRun([START, S1, S2, S3, S4, S5], GIVEN_AGAIN)
    ensures S5.subscriptionObj == Some(1) && 9 in Held(S5.calls, 1) && S5.dataItemToClients == map[]
  {
    hide Step;
    FirstSteps();
    LastSteps();
    HeldAfter([], Subscribe(1, {9}), 1);
    HeldAfterSetting(S2.calls, 2, {9}, 1);
    HeldAfter(S3.calls, Unsubscribe(2, {9}), 1);
  }

  const GIVEN_TWICE := [SetSubsObj(1), SubscribeReq(0, {9}, false), SetSubsObj(1)]
  const TWICE := S2.(calls := S2.calls + SetCalls(1, {9}))

  /** The current object given again is told to subscribe what it holds. */
  lemma DoubleWhenGivenTwice()
    ensures IsRun([START, S1, S2, TWICE], GIVEN_TWICE)
    ensures !Orderly(TWICE.calls) && Held(S2.calls, 1) == {9}
  {
    FirstSteps();
    assert Step(S2, GIVEN_TWICE[2], TWICE) by { assert S2.dataItemToClients.Keys == {9}; }
    HeldAfter([], Subscribe(1, {9}), 1);
    assert [] + [Subscribe(1, {9})] == S2.calls;
    assert TWICE.calls[..1] == S2.calls && TWICE.calls[1] == Subscribe(1, {9});
    assert !InOrder(TWICE.calls[..1], TWICE.calls[1]);
  }

  // ---------------------------------------------------------------- what clients know

  function LastTold(notices: seq<Notice>, client: Client, item: DataItemId): Option<Value> {
    if notices == [] then None
    else
      var n := notices[|notices| - 1];
      if n.client == client && item in n.items then Some(n.items[item])
      else LastTold(notices[..|notices| - 1], client, item)
  }

  ghost predicate Tells(sent: seq<Notice>, client: Client, item: DataItemId) {
    exists i :: 0 <= i < |sent| && sent[i].client == client && item in sent[i].items
  }

  /** Notices taken from the cache bring those they mention up to date and leave the rest as it was. */
  lemma {:induction false} LastToldAfter(notices: seq<Notice>, sent: seq<Notice>, cache: map<DataItemId, Value>,
                                         client: Client, item: DataItemId)
    requires forall i :: 0 <= i < |sent| ==> sent[i].items.Items <= cache.Items
    ensures Tells(sent, client, item) ==> item in cache && LastTold(notices + sent, client, item) == Some(cache[item])
    ensures !Tells(sent, client, item) ==> LastTold(notices + sent, client, item) == LastTold(notices, client, item)
  {
    if sent == [] {
      assert notices + sent == notices;
    } else {
      var k := |sent| - 1;
      var n := sent[k];
      LastToldAfter(notices, sent[..k], cache, client, item);
      assert (notices + sent)[..|notices + sent| - 1] == notices + sent[..k];
      if n.client == client && item in n.items {
        assert (item, n.items[item]) in n.items.Items;
        assert (item, n.items[item]) in cache.Items;
      } else if Tells(sent, client, item) {
        var i :| 0 <= i < |sent| && sent[i].client == client && item in sent[i].items;
        assert sent[..k][i] == sent[i];
      }
    }
  }

  /** Every client knows the cached value of every cached item it wants. */
  ghost predicate UpToDate(s: State) {
    forall c, d :: Has(s.dataItemToClients, d, c) && d in s.cache ==> LastTold(s.notices, c, d) == Some(s.cache[d])
  }

  lemma {:induction false} CacheChangesWhereUpdated(cache: map<DataItemId, Value>, received: seq<Option<DataItem>>,
                                                    d: DataItemId)
    ensures d in Updated(cache, received) ==> d in CacheAfter(cache, received)
    ensures d !in Updated(cache, received) ==>
              && (d in CacheAfter(cache, received) <==> d in cache)
              && (d in cache ==> CacheAfter(cache, received)[d] == cache[d])
  {
    if received != [] {
      CacheChangesWhereUpdated(cache, received[..|received| - 1], d);
    }
  }

  /** A notification reaches exactly the clients that want an updated item, each once, with exactly its
      updated items. */
  lemma NotifiedExactly(s: State, received: seq<Option<DataItem>>, t: State, client: Client, item: DataItemId)
    requires Inverse(s) && Step(s, NotifyReq(received), t)
    ensures var sent := t.notices[|s.notices|..];
            && (Tells(sent, client, item) <==>
                  item in Updated(s.cache, received) && Has(s.dataItemToClients, item, client))
            && (forall i :: 0 <= i < |sent| ==> sent[i].items != map[] && sent[i].items.Items <= t.cache.Items)
            && forall i, j :: 0 <= i < j < |sent| ==> sent[i].client != sent[j].client
  {
    var sent, updated := t.notices[|s.notices|..], Updated(s.cache, received);
    var clients :| AreClientsOf(s, updated, clients) && Delivered(s, t.cache, updated, clients, sent);
    forall i | 0 <= i < |sent| ensures sent[i].items != map[] && sent[i].items.Items <= t.cache.Items {
      assert sent[i] in sent;
    }
    assert Has(s.clientToDataItems, client, item) <==> Has(s.dataItemToClients, item, client);
    if Tells(sent, client, item) {
      var i :| 0 <= i < |sent| && sent[i].client == client && item in sent[i].items;
      assert sent[i] in sent;
    }
    if item in updated && Has(s.dataItemToClients, item, client) {
      CacheChangesWhereUpdated(s.cache, received, item);
      assert client in clients && item in ToldTo(s, t.cache, updated, client);
      var n :| n in sent && n.client == client;
      var i :| 0 <= i < |sent| && sent[i] == n;
      assert sent[i].client == client && item in sent[i].items;
    }
  }

  lemma NotifyKeepsUpToDate(s: State, received: seq<Option<DataItem>>, t: State)
    requires Inverse(s) && UpToDate(s) && Step(s, NotifyReq(received), t)
    ensures UpToDate(t)
  {
    var sent := t.notices[|s.notices|..];
    assert t.notices == s.notices + sent;
    forall c, d | Has(t.dataItemToClients, d, c) && d in t.cache ensures LastTold(t.notices, c, d) == Some(t.cache[d]) {
      NotifiedExactly(s, received, t, c, d);
      LastToldAfter(s.notices, sent, t.cache, c, d);
      CacheChangesWhereUpdated(s.cache, received, d);
    }
  }

  lemma SubscribeKeepsUpToDate(s: State, m: Message, t: State)
    requires Inverse(s) && UpToDate(s) && m.SubscribeReq? && Step(s, m, t)
    ensures UpToDate(t)
  {
    var sent := CachedNotice(s.cache, m.items, m.client);
    SubscribeKeepsInverse(s, m, t);
    forall c, d | Has(t.dataItemToClients, d, c) && d in t.cache ensures LastTold(t.notices, c, d) == Some(t.cache[d]) {
      LastToldAfter(s.notices, sent, t.cache, c, d);
      if c == m.client && d in m.items {
        assert d in Restrict(s.cache, m.items);
        assert sent[0].client == c && d in sent[0].items;
      }
    }
  }

  /** In every run every client has last been told the cached value of every cached item it wants. */
  lemma {:induction false} ClientsAreUpToDate(states: seq<State>, messages: seq<Message>)
    requires IsRun(states, messages)
    ensures var s := states[|messages|];
            forall c, d :: Wants(messages, c, d) && d in s.cache ==> LastTold(s.notices, c, d) == Some(s.cache[d])
    ensures UpToDate(states[|messages|])
  {
    var n := |messages|;
    IndexHoldsTheSubscriptions(states, messages);
    if n > 0 {
      var s, m, t := states[n - 1], messages[n - 1], states[n];
      ClientsAreUpToDate(states[..n], messages[..n - 1]);
      IndexHoldsTheSubscriptions(states[..n], messages[..n - 1]);
      assert Step(s, m, t);
      match m {
        case SubscribeReq(_, _, _) => SubscribeKeepsUpToDate(s, m, t);
        case NotifyReq(received) => NotifyKeepsUpToDate(s, received, t);
        case SetSubsObj(_) =>
        case _ => DropKeepsInverse(s, m, t);
      }
    }
  }
}
