/** What each message of the subscription index brings about, said from the messages alone: what the
    framework is told, what clients are told, and what the cache holds. */
module SubscriptionEffects {
  import opened Options
  import opened SetMap
  import opened Subscriptions

  // ---------------------------------------------------------------- what the framework is told

  /** `items` are the data items wanted after `messages`. */
  ghost predicate AreWanted(items: set<DataItemId>, messages: seq<Message>) {
    forall d :: d in items <==> IsWanted(messages, d)
  }

  /** `items` are the data items wanted after `messages` and not after `others`. */
  ghost predicate AreWantedOnly(items: set<DataItemId>, messages: seq<Message>, others: seq<Message>) {
    forall d :: d in items <==> IsWanted(messages, d) && !IsWanted(others, d)
  }

  /** Each call names the current object and is made exactly when it has items to name. */
  ghost predicate IsAnnounced(sent: seq<Call>, toRequestData: bool, earlier: seq<Message>, messages: seq<Message>) {
    exists items :: AreWantedOnly(items, messages, earlier) &&
      match Current(earlier)
      case None => sent == []
      case Some(obj) =>
        sent == if items == {} then [] else [if toRequestData then RequestData(obj, items) else Subscribe(obj, items)]
  }

  ghost predicate IsWithdrawn(sent: seq<Call>, earlier: seq<Message>, messages: seq<Message>) {
    exists items :: AreWantedOnly(items, earlier, messages) &&
      match Current(earlier)
      case None => sent == []
      case Some(obj) => sent == if items == {} then [] else [Unsubscribe(obj, items)]
  }

  ghost predicate IsHandedOver(sent: seq<Call>, obj: SubscriptionObj, earlier: seq<Message>) {
    exists items :: AreWanted(items, earlier) &&
      sent == if items == {} then [] else [Subscribe(obj, items), RequestData(obj, items)]
  }

  /** In every run, what a message has the framework told: a new object is told to subscribe and then to
      report everything wanted; the current object is told to request, or else to subscribe, exactly the
      items wanted after a subscription and not before; or to unsubscribe exactly those wanted before an
      unsubscription and not after; in one call, and in none if there is no object or no such item. */
  lemma CallsOfLastMessage(states: seq<State>, messages: seq<Message>)
    requires IsRun(states, messages) && messages != []
    ensures var n := |messages| - 1;
            var earlier, before, after := messages[..n], states[n].calls, states[n + 1].calls;
            && before <= after
            && var sent := after[|before|..];
               match messages[n]
               case SetSubsObj(obj) => IsHandedOver(sent, obj, earlier)
               case SubscribeReq(_, _, toRequestData) => IsAnnounced(sent, toRequestData, earlier, messages)
               case UnsubscribeReq(_, _) => IsWithdrawn(sent, earlier, messages)
               case UnsubscribeAllReq(_) => IsWithdrawn(sent, earlier, messages)
               case NotifyReq(_) => sent == []
  {
    hide IsWanted, Wants, IsHandedOver, IsAnnounced, IsWithdrawn;
    var n := |messages| - 1;
    var earlier, s, m, t := messages[..n], states[n], messages[n], states[n + 1];
    assert Step(s, m, t);
    KeysAreTheWanted(states, messages);
    KeysAreTheWanted(states[..n + 1], earlier);
    CurrentIs(states[..n + 1], earlier);
    var before, after := s.dataItemToClients.Keys, t.dataItemToClients.Keys;
    match m
    case SetSubsObj(obj) => HandedOverBy(SetCalls(obj, before), obj, before, earlier);
    case SubscribeReq(_, _, toRequestData) =>
      var sent := Announce(s.subscriptionObj, after - before, toRequestData);
      AnnouncedBy(sent, toRequestData, after - before, earlier, messages);
    case NotifyReq(_) =>
    case _ => WithdrawnBy(Withdraw(s.subscriptionObj, before - after), before - after, earlier, messages);
  }

  lemma HandedOverBy(sent: seq<Call>, obj: SubscriptionObj, items: set<DataItemId>, earlier: seq<Message>)
    requires AreWanted(items, earlier) && sent == SetCalls(obj, items)
    ensures IsHandedOver(sent, obj, earlier)
  {
  }

  lemma AnnouncedBy(sent: seq<Call>, toRequestData: bool, items: set<DataItemId>, earlier: seq<Message>,
                    messages: seq<Message>)
    requires AreWantedOnly(items, messages, earlier) && sent == Announce(Current(earlier), items, toRequestData)
    ensures IsAnnounced(sent, toRequestData, earlier, messages)
  {
    hide AreWantedOnly, Current;
  }

  lemma WithdrawnBy(sent: seq<Call>, items: set<DataItemId>, earlier: seq<Message>, messages: seq<Message>)
    requires AreWantedOnly(items, earlier, messages) && sent == Withdraw(Current(earlier), items)
    ensures IsWithdrawn(sent, earlier, messages)
  {
    hide AreWantedOnly, Current;
  }

  // ---------------------------------------------------------------- what clients are told

  /** A subscription is answered with one notice of exactly the cached ones of its items, whether the
      client wanted them before or not, and with none if there are none; and no other message but a
      notification sends any. */
  lemma NoticesOfStep(s: State, m: Message, t: State)
    requires Step(s, m, t) && !m.NotifyReq?
    ensures s.notices <= t.notices
    ensures var sent := t.notices[|s.notices|..];
            match m
            case SubscribeReq(client, items, _) =>
              && |sent| <= 1
              && (sent == [] <==> forall d :: d in items ==> d !in s.cache)
              && forall n :: n in sent ==>
                   && n.client == client
                   && (forall d :: d in n.items <==> d in items && d in s.cache)
                   && forall d :: d in n.items ==> n.items[d] == s.cache[d]
            case _ => sent == []
  {
    if m.SubscribeReq? {
      var told := Restrict(s.cache, m.items);
      if told == map[] {
        forall d | d in m.items ensures d !in s.cache { assert d !in told; }
      } else {
        var d :| d in told;
        assert d in m.items && d in s.cache;
      }
    }
  }

  // ---------------------------------------------------------------- what the cache holds

  /** Everything received in notifications, in order. */
  function Stream(messages: seq<Message>): seq<Option<DataItem>> {
    if messages == [] then []
    else
      var last := messages[|messages| - 1];
      Stream(messages[..|messages| - 1]) + if last.NotifyReq? then last.received else []
  }

  /** Whether a received item changes what is known of `d`: SystemStatus has to handle it, and then one
      that is not known yet has to be stored and one that is known has to differ. */
  predicate TakesEffect(known: bool, item: Option<DataItem>, d: DataItemId) {
    && item.Some? && item.value.id == d && item.value.handled
    && (known ==> item.value.copied) && (!known ==> item.value.stored)
  }

  /** The value of the last item `d` received that took effect. */
  function Latest(stream: seq<Option<DataItem>>, d: DataItemId): Option<Value> {
    if stream == [] then None
    else
      var earlier, item := Latest(stream[..|stream| - 1], d), stream[|stream| - 1];
      if TakesEffect(earlier.Some?, item, d) then Some(item.value.value) else earlier
  }

  function Cached(cache: map<DataItemId, Value>, d: DataItemId): Option<Value> {
    if d in cache then Some(cache[d]) else None
  }

  ghost predicate Mirrors(cache: map<DataItemId, Value>, stream: seq<Option<DataItem>>) {
    forall d :: Cached(cache, d) == Latest(stream, d)
  }

  lemma LatestAfter(stream: seq<Option<DataItem>>, item: Option<DataItem>, d: DataItemId)
    ensures Latest(stream + [item], d) ==
            if TakesEffect(Latest(stream, d).Some?, item, d) then Some(item.value.value) else Latest(stream, d)
  {
    assert (stream + [item])[..|stream|] == stream;
  }

  lemma {:induction false} CacheMirrors(cache: map<DataItemId, Value>, stream: seq<Option<DataItem>>,
                                        received: seq<Option<DataItem>>)
    requires Mirrors(cache, stream)
    ensures Mirrors(CacheAfter(cache, received), stream + received)
  {
    if received == [] {
      assert stream + received == stream;
    } else {
      var n := |received| - 1;
      var front, item := received[..n], received[n];
      CacheMirrors(cache, stream, front);
      var before := CacheAfter(cache, front);
      forall d ensures Cached(CacheAfter(cache, received), d) == Latest(stream + received, d) {
        assert stream + received == stream + front + [item];
        LatestAfter(stream + front, item, d);
        assert Cached(before, d) == Latest(stream + front, d);
        if item.Some? { assert Cached(before, item.value.id) == Latest(stream + front, item.value.id); }
      }
    }
  }

  /** Something in `received` takes effect on `d`. */
  ghost predicate AnyEffect(stream: seq<Option<DataItem>>, received: seq<Option<DataItem>>, d: DataItemId) {
    exists i :: 0 <= i < |received| && TakesEffect(Latest(stream + received[..i], d).Some?, received[i], d)
  }

  lemma AnyEffectStep(stream: seq<Option<DataItem>>, received: seq<Option<DataItem>>, d: DataItemId)
    requires received != []
    ensures var n := |received| - 1;
            AnyEffect(stream, received, d) <==>
            AnyEffect(stream, received[..n], d) || TakesEffect(Latest(stream + received[..n], d).Some?, received[n], d)
  {
    hide Latest;
    var n := |received| - 1;
    var front := received[..n];
    if AnyEffect(stream, front, d) {
      var i :| 0 <= i < n && TakesEffect(Latest(stream + front[..i], d).Some?, front[i], d);
      assert front[..i] == received[..i] && front[i] == received[i];
    }
    if AnyEffect(stream, received, d) {
      var i :| 0 <= i <= n && TakesEffect(Latest(stream + received[..i], d).Some?, received[i], d);
      if i < n { assert front[..i] == received[..i] && front[i] == received[i]; }
    }
  }

  /** The items a notification updates are those that some item in it takes effect on. */
  lemma {:induction false} UpdatedIff(cache: map<DataItemId, Value>, stream: seq<Option<DataItem>>,
                                      received: seq<Option<DataItem>>, d: DataItemId)
    requires Mirrors(cache, stream)
    ensures d in Updated(cache, received) <==> AnyEffect(stream, received, d)
  {
    if received != [] {
      hide Mirrors, Latest, AnyEffect;
      var n := |received| - 1;
      var front, item := received[..n], received[n];
      UpdatedIff(cache, stream, front, d);
      CacheMirrors(cache, stream, front);
      MirrorsAt(CacheAfter(cache, front), stream + front, d);
      AnyEffectStep(stream, received, d);
    }
  }

  lemma MirrorsAt(cache: map<DataItemId, Value>, stream: seq<Option<DataItem>>, d: DataItemId)
    requires Mirrors(cache, stream)
    ensures Cached(cache, d) == Latest(stream, d)
  {
  }

  /** In every run the cache holds, of each item, the value last received that took effect. */
  lemma {:induction false} CacheHoldsTheLatest(states: seq<State>, messages: seq<Message>)
    requires IsRun(states, messages)
    ensures Mirrors(states[|messages|].cache, Stream(messages))
  {
    var n := |messages|;
    if n > 0 {
      var s, m, t := states[n - 1], messages[n - 1], states[n];
      CacheHoldsTheLatest(states[..n], messages[..n - 1]);
      assert Step(s, m, t);
      if m.NotifyReq? {
        CacheMirrors(s.cache, Stream(messages[..n - 1]), m.received);
      } else {
        assert Stream(messages[..n - 1]) + [] == Stream(messages[..n - 1]);
      }
    }
  }

  /** In every run every client was last told, of each item it wants, the value last received that took
      effect, if there was one. */
  lemma ClientsKnowTheLatest(states: seq<State>, messages: seq<Message>, client: Client, item: DataItemId)
    requires IsRun(states, messages) && Wants(messages, client, item) && Latest(Stream(messages), item).Some?
    ensures LastTold(states[|messages|].notices, client, item) == Latest(Stream(messages), item)
  {
    ClientsAreUpToDate(states, messages);
    CacheHoldsTheLatest(states, messages);
    MirrorsAt(states[|messages|].cache, Stream(messages), item);
  }

  /** In every run a notification reaches exactly the clients that want an item on which something in it
      takes effect, each client once, with the last value that took effect. */
  lemma NotifiedOfEffects(states: seq<State>, messages: seq<Message>, client: Client, item: DataItemId)
    requires IsRun(states, messages) && messages != [] && messages[|messages| - 1].NotifyReq?
    ensures var n := |messages| - 1;
            var earlier, received := messages[..n], messages[n].received;
            && states[n].notices <= states[n + 1].notices
            && var sent := states[n + 1].notices[|states[n].notices|..];
               && (Tells(sent, client, item) <==>
                     && Wants(earlier, client, item)
                     && AnyEffect(Stream(earlier), received, item))
               && (forall k :: 0 <= k < |sent| && item in sent[k].items ==>
                     Some(sent[k].items[item]) == Latest(Stream(messages), item))
               && forall j, k :: 0 <= j < k < |sent| ==> sent[j].client != sent[k].client
  {
    hide Wants, Latest, Updated, CacheAfter, Mirrors, AnyEffect;
    var n := |messages| - 1;
    var earlier, s, t := messages[..n], states[n], states[n + 1];
    assert Step(s, messages[n], t);
    IndexHoldsTheSubscriptions(states[..n + 1], earlier);
    CacheHoldsTheLatest(states[..n + 1], earlier);
    CacheHoldsTheLatest(states, messages);
    UpdatedIff(s.cache, Stream(earlier), messages[n].received, item);
    NotifiedExactly(s, messages[n].received, t, client, item);
    MirrorsAt(t.cache, Stream(messages), item);
    var sent := t.notices[|s.notices|..];
    forall k | 0 <= k < |sent| && item in sent[k].items
      ensures Some(sent[k].items[item]) == Latest(Stream(messages), item)
    {
      assert (item, sent[k].items[item]) in sent[k].items.Items;
      assert (item, sent[k].items[item]) in t.cache.Items;
    }
  }
}
