/** `LocUnorderedSetMap`: a map from keys to sets of values that drops an entry when its set becomes
    empty.  Read as a relation, `add` inserts a product of keys and values and `trimOrRemove`
    deletes one. */
module SetMap {

  ghost predicate Has<K(!new), V(!new)>(m: map<K, set<V>>, key: K, val: V) {
    key in m && val in m[key]
  }

  ghost predicate NoEmptyEntry<K(!new), V(!new)>(m: map<K, set<V>>) {
    forall k :: k in m ==> m[k] != {}
  }

  /** `after` is `before` with every pair of `keys` and `vals` added. */
  ghost predicate Added<K(!new), V(!new)>(before: map<K, set<V>>, keys: set<K>, vals: set<V>, after: map<K, set<V>>) {
    && (forall k :: k in after <==> k in before || (k in keys && vals != {}))
    && forall k :: k in after ==>
         after[k] == (if k in before then before[k] else {}) + (if k in keys then vals else {})
  }

  /** `after` is `before` with every pair of `keys` and `vals` deleted, and the entries of `keys` that
      are left without values dropped. */
  ghost predicate Trimmed<K(!new), V(!new)>(before: map<K, set<V>>, keys: set<K>, vals: set<V>, after: map<K, set<V>>) {
    && (forall k :: k in after <==> k in before && !(k in keys && before[k] <= vals))
    && forall k :: k in after ==> after[k] == if k in keys then before[k] - vals else before[k]
  }

  lemma AddedRelation<K(!new), V(!new)>(before: map<K, set<V>>, keys: set<K>, vals: set<V>, after: map<K, set<V>>,
                                        k: K, v: V)
    requires Added(before, keys, vals, after)
    ensures Has(after, k, v) <==> Has(before, k, v) || (k in keys && v in vals)
  {
  }

  lemma TrimmedRelation<K(!new), V(!new)>(before: map<K, set<V>>, keys: set<K>, vals: set<V>, after: map<K, set<V>>,
                                          k: K, v: V)
    requires Trimmed(before, keys, vals, after)
    ensures Has(after, k, v) <==> Has(before, k, v) && !(k in keys && v in vals)
  {
  }

  lemma AddedOneMore<K(!new), V(!new)>(start: map<K, set<V>>, keys: set<K>, key: K, vals: set<V>,
                                       before: map<K, set<V>>, after: map<K, set<V>>)
    requires Added(start, keys, vals, before) && key !in keys && Added(before, {key}, vals, after)
    ensures Added(start, keys + {key}, vals, after)
  {
  }

  lemma TrimmedOneMore<K(!new), V(!new)>(start: map<K, set<V>>, keys: set<K>, key: K, vals: set<V>,
                                         before: map<K, set<V>>, after: map<K, set<V>>)
    requires Trimmed(start, keys, vals, before) && key !in keys && Trimmed(before, {key}, vals, after)
    ensures Trimmed(start, keys + {key}, vals, after)
  {
  }

  lemma TrimmedNothing<K(!new), V(!new)>(m: map<K, set<V>>, vals: set<V>)
    ensures Trimmed(m, {}, vals, m) && Gone(m, {}, vals, {}) && Emptied(m, {}, vals, {})
  {
  }

  /** Removes from `fromSet` what is also in `rVals`, and reports it. */
  method TrimSet<T(==)>(fromSet: set<T>, rVals: set<T>) returns (trimmed: set<T>, goneVals: set<T>)
    ensures trimmed == fromSet - rVals && goneVals == fromSet * rVals
  {
    trimmed, goneVals := fromSet, {};
    var rest := rVals;
    while rest != {}
      invariant rest <= rVals
      invariant trimmed == fromSet - (rVals - rest) && goneVals == fromSet * (rVals - rest)
      decreases |rest|
    {
      var val :| val in rest;
      rest := rest - {val};
      if val in trimmed {
        trimmed, goneVals := trimmed - {val}, goneVals + {val};
      }
    }
  }

  class LocUnorderedSetMap<K(!new, ==), V(!new, ==)> {
    var mMap: map<K, set<V>>

    constructor ()
      ensures mMap == map[]
    {
      mMap := map[];
    }

    method GetValSet(key: K) returns (vals: set<V>)
      ensures vals == if key in mMap then mMap[key] else {}
    {
      vals := if key in mMap then mMap[key] else {};
    }

    method Remove(key: K) returns (removed: bool)
      modifies this
      ensures mMap == old(mMap) - {key} && (removed <==> key in old(mMap))
    {
      removed := key in mMap;
      mMap := mMap - {key};
    }

    method Add(key: K, newVals: set<V>) returns (newEntryAdded: bool)
      modifies this
      ensures Added(old(mMap), {key}, newVals, mMap)
      ensures newEntryAdded <==> newVals != {} && key !in old(mMap)
    {
      newEntryAdded := false;
      if newVals != {} {
        if key in mMap {
          mMap := mMap[key := mMap[key] + newVals];
        } else {
          mMap := mMap[key := newVals];
          newEntryAdded := true;
        }
      }
    }

    /** Adds the values to the entry of every key; `newKeys` are the keys that had none. */
    method AddAll(keys: set<K>, newVals: set<V>) returns (newKeys: set<K>)
      modifies this
      ensures Added(old(mMap), keys, newVals, mMap)
      ensures newKeys == mMap.Keys - old(mMap).Keys
    {
      hide Added, NewKeys;
      ghost var start, done: set<K> := mMap, {};
      newKeys := {};
      var rest := keys;
      AddedNothing(start, newVals);
      while rest != {}
        invariant rest !! done && rest + done == keys
        invariant Added(start, done, newVals, mMap)
        invariant NewKeys(start, done, newVals, newKeys)
        decreases |rest|
      {
        var key :| key in rest;
        rest := rest - {key};
        ghost var before := mMap;
        NotYetAdded(start, done, newVals, before, key);
        var isNew := Add(key, newVals);
        AddedOneMore(start, done, key, newVals, before, mMap);
        NewKeysOneMore(start, done, key, newVals, newKeys);
        done := done + {key};
        if isNew {
          newKeys := newKeys + {key};
        }
      }
      assert done == keys;
      AddedKeys(start, keys, newVals, mMap, newKeys);
    }

    /** Trims one entry, dropping it if nothing is left. */
    method TrimOrRemoveEntry(key: K, rVals: set<V>) returns (removeEntry: bool, goneVals: set<V>)
      requires key in mMap
      modifies this
      ensures Trimmed(old(mMap), {key}, rVals, mMap)
      ensures removeEntry <==> old(mMap[key]) <= rVals
      ensures goneVals == old(mMap[key]) * rVals
    {
      ghost var vals := mMap[key];
      var trimmed;
      trimmed, goneVals := TrimSet(mMap[key], rVals);
      mMap := mMap[key := trimmed];
      removeEntry := trimmed == {};
      assert vals <= rVals ==> vals - rVals == {};
      assert vals - rVals == {} ==> vals <= rVals by {
        assert vals <= (vals - rVals) + rVals;
      }
      if removeEntry {
        mMap := mMap - {key};
      }
    }

    /** Trims the entries of all the keys; reports the dropped keys and the deleted values. */
    method TrimOrRemove(keys: set<K>, rVals: set<V>) returns (goneKeys: set<K>, goneVals: set<V>)
      modifies this
      ensures Trimmed(old(mMap), keys, rVals, mMap)
      ensures goneKeys == old(mMap).Keys - mMap.Keys
      ensures Gone(old(mMap), keys, rVals, goneVals)
    {
      hide Trimmed, Gone, Emptied;
      ghost var start, done: set<K> := mMap, {};
      goneKeys, goneVals := {}, {};
      var rest := keys;
      TrimmedNothing(start, rVals);
      while rest != {}
        invariant rest !! done && rest + done == keys
        invariant Trimmed(start, done, rVals, mMap)
        invariant Emptied(start, done, rVals, goneKeys)
        invariant Gone(start, done, rVals, goneVals)
        decreases |rest|
      {
        var key :| key in rest;
        rest := rest - {key};
        ghost var before := mMap;
        Untouched(start, done, rVals, before, key);
        EmptiedOneMore(start, done, key, rVals, goneKeys);
        if key in mMap {
          var removed, vals := TrimOrRemoveEntry(key, rVals);
          TrimmedOneMore(start, done, key, rVals, before, mMap);
          GoneOneMore(start, done, key, rVals, goneVals);
          if removed {
            goneKeys := goneKeys + {key};
          }
          goneVals := goneVals + vals;
        } else {
          TrimmedAbsent(start, done, key, rVals, mMap);
          GoneOneMore(start, done, key, rVals, goneVals);
          assert goneVals + {} == goneVals;
        }
        done := done + {key};
      }
      assert done == keys;
      TrimmedKeys(start, keys, rVals, mMap, goneKeys);
    }
  }

  /** The values deleted when `keys` are trimmed of `vals`. */
  ghost predicate Gone<K(!new), V(!new)>(before: map<K, set<V>>, keys: set<K>, vals: set<V>, goneVals: set<V>) {
    forall v :: v in goneVals <==> v in vals && exists k :: k in keys && Has(before, k, v)
  }

  lemma GoneOneMore<K(!new), V(!new)>(before: map<K, set<V>>, keys: set<K>, key: K, vals: set<V>, goneVals: set<V>)
    requires Gone(before, keys, vals, goneVals)
    ensures Gone(before, keys + {key}, vals, goneVals + if key in before then before[key] * vals else {})
  {
    var more := goneVals + if key in before then before[key] * vals else {};
    forall v ensures v in more <==> v in vals && exists k :: k in keys + {key} && Has(before, k, v) {
      if v in more {
        if v in goneVals {
          var k :| k in keys && Has(before, k, v);
          assert k in keys + {key};
        } else {
          assert key in keys + {key} && Has(before, key, v);
        }
      }
    }
  }

  lemma AddedNothing<K(!new), V(!new)>(m: map<K, set<V>>, vals: set<V>)
    ensures Added(m, {}, vals, m) && NewKeys(m, {}, vals, {})
  {
  }

  lemma Untouched<K(!new), V(!new)>(before: map<K, set<V>>, keys: set<K>, vals: set<V>, after: map<K, set<V>>, key: K)
    requires Trimmed(before, keys, vals, after) && key !in keys
    ensures key in before <==> key in after
    ensures key in before ==> before[key] == after[key]
  {
  }

  lemma TrimmedAbsent<K(!new), V(!new)>(start: map<K, set<V>>, keys: set<K>, key: K, vals: set<V>,
                                        after: map<K, set<V>>)
    requires Trimmed(start, keys, vals, after) && key !in start
    ensures Trimmed(start, keys + {key}, vals, after)
  {
  }

  lemma NotYetAdded<K(!new), V(!new)>(before: map<K, set<V>>, keys: set<K>, vals: set<V>, after: map<K, set<V>>, key: K)
    requires Added(before, keys, vals, after) && key !in keys
    ensures key in before <==> key in after
  {
  }

  /** The keys that get a new entry when `keys` are given `vals`. */
  ghost predicate NewKeys<K(!new), V(!new)>(before: map<K, set<V>>, keys: set<K>, vals: set<V>, newKeys: set<K>) {
    forall k :: k in newKeys <==> k in keys && k !in before && vals != {}
  }

  lemma NewKeysOneMore<K(!new), V(!new)>(before: map<K, set<V>>, keys: set<K>, key: K, vals: set<V>, newKeys: set<K>)
    requires NewKeys(before, keys, vals, newKeys)
    ensures key !in before && vals != {} ==> NewKeys(before, keys + {key}, vals, newKeys + {key})
    ensures !(key !in before && vals != {}) ==> NewKeys(before, keys + {key}, vals, newKeys)
  {
  }

  lemma AddedKeys<K(!new), V(!new)>(before: map<K, set<V>>, keys: set<K>, vals: set<V>, after: map<K, set<V>>,
                                    newKeys: set<K>)
    requires Added(before, keys, vals, after) && NewKeys(before, keys, vals, newKeys)
    ensures newKeys == after.Keys - before.Keys
  {
  }

  /** The keys that lose their entry when `keys` are trimmed of `vals`. */
  ghost predicate Emptied<K(!new), V(!new)>(before: map<K, set<V>>, keys: set<K>, vals: set<V>, goneKeys: set<K>) {
    forall k :: k in goneKeys <==> k in keys && k in before && before[k] <= vals
  }

  lemma EmptiedOneMore<K(!new), V(!new)>(before: map<K, set<V>>, keys: set<K>, key: K, vals: set<V>, goneKeys: set<K>)
    requires Emptied(before, keys, vals, goneKeys)
    ensures key in before && before[key] <= vals ==> Emptied(before, keys + {key}, vals, goneKeys + {key})
    ensures !(key in before && before[key] <= vals) ==> Emptied(before, keys + {key}, vals, goneKeys)
  {
  }

  lemma TrimmedKeys<K(!new), V(!new)>(before: map<K, set<V>>, keys: set<K>, vals: set<V>, after: map<K, set<V>>,
                                      goneKeys: set<K>)
    requires Trimmed(before, keys, vals, after) && Emptied(before, keys, vals, goneKeys)
    ensures goneKeys == before.Keys - after.Keys
  {
  }

  lemma AddedKeepsNoEmpty<K(!new), V(!new)>(before: map<K, set<V>>, keys: set<K>, vals: set<V>, after: map<K, set<V>>)
    requires Added(before, keys, vals, after) && NoEmptyEntry(before)
    ensures NoEmptyEntry(after)
  {
    forall k | k in after ensures after[k] != {} {
      if k in before {
        var v :| v in before[k];
        assert v in after[k];
      }
    }
  }

  lemma TrimmedKeepsNoEmpty<K(!new), V(!new)>(before: map<K, set<V>>, keys: set<K>, vals: set<V>, after: map<K, set<V>>)
    requires Trimmed(before, keys, vals, after) && NoEmptyEntry(before)
    ensures NoEmptyEntry(after)
  {
    forall k | k in after ensures after[k] != {} {
      if k in keys {
        var v :| v in before[k] && v !in vals;
        assert v in after[k];
      }
    }
  }
}
