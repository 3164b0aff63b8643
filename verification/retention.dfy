/** The retention hooks of the scheduler module: the save pass writes every
    host and service of the daemon's retention data to the cache, the load
    pass reads back the objects the daemon currently tracks. Each pass takes
    a fresh client from the server pool, isolates per-object faults, and
    releases the client at the end. */
module Retention {
  import opened Maybe
  import opened ServerPool
  import opened RetentionKeys
  import opened KeyValueStore

  /** A pickled object, as stored in the cache. */
  type Bytes = seq<bv8>

  /** A service is identified by its host's name and its description. */
  datatype ServiceId = ServiceId(host: string, desc: string)

  /** What the daemon hands over on save and gets back on load: a retained
      object (of type `V`) per host name and per service. */
  datatype RetentionData<V> = RetentionData(hosts: map<string, V>, services: map<ServiceId, V>)

  /** The pickling pair. `dump` fails (`None`) on an object it cannot
      serialise; `load` fails on bytes it cannot deserialise. */
  datatype Codec<!V> = Codec(dump: V -> Option<Bytes>, load: Bytes -> Option<V>)

  /** The memcache transport, seen as predicates: which addresses accept a
      connection, which `set` calls store their value, which keys `get` can
      read without raising. */
  datatype Transport = Transport(
    connects: string -> bool,
    accepts: (string, Bytes) -> bool,
    readable: string -> bool)

  /** A pass either runs to its end or raises out of the hook. */
  datatype PassOutcome = Completed | Crashed

  datatype SaveResult = SaveResult(store: Store<Bytes>, outcome: PassOutcome)

  /** A load pass that reaches its end hands `data` to the daemon's
      `restore_retention_data` and returns `returned`; one that crashes
      restores nothing. */
  datatype LoadResult<V> = Restored(data: RetentionData<V>, returned: bool) | LoadCrashed

  function ServiceIdKey(id: ServiceId): string
  {
    ServiceKey(id.host, id.desc)
  }

  /** `order` lists every key of a dictionary exactly once, as iterating
      over a Python dict does. */
  predicate Enumerates<K(==)>(order: seq<K>, keys: set<K>)
  {
    && (forall i, j :: 0 <= i < j < |order| ==> order[i] != order[j])
    && (forall i :: 0 <= i < |order| ==> order[i] in keys)
    && (forall k :: k in keys ==> k in order)
  }

  /** Every host name of the data set holds no comma and no "SPACE", and no
      part of a service identity holds "SPACE". */
  predicate ValidIdentities<V>(data: RetentionData<V>)
  {
    && (forall h :: h in data.hosts ==> ValidHostName(h))
    && (forall id :: id in data.services ==> ValidHostName(id.host) && ValidServiceDesc(id.desc))
  }

  /** The same for the identities the daemon tracks. */
  predicate ValidTracked(trackedHosts: seq<string>, trackedServices: seq<ServiceId>)
  {
    && (forall i :: 0 <= i < |trackedHosts| ==> ValidHostName(trackedHosts[i]))
    && (forall i :: 0 <= i < |trackedServices| ==>
          ValidHostName(trackedServices[i].host) && ValidServiceDesc(trackedServices[i].desc))
  }

  /** `k` is the key of some host or service of the data set. */
  predicate DerivedKey<V>(data: RetentionData<V>, k: string)
  {
    || (exists h :: h in data.hosts && HostKey(h) == k)
    || (exists id :: id in data.services && ServiceIdKey(id) == k)
  }

  /** One object's save step: serialise, then `set`. A fault in either
      stores nothing. */
  function ItemWrite<V>(key: string, v: V, codec: Codec<V>, tr: Transport): Write<Bytes>
  {
    match codec.dump(v)
    case None => Write(key, None)
    case Some(b) => Write(key, if tr.accepts(key, b) then Some(b) else None)
  }

  /** The save steps of a dictionary's entries in iteration order. */
  function ItemWrites<I(==), V>(items: map<I, V>, order: seq<I>, keyOf: I -> string,
                                  codec: Codec<V>, tr: Transport): (ws: seq<Write<Bytes>>)
    requires forall i :: 0 <= i < |order| ==> order[i] in items
    ensures |ws| == |order|
  {
    seq(|order|, i requires 0 <= i < |order| => ItemWrite(keyOf(order[i]), items[order[i]], codec, tr))
  }

  /** The host loop, then the service loop. */
  function SaveWrites<V>(data: RetentionData<V>, hostOrder: seq<string>, serviceOrder: seq<ServiceId>,
                            codec: Codec<V>, tr: Transport): seq<Write<Bytes>>
    requires Enumerates(hostOrder, data.hosts.Keys) && Enumerates(serviceOrder, data.services.Keys)
  {
    ItemWrites(data.hosts, hostOrder, HostKey, codec, tr)
      + ItemWrites(data.services, serviceOrder, ServiceIdKey, codec, tr)
  }

  /** Step `i` of the save pass is the host loop's step for the `i`-th host
      name, or the service loop's step for a service. */
  lemma SaveWriteAt<V>(data: RetentionData<V>, hostOrder: seq<string>, serviceOrder: seq<ServiceId>,
                       codec: Codec<V>, tr: Transport, i: nat)
    requires Enumerates(hostOrder, data.hosts.Keys) && Enumerates(serviceOrder, data.services.Keys)
    requires i < |hostOrder| + |serviceOrder|
    ensures |SaveWrites(data, hostOrder, serviceOrder, codec, tr)| == |hostOrder| + |serviceOrder|
    ensures i < |hostOrder| ==>
              SaveWrites(data, hostOrder, serviceOrder, codec, tr)[i]
                == ItemWrite(HostKey(hostOrder[i]), data.hosts[hostOrder[i]], codec, tr)
    ensures |hostOrder| <= i ==>
              SaveWrites(data, hostOrder, serviceOrder, codec, tr)[i]
                == ItemWrite(ServiceIdKey(serviceOrder[i - |hostOrder|]),
                             data.services[serviceOrder[i - |hostOrder|]], codec, tr)
  {
    var hw := ItemWrites(data.hosts, hostOrder, HostKey, codec, tr);
    var sw := ItemWrites(data.services, serviceOrder, ServiceIdKey, codec, tr);
    assert SaveWrites(data, hostOrder, serviceOrder, codec, tr) == hw + sw;
    if i >= |hostOrder| {
      assert (hw + sw)[i] == sw[i - |hostOrder|];
    }
  }

  /** The host loop's step for the `i`-th host name. */
  lemma SaveWriteOfHost<V>(data: RetentionData<V>, hostOrder: seq<string>, serviceOrder: seq<ServiceId>,
                           codec: Codec<V>, tr: Transport, i: nat)
    requires Enumerates(hostOrder, data.hosts.Keys) && Enumerates(serviceOrder, data.services.Keys)
    requires i < |hostOrder|
    ensures i < |SaveWrites(data, hostOrder, serviceOrder, codec, tr)|
    ensures SaveWrites(data, hostOrder, serviceOrder, codec, tr)[i]
              == ItemWrite(HostKey(hostOrder[i]), data.hosts[hostOrder[i]], codec, tr)
  {
    SaveWriteAt(data, hostOrder, serviceOrder, codec, tr, i);
  }

  /** The service loop's step for the `j`-th service, after all host steps. */
  lemma SaveWriteOfService<V>(data: RetentionData<V>, hostOrder: seq<string>, serviceOrder: seq<ServiceId>,
                              codec: Codec<V>, tr: Transport, j: nat)
    requires Enumerates(hostOrder, data.hosts.Keys) && Enumerates(serviceOrder, data.services.Keys)
    requires j < |serviceOrder|
    ensures |hostOrder| + j < |SaveWrites(data, hostOrder, serviceOrder, codec, tr)|
    ensures SaveWrites(data, hostOrder, serviceOrder, codec, tr)[|hostOrder| + j]
              == ItemWrite(ServiceIdKey(serviceOrder[j]), data.services[serviceOrder[j]], codec, tr)
  {
    SaveWriteAt(data, hostOrder, serviceOrder, codec, tr, |hostOrder| + j);
  }

  /** Every save step writes under the key of one object of the data set. */
  lemma SaveWritesDerived<V>(data: RetentionData<V>, hostOrder: seq<string>, serviceOrder: seq<ServiceId>,
                             codec: Codec<V>, tr: Transport, i: nat)
    requires Enumerates(hostOrder, data.hosts.Keys) && Enumerates(serviceOrder, data.services.Keys)
    requires i < |SaveWrites(data, hostOrder, serviceOrder, codec, tr)|
    ensures DerivedKey(data, SaveWrites(data, hostOrder, serviceOrder, codec, tr)[i].key)
  {
    SaveWriteAt(data, hostOrder, serviceOrder, codec, tr, i);
    if i < |hostOrder| {
      assert hostOrder[i] in data.hosts;
    } else {
      assert serviceOrder[i - |hostOrder|] in data.services;
    }
  }

  /** `hook_save_retention`. Without a reachable server every `set` fails on
      the missing client and the final `disconnect_all` raises: nothing is
      stored and the pass crashes. Otherwise every save step is attempted,
      a faulting one never stops the loop, and only keys derived from the
      data set can change. */
  function SaveRetention<V>(pool: seq<string>, tr: Transport, codec: Codec<V>, store: Store<Bytes>,
                               data: RetentionData<V>, hostOrder: seq<string>, serviceOrder: seq<ServiceId>)
    : (r: SaveResult)
    requires Enumerates(hostOrder, data.hosts.Keys) && Enumerates(serviceOrder, data.services.Keys)
    ensures r.outcome.Crashed? <==> SelectServer(pool, tr.connects).None?
    ensures r.outcome.Crashed? ==> r.store == store
    ensures forall k :: !DerivedKey(data, k) ==> Unchanged(store, r.store, k)
  {
    if SelectServer(pool, tr.connects).None? then
      SaveResult(store, Crashed)
    else
      var ws := SaveWrites(data, hostOrder, serviceOrder, codec, tr);
      assert forall k :: !DerivedKey(data, k) ==> Unchanged(store, ApplyAll(store, ws), k) by {
        forall k | !DerivedKey(data, k)
          ensures Unchanged(store, ApplyAll(store, ws), k)
        {
          forall i | 0 <= i < |ws|
            ensures !StoresAt(ws, i, k)
          {
            SaveWritesDerived(data, hostOrder, serviceOrder, codec, tr, i);
          }
          ApplyAllKeepsUnstored(store, ws, k);
        }
      }
      SaveResult(ApplyAll(store, ws), Completed)
  }

  /** One object's load step: a `get` that raises, an absent key and bytes
      that do not deserialise all yield nothing. */
  function Fetch<V>(store: Store<Bytes>, key: string, codec: Codec<V>, tr: Transport): Option<V>
  {
    if tr.readable(key) && key in store then codec.load(store[key]) else None
  }

  /** The load loop over `ids`, adding each fetched object to `acc`. */
  function LoadInto<I(==), V>(acc: map<I, V>, ids: seq<I>, keyOf: I -> string,
                                store: Store<Bytes>, codec: Codec<V>, tr: Transport): map<I, V>
    decreases |ids|
  {
    if ids == [] then acc
    else
      var next := match Fetch(store, keyOf(ids[0]), codec, tr)
        case Some(v) => acc[ids[0] := v]
        case None => acc;
      LoadInto(next, ids[1..], keyOf, store, codec, tr)
  }

  /** The loop's result does not depend on the order of `ids`: an identity is
      in it exactly when it was there already or is listed and fetches, and
      a listed identity that fetches maps to what it fetched. */
  lemma {:induction false} LoadIntoEntry<I, V>(acc: map<I, V>, ids: seq<I>, keyOf: I -> string,
                                                     store: Store<Bytes>, codec: Codec<V>, tr: Transport, id: I)
    ensures id in LoadInto(acc, ids, keyOf, store, codec, tr) <==>
              id in acc || (id in ids && Fetch(store, keyOf(id), codec, tr).Some?)
    ensures id in ids && Fetch(store, keyOf(id), codec, tr).Some? ==>
              LoadInto(acc, ids, keyOf, store, codec, tr)[id] == Fetch(store, keyOf(id), codec, tr).value
    ensures id in acc && !(id in ids && Fetch(store, keyOf(id), codec, tr).Some?) ==>
              LoadInto(acc, ids, keyOf, store, codec, tr)[id] == acc[id]
    decreases |ids|
  {
    if ids != [] {
      var next := match Fetch(store, keyOf(ids[0]), codec, tr)
        case Some(v) => acc[ids[0] := v]
        case None => acc;
      LoadIntoEntry(next, ids[1..], keyOf, store, codec, tr, id);
      assert id in ids <==> id == ids[0] || id in ids[1..];
    }
  }

  /** `hook_load_retention`. Without a reachable server every `get` fails on
      the missing client and the final `disconnect_all` raises, so nothing is
      restored. Otherwise the hook returns True, and the restored data holds
      exactly the tracked hosts and services whose keys fetch and
      deserialise, each mapped to what it fetched; an absent key contributes
      nothing and is no error. */
  function LoadRetention<V>(pool: seq<string>, tr: Transport, codec: Codec<V>, store: Store<Bytes>,
                               trackedHosts: seq<string>, trackedServices: seq<ServiceId>): (r: LoadResult<V>)
    ensures r.LoadCrashed? <==> SelectServer(pool, tr.connects).None?
    ensures r.Restored? ==> r.returned
    ensures r.Restored? ==> forall h :: h in r.data.hosts <==>
              h in trackedHosts && Fetch(store, HostKey(h), codec, tr).Some?
    ensures r.Restored? ==> forall h :: h in r.data.hosts ==>
              Fetch(store, HostKey(h), codec, tr) == Some(r.data.hosts[h])
    ensures r.Restored? ==> forall id :: id in r.data.services <==>
              id in trackedServices && Fetch(store, ServiceIdKey(id), codec, tr).Some?
    ensures r.Restored? ==> forall id :: id in r.data.services ==>
              Fetch(store, ServiceIdKey(id), codec, tr) == Some(r.data.services[id])
    ensures r.Restored? ==> forall h :: HostKey(h) !in store ==> h !in r.data.hosts
    ensures r.Restored? ==> forall id :: ServiceIdKey(id) !in store ==> id !in r.data.services
  {
    if SelectServer(pool, tr.connects).None? then
      LoadCrashed
    else
      var hosts := LoadInto(map[], trackedHosts, HostKey, store, codec, tr);
      var services := LoadInto(map[], trackedServices, ServiceIdKey, store, codec, tr);
      assert forall h :: h in hosts <==> h in trackedHosts && Fetch(store, HostKey(h), codec, tr).Some? by {
        forall h: string {
          LoadIntoEntry(map[], trackedHosts, HostKey, store, codec, tr, h);
        }
      }
      assert forall h :: h in hosts ==> Fetch(store, HostKey(h), codec, tr) == Some(hosts[h]) by {
        forall h: string {
          LoadIntoEntry(map[], trackedHosts, HostKey, store, codec, tr, h);
        }
      }
      assert forall id :: id in services <==> id in trackedServices && Fetch(store, ServiceIdKey(id), codec, tr).Some? by {
        forall id: ServiceId {
          LoadIntoEntry(map[], trackedServices, ServiceIdKey, store, codec, tr, id);
        }
      }
      assert forall id :: id in services ==> Fetch(store, ServiceIdKey(id), codec, tr) == Some(services[id]) by {
        forall id: ServiceId {
          LoadIntoEntry(map[], trackedServices, ServiceIdKey, store, codec, tr, id);
        }
      }
      Restored(RetentionData(hosts, services), true)
  }
}
