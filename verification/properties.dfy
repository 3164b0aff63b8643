/** What the save and load passes promise together: save is idempotent,
    every object's save step decides its own key, and loading after saving
    gives back the saved objects the daemon still tracks. */
module RetentionProperties {
  import opened Maybe
  import opened ServerPool
  import opened RetentionKeys
  import opened KeyValueStore
  import opened Retention

  /** Deserialising what was serialised gives the object back. */
  ghost predicate Faithful<V(!new)>(codec: Codec<V>)
  {
    forall v, b :: codec.dump(v) == Some(b) ==> codec.load(b) == Some(v)
  }

  /** No object fails to serialise and no `set` or `get` raises. */
  ghost predicate NoFaults<V(!new)>(codec: Codec<V>, tr: Transport)
  {
    && (forall v :: codec.dump(v).Some?)
    && (forall k, b :: tr.accepts(k, b))
    && (forall k :: tr.readable(k))
  }

  /** The object saved under `key` can be read back: its save step stored it
      and its key is readable. */
  predicate Survives<V>(key: string, v: V, codec: Codec<V>, tr: Transport)
  {
    ItemWrite(key, v, codec, tr).value.Some? && tr.readable(key)
  }

  /** Saving the same data set twice leaves the same store, with the same
      outcome, as saving it once: every `set` overwrites. */
  lemma SaveIdempotent<V>(pool: seq<string>, tr: Transport, codec: Codec<V>, store: Store<Bytes>,
                          data: RetentionData<V>, hostOrder: seq<string>, serviceOrder: seq<ServiceId>)
    requires Enumerates(hostOrder, data.hosts.Keys) && Enumerates(serviceOrder, data.services.Keys)
    ensures var once := SaveRetention(pool, tr, codec, store, data, hostOrder, serviceOrder);
            SaveRetention(pool, tr, codec, once.store, data, hostOrder, serviceOrder) == once
  {
    if SelectServer(pool, tr.connects).Some? {
      ApplyAllIdempotent(store, SaveWrites(data, hostOrder, serviceOrder, codec, tr));
    }
  }

  /** With collision-free identities the save steps write pairwise distinct
      keys. */
  lemma SaveWritesDistinct<V>(data: RetentionData<V>, hostOrder: seq<string>, serviceOrder: seq<ServiceId>,
                              codec: Codec<V>, tr: Transport)
    requires Enumerates(hostOrder, data.hosts.Keys) && Enumerates(serviceOrder, data.services.Keys)
    requires ValidIdentities(data)
    ensures DistinctKeys(SaveWrites(data, hostOrder, serviceOrder, codec, tr))
  {
    var ws := SaveWrites(data, hostOrder, serviceOrder, codec, tr);
    var n := |hostOrder|;
    forall i, j | 0 <= i < j < |ws|
      ensures ws[i].key != ws[j].key
    {
      SaveWriteAt(data, hostOrder, serviceOrder, codec, tr, i);
      SaveWriteAt(data, hostOrder, serviceOrder, codec, tr, j);
      if j < n {
        assert hostOrder[i] in data.hosts && hostOrder[j] in data.hosts;
        HostKeyInjective(hostOrder[i], hostOrder[j]);
      } else if n <= i {
        var a, b := serviceOrder[i - n], serviceOrder[j - n];
        assert a in data.services && b in data.services;
        ServiceKeyInjective(a.host, a.desc, b.host, b.desc);
      } else {
        HostAndServiceKeysDiffer(hostOrder[i], serviceOrder[j - n].host, serviceOrder[j - n].desc);
      }
    }
  }

  /** After a completed save with collision-free identities, each host and
      each service is stored under its key with its serialised form when its
      own save step did not fault, whatever the other steps did; when its
      step faulted, its key holds what it held before. */
  lemma SaveStoresEachItem<V>(pool: seq<string>, tr: Transport, codec: Codec<V>, store: Store<Bytes>,
                              data: RetentionData<V>, hostOrder: seq<string>, serviceOrder: seq<ServiceId>)
    requires Enumerates(hostOrder, data.hosts.Keys) && Enumerates(serviceOrder, data.services.Keys)
    requires ValidIdentities(data)
    requires SelectServer(pool, tr.connects).Some?
    ensures var r := SaveRetention(pool, tr, codec, store, data, hostOrder, serviceOrder).store;
            forall h :: h in data.hosts ==>
              var w := ItemWrite(HostKey(h), data.hosts[h], codec, tr);
              (w.value.Some? ==> HostKey(h) in r && r[HostKey(h)] == w.value.value)
              && (w.value.None? ==> Unchanged(store, r, HostKey(h)))
    ensures var r := SaveRetention(pool, tr, codec, store, data, hostOrder, serviceOrder).store;
            forall id :: id in data.services ==>
              var w := ItemWrite(ServiceIdKey(id), data.services[id], codec, tr);
              (w.value.Some? ==> ServiceIdKey(id) in r && r[ServiceIdKey(id)] == w.value.value)
              && (w.value.None? ==> Unchanged(store, r, ServiceIdKey(id)))
  {
    forall h | h in data.hosts {
      SaveStoresHost(pool, tr, codec, store, data, hostOrder, serviceOrder, h);
    }
    forall id | id in data.services {
      SaveStoresService(pool, tr, codec, store, data, hostOrder, serviceOrder, id);
    }
  }

  /** The host part of `SaveStoresEachItem`, for one host. */
  lemma SaveStoresHost<V>(pool: seq<string>, tr: Transport, codec: Codec<V>, store: Store<Bytes>,
                          data: RetentionData<V>, hostOrder: seq<string>, serviceOrder: seq<ServiceId>, h: string)
    requires Enumerates(hostOrder, data.hosts.Keys) && Enumerates(serviceOrder, data.services.Keys)
    requires ValidIdentities(data)
    requires SelectServer(pool, tr.connects).Some?
    requires h in data.hosts
    ensures var r := SaveRetention(pool, tr, codec, store, data, hostOrder, serviceOrder).store;
            var w := ItemWrite(HostKey(h), data.hosts[h], codec, tr);
            && (w.value.Some? ==> HostKey(h) in r && r[HostKey(h)] == w.value.value)
            && (w.value.None? ==> Unchanged(store, r, HostKey(h)))
  {
    var ws := SaveWrites(data, hostOrder, serviceOrder, codec, tr);
    var i :| 0 <= i < |hostOrder| && hostOrder[i] == h;
    SaveWriteOfHost(data, hostOrder, serviceOrder, codec, tr, i);
    var w := ItemWrite(HostKey(h), data.hosts[h], codec, tr);
    assert ws[i] == w && w.key == HostKey(h);
    assert DistinctKeys(ws) by {
      SaveWritesDistinct(data, hostOrder, serviceOrder, codec, tr);
    }
    StepDecidesKey(store, ws, i, w);
    assert SaveRetention(pool, tr, codec, store, data, hostOrder, serviceOrder).store == ApplyAll(store, ws);
  }

  /** The service part of `SaveStoresEachItem`, for one service. */
  lemma SaveStoresService<V>(pool: seq<string>, tr: Transport, codec: Codec<V>, store: Store<Bytes>,
                             data: RetentionData<V>, hostOrder: seq<string>, serviceOrder: seq<ServiceId>,
                             id: ServiceId)
    requires Enumerates(hostOrder, data.hosts.Keys) && Enumerates(serviceOrder, data.services.Keys)
    requires ValidIdentities(data)
    requires SelectServer(pool, tr.connects).Some?
    requires id in data.services
    ensures var r := SaveRetention(pool, tr, codec, store, data, hostOrder, serviceOrder).store;
            var w := ItemWrite(ServiceIdKey(id), data.services[id], codec, tr);
            && (w.value.Some? ==> ServiceIdKey(id) in r && r[ServiceIdKey(id)] == w.value.value)
            && (w.value.None? ==> Unchanged(store, r, ServiceIdKey(id)))
  {
    var ws := SaveWrites(data, hostOrder, serviceOrder, codec, tr);
    var i :| 0 <= i < |serviceOrder| && serviceOrder[i] == id;
    SaveWriteOfService(data, hostOrder, serviceOrder, codec, tr, i);
    var w := ItemWrite(ServiceIdKey(id), data.services[id], codec, tr);
    assert ws[|hostOrder| + i] == w && w.key == ServiceIdKey(id);
    assert DistinctKeys(ws) by {
      SaveWritesDistinct(data, hostOrder, serviceOrder, codec, tr);
    }
    StepDecidesKey(store, ws, |hostOrder| + i, w);
    assert SaveRetention(pool, tr, codec, store, data, hostOrder, serviceOrder).store == ApplyAll(store, ws);
  }

  /** `ApplyAllDistinctKeys` for a write named by the caller, so that the
      callers reason about `w` rather than about the indexed `ws[n]`. */
  lemma StepDecidesKey(store: Store<Bytes>, ws: seq<Write<Bytes>>, n: nat, w: Write<Bytes>)
    requires DistinctKeys(ws) && n < |ws| && ws[n] == w
    ensures w.value.Some? ==> w.key in ApplyAll(store, ws) && ApplyAll(store, ws)[w.key] == w.value.value
    ensures w.value.None? ==> Unchanged(store, ApplyAll(store, ws), w.key)
  {
    ApplyAllDistinctKeys(store, ws, n);
  }

  /** A collision-free host name the data set does not hold has no save step
      writing its key. */
  lemma HostKeyNotSaved<V>(data: RetentionData<V>, hostOrder: seq<string>, serviceOrder: seq<ServiceId>,
                           codec: Codec<V>, tr: Transport, h: string)
    requires Enumerates(hostOrder, data.hosts.Keys) && Enumerates(serviceOrder, data.services.Keys)
    requires ValidIdentities(data) && ValidHostName(h) && h !in data.hosts
    ensures !Stores(SaveWrites(data, hostOrder, serviceOrder, codec, tr), HostKey(h))
  {
    var ws := SaveWrites(data, hostOrder, serviceOrder, codec, tr);
    forall i | 0 <= i < |ws|
      ensures ws[i].key != HostKey(h)
    {
      SaveWriteAt(data, hostOrder, serviceOrder, codec, tr, i);
      if i < |hostOrder| {
        assert hostOrder[i] in data.hosts;
        HostKeyInjective(hostOrder[i], h);
      } else {
        var id := serviceOrder[i - |hostOrder|];
        HostAndServiceKeysDiffer(h, id.host, id.desc);
      }
    }
  }

  /** A collision-free service identity the data set does not hold has no
      save step writing its key. */
  lemma ServiceKeyNotSaved<V>(data: RetentionData<V>, hostOrder: seq<string>, serviceOrder: seq<ServiceId>,
                              codec: Codec<V>, tr: Transport, id: ServiceId)
    requires Enumerates(hostOrder, data.hosts.Keys) && Enumerates(serviceOrder, data.services.Keys)
    requires ValidIdentities(data) && ValidHostName(id.host) && ValidServiceDesc(id.desc)
    requires id !in data.services
    ensures !Stores(SaveWrites(data, hostOrder, serviceOrder, codec, tr), ServiceIdKey(id))
  {
    var ws := SaveWrites(data, hostOrder, serviceOrder, codec, tr);
    forall i | 0 <= i < |ws|
      ensures ws[i].key != ServiceIdKey(id)
    {
      SaveWriteAt(data, hostOrder, serviceOrder, codec, tr, i);
      if i < |hostOrder| {
        HostAndServiceKeysDiffer(hostOrder[i], id.host, id.desc);
      } else {
        var other := serviceOrder[i - |hostOrder|];
        assert other in data.services;
        ServiceKeyInjective(other.host, other.desc, id.host, id.desc);
      }
    }
  }

  /** What a host's key fetches after saving into an empty store. */
  lemma HostFetchAfterSave<V(!new)>(data: RetentionData<V>, hostOrder: seq<string>, serviceOrder: seq<ServiceId>,
                                    codec: Codec<V>, tr: Transport, h: string)
    requires Enumerates(hostOrder, data.hosts.Keys) && Enumerates(serviceOrder, data.services.Keys)
    requires ValidIdentities(data) && ValidHostName(h) && Faithful(codec)
    ensures Fetch(ApplyAll(map[], SaveWrites(data, hostOrder, serviceOrder, codec, tr)), HostKey(h), codec, tr)
              == if h in data.hosts && Survives(HostKey(h), data.hosts[h], codec, tr)
                 then Some(data.hosts[h]) else None
  {
    var ws := SaveWrites(data, hostOrder, serviceOrder, codec, tr);
    if h in data.hosts {
      var i :| 0 <= i < |hostOrder| && hostOrder[i] == h;
      SaveWriteOfHost(data, hostOrder, serviceOrder, codec, tr, i);
      var w := ItemWrite(HostKey(h), data.hosts[h], codec, tr);
      assert ws[i] == w && w.key == HostKey(h);
      assert DistinctKeys(ws) by {
        SaveWritesDistinct(data, hostOrder, serviceOrder, codec, tr);
      }
      StepDecidesKey(map[], ws, i, w);
    } else {
      HostKeyNotSaved(data, hostOrder, serviceOrder, codec, tr, h);
      ApplyAllKeepsUnstored(map[], ws, HostKey(h));
    }
  }

  /** What a service's key fetches after saving into an empty store. */
  lemma ServiceFetchAfterSave<V(!new)>(data: RetentionData<V>, hostOrder: seq<string>, serviceOrder: seq<ServiceId>,
                                       codec: Codec<V>, tr: Transport, id: ServiceId)
    requires Enumerates(hostOrder, data.hosts.Keys) && Enumerates(serviceOrder, data.services.Keys)
    requires ValidIdentities(data) && ValidHostName(id.host) && ValidServiceDesc(id.desc) && Faithful(codec)
    ensures Fetch(ApplyAll(map[], SaveWrites(data, hostOrder, serviceOrder, codec, tr)), ServiceIdKey(id), codec, tr)
              == if id in data.services && Survives(ServiceIdKey(id), data.services[id], codec, tr)
                 then Some(data.services[id]) else None
  {
    var ws := SaveWrites(data, hostOrder, serviceOrder, codec, tr);
    if id in data.services {
      var i :| 0 <= i < |serviceOrder| && serviceOrder[i] == id;
      SaveWriteOfService(data, hostOrder, serviceOrder, codec, tr, i);
      var w := ItemWrite(ServiceIdKey(id), data.services[id], codec, tr);
      assert ws[|hostOrder| + i] == w && w.key == ServiceIdKey(id);
      assert DistinctKeys(ws) by {
        SaveWritesDistinct(data, hostOrder, serviceOrder, codec, tr);
      }
      StepDecidesKey(map[], ws, |hostOrder| + i, w);
    } else {
      ServiceKeyNotSaved(data, hostOrder, serviceOrder, codec, tr, id);
      ApplyAllKeepsUnstored(map[], ws, ServiceIdKey(id));
    }
  }

  /** The hosts half of `LoadAfterSave`. */
  lemma LoadAfterSaveHosts<V(!new)>(pool: seq<string>, tr: Transport, codec: Codec<V>, data: RetentionData<V>,
                                    hostOrder: seq<string>, serviceOrder: seq<ServiceId>,
                                    trackedHosts: seq<string>, trackedServices: seq<ServiceId>)
    requires Enumerates(hostOrder, data.hosts.Keys) && Enumerates(serviceOrder, data.services.Keys)
    requires ValidIdentities(data) && ValidTracked(trackedHosts, trackedServices)
    requires Faithful(codec)
    requires SelectServer(pool, tr.connects).Some?
    ensures var saved := SaveRetention(pool, tr, codec, map[], data, hostOrder, serviceOrder);
            var loaded := LoadRetention(pool, tr, codec, saved.store, trackedHosts, trackedServices);
            && loaded.Restored?
            && loaded.data.hosts
                 == (map h | h in trackedHosts && h in data.hosts && Survives(HostKey(h), data.hosts[h], codec, tr)
                       :: data.hosts[h])
  {
    var store := SaveRetention(pool, tr, codec, map[], data, hostOrder, serviceOrder).store;
    var expected := map h | h in trackedHosts && h in data.hosts && Survives(HostKey(h), data.hosts[h], codec, tr)
                      :: data.hosts[h];
    forall h | h in trackedHosts
      ensures Fetch(store, HostKey(h), codec, tr) == if h in expected then Some(expected[h]) else None
    {
      HostFetchAfterSave(data, hostOrder, serviceOrder, codec, tr, h);
    }
    LoadedHostsAre(pool, tr, codec, store, trackedHosts, trackedServices, expected);
  }

  /** The hosts a load restores are determined by what their keys fetch:
      when every tracked host fetches its entry of `expected`, or nothing
      when it has none, the load restores exactly `expected`. */
  lemma LoadedHostsAre<V>(pool: seq<string>, tr: Transport, codec: Codec<V>, store: Store<Bytes>,
                          trackedHosts: seq<string>, trackedServices: seq<ServiceId>, expected: map<string, V>)
    requires SelectServer(pool, tr.connects).Some?
    requires forall h :: h in expected ==> h in trackedHosts
    requires forall h :: h in trackedHosts ==>
               Fetch(store, HostKey(h), codec, tr) == if h in expected then Some(expected[h]) else None
    ensures LoadRetention(pool, tr, codec, store, trackedHosts, trackedServices).Restored?
    ensures LoadRetention(pool, tr, codec, store, trackedHosts, trackedServices).data.hosts == expected
  {
    var loaded := LoadRetention(pool, tr, codec, store, trackedHosts, trackedServices).data.hosts;
    forall h: string
      ensures h in loaded <==> h in expected
      ensures h in loaded ==> loaded[h] == expected[h]
    {
    }
  }

  /** The services half of `LoadAfterSave`. */
  lemma LoadAfterSaveServices<V(!new)>(pool: seq<string>, tr: Transport, codec: Codec<V>, data: RetentionData<V>,
                                       hostOrder: seq<string>, serviceOrder: seq<ServiceId>,
                                       trackedHosts: seq<string>, trackedServices: seq<ServiceId>)
    requires Enumerates(hostOrder, data.hosts.Keys) && Enumerates(serviceOrder, data.services.Keys)
    requires ValidIdentities(data) && ValidTracked(trackedHosts, trackedServices)
    requires Faithful(codec)
    requires SelectServer(pool, tr.connects).Some?
    ensures var saved := SaveRetention(pool, tr, codec, map[], data, hostOrder, serviceOrder);
            var loaded := LoadRetention(pool, tr, codec, saved.store, trackedHosts, trackedServices);
            && loaded.Restored?
            && loaded.data.services
                 == (map id | id in trackedServices && id in data.services
                                && Survives(ServiceIdKey(id), data.services[id], codec, tr)
                       :: data.services[id])
  {
    var store := SaveRetention(pool, tr, codec, map[], data, hostOrder, serviceOrder).store;
    var expected := map id | id in trackedServices && id in data.services
                               && Survives(ServiceIdKey(id), data.services[id], codec, tr)
                      :: data.services[id];
    forall id | id in trackedServices
      ensures Fetch(store, ServiceIdKey(id), codec, tr) == if id in expected then Some(expected[id]) else None
    {
      ServiceFetchAfterSave(data, hostOrder, serviceOrder, codec, tr, id);
    }
    LoadedServicesAre(pool, tr, codec, store, trackedHosts, trackedServices, expected);
  }

  /** The services a load restores are determined by what their keys fetch,
      as `LoadedHostsAre` states for hosts. */
  lemma LoadedServicesAre<V>(pool: seq<string>, tr: Transport, codec: Codec<V>, store: Store<Bytes>,
                             trackedHosts: seq<string>, trackedServices: seq<ServiceId>,
                             expected: map<ServiceId, V>)
    requires SelectServer(pool, tr.connects).Some?
    requires forall id :: id in expected ==> id in trackedServices
    requires forall id :: id in trackedServices ==>
               Fetch(store, ServiceIdKey(id), codec, tr) == if id in expected then Some(expected[id]) else None
    ensures LoadRetention(pool, tr, codec, store, trackedHosts, trackedServices).Restored?
    ensures LoadRetention(pool, tr, codec, store, trackedHosts, trackedServices).data.services == expected
  {
    var loaded := LoadRetention(pool, tr, codec, store, trackedHosts, trackedServices).data.services;
    forall id: ServiceId
      ensures id in loaded <==> id in expected
      ensures id in loaded ==> loaded[id] == expected[id]
    {
    }
  }

  /** Round trip into a fresh cache: with collision-free identities and a
      faithful codec, loading after saving restores exactly the saved hosts
      and services the daemon tracks whose own save step succeeded and whose
      key is readable; a faulting object is the only one missing. */
  lemma LoadAfterSave<V(!new)>(pool: seq<string>, tr: Transport, codec: Codec<V>, data: RetentionData<V>,
                               hostOrder: seq<string>, serviceOrder: seq<ServiceId>,
                               trackedHosts: seq<string>, trackedServices: seq<ServiceId>)
    requires Enumerates(hostOrder, data.hosts.Keys) && Enumerates(serviceOrder, data.services.Keys)
    requires ValidIdentities(data) && ValidTracked(trackedHosts, trackedServices)
    requires Faithful(codec)
    requires SelectServer(pool, tr.connects).Some?
    ensures var saved := SaveRetention(pool, tr, codec, map[], data, hostOrder, serviceOrder);
            var loaded := LoadRetention(pool, tr, codec, saved.store, trackedHosts, trackedServices);
            && saved.outcome.Completed?
            && loaded.Restored?
            && loaded.data.hosts
                 == (map h | h in trackedHosts && h in data.hosts && Survives(HostKey(h), data.hosts[h], codec, tr)
                       :: data.hosts[h])
            && loaded.data.services
                 == (map id | id in trackedServices && id in data.services
                                && Survives(ServiceIdKey(id), data.services[id], codec, tr)
                       :: data.services[id])
  {
    LoadAfterSaveHosts(pool, tr, codec, data, hostOrder, serviceOrder, trackedHosts, trackedServices);
    LoadAfterSaveServices(pool, tr, codec, data, hostOrder, serviceOrder, trackedHosts, trackedServices);
  }

  /** With no faults at all the round trip is exact: the restored data set is
      the saved one restricted to the identities the daemon tracks. */
  lemma LoadAfterSaveWithoutFaults<V(!new)>(pool: seq<string>, tr: Transport, codec: Codec<V>, data: RetentionData<V>,
                                            hostOrder: seq<string>, serviceOrder: seq<ServiceId>,
                                            trackedHosts: seq<string>, trackedServices: seq<ServiceId>)
    requires Enumerates(hostOrder, data.hosts.Keys) && Enumerates(serviceOrder, data.services.Keys)
    requires ValidIdentities(data) && ValidTracked(trackedHosts, trackedServices)
    requires Faithful(codec) && NoFaults(codec, tr)
    requires SelectServer(pool, tr.connects).Some?
    ensures var saved := SaveRetention(pool, tr, codec, map[], data, hostOrder, serviceOrder);
            var loaded := LoadRetention(pool, tr, codec, saved.store, trackedHosts, trackedServices);
            && loaded.Restored?
            && loaded.data.hosts == (map h | h in trackedHosts && h in data.hosts :: data.hosts[h])
            && loaded.data.services == (map id | id in trackedServices && id in data.services :: data.services[id])
  {
    LoadAfterSave(pool, tr, codec, data, hostOrder, serviceOrder, trackedHosts, trackedServices);
    AllHostsSurvive(data, codec, tr, trackedHosts);
    AllServicesSurvive(data, codec, tr, trackedServices);
  }

  /** Without faults, filtering the tracked hosts by survival keeps them all. */
  lemma AllHostsSurvive<V(!new)>(data: RetentionData<V>, codec: Codec<V>, tr: Transport, trackedHosts: seq<string>)
    requires NoFaults(codec, tr)
    ensures (map h | h in trackedHosts && h in data.hosts && Survives(HostKey(h), data.hosts[h], codec, tr)
               :: data.hosts[h])
            == (map h | h in trackedHosts && h in data.hosts :: data.hosts[h])
  {
    forall h | h in data.hosts
      ensures Survives(HostKey(h), data.hosts[h], codec, tr)
    {
      SurvivesWithoutFaults(HostKey(h), data.hosts[h], codec, tr);
    }
  }

  /** Without faults, filtering the tracked services by survival keeps them all. */
  lemma AllServicesSurvive<V(!new)>(data: RetentionData<V>, codec: Codec<V>, tr: Transport,
                                    trackedServices: seq<ServiceId>)
    requires NoFaults(codec, tr)
    ensures (map id | id in trackedServices && id in data.services
                        && Survives(ServiceIdKey(id), data.services[id], codec, tr)
               :: data.services[id])
            == (map id | id in trackedServices && id in data.services :: data.services[id])
  {
    forall id | id in data.services
      ensures Survives(ServiceIdKey(id), data.services[id], codec, tr)
    {
      SurvivesWithoutFaults(ServiceIdKey(id), data.services[id], codec, tr);
    }
  }

  /** Without faults every object survives its round trip through the cache. */
  lemma SurvivesWithoutFaults<V(!new)>(key: string, v: V, codec: Codec<V>, tr: Transport)
    requires NoFaults(codec, tr)
    ensures Survives(key, v, codec, tr)
  {
    assert codec.dump(v).Some?;
  }

  /** Saving never disturbs what a later load reads for a collision-free
      tracked identity outside the data set: it loads exactly as it would
      have from the store before the save. */
  lemma SaveKeepsUnsavedIdentities<V>(pool: seq<string>, tr: Transport, codec: Codec<V>, store: Store<Bytes>,
                                      data: RetentionData<V>, hostOrder: seq<string>, serviceOrder: seq<ServiceId>,
                                      trackedHosts: seq<string>, trackedServices: seq<ServiceId>)
    requires Enumerates(hostOrder, data.hosts.Keys) && Enumerates(serviceOrder, data.services.Keys)
    requires ValidIdentities(data) && ValidTracked(trackedHosts, trackedServices)
    requires SelectServer(pool, tr.connects).Some?
    ensures var before := LoadRetention(pool, tr, codec, store, trackedHosts, trackedServices);
            var saved := SaveRetention(pool, tr, codec, store, data, hostOrder, serviceOrder);
            var after := LoadRetention(pool, tr, codec, saved.store, trackedHosts, trackedServices);
            && before.Restored? && after.Restored?
            && (forall h :: h !in data.hosts ==>
                  (h in after.data.hosts <==> h in before.data.hosts)
                  && (h in before.data.hosts ==> after.data.hosts[h] == before.data.hosts[h]))
            && (forall id :: id !in data.services ==>
                  (id in after.data.services <==> id in before.data.services)
                  && (id in before.data.services ==> after.data.services[id] == before.data.services[id]))
  {
    var ws := SaveWrites(data, hostOrder, serviceOrder, codec, tr);
    forall h | h in trackedHosts && h !in data.hosts
      ensures Fetch(ApplyAll(store, ws), HostKey(h), codec, tr) == Fetch(store, HostKey(h), codec, tr)
    {
      HostKeyNotSaved(data, hostOrder, serviceOrder, codec, tr, h);
      ApplyAllKeepsUnstored(store, ws, HostKey(h));
    }
    forall id | id in trackedServices && id !in data.services
      ensures Fetch(ApplyAll(store, ws), ServiceIdKey(id), codec, tr) == Fetch(store, ServiceIdKey(id), codec, tr)
    {
      ServiceKeyNotSaved(data, hostOrder, serviceOrder, codec, tr, id);
      ApplyAllKeepsUnstored(store, ws, ServiceIdKey(id));
    }
  }
}
