/** The cache as the plugin sees it: a map from key to stored value, changed
    only by a sequence of `set` calls, each of which either stores its value
    or (on a fault) leaves the store as it was. */
module KeyValueStore {
  import opened Maybe

  type Store<B> = map<string, B>

  /** One attempted `set`: the value it stores, or `None` when the attempt
      faulted and stored nothing. */
  datatype Write<B> = Write(key: string, value: Option<B>)

  function Apply<B>(store: Store<B>, w: Write<B>): Store<B>
  {
    match w.value
    case None => store
    case Some(b) => store[w.key := b]
  }

  /** Attempt `i` stores a value under `k`. */
  predicate StoresAt<B>(ws: seq<Write<B>>, i: int, k: string)
  {
    0 <= i < |ws| && ws[i].key == k && ws[i].value.Some?
  }

  /** Some attempt stores a value under `k`. */
  predicate Stores<B>(ws: seq<Write<B>>, k: string)
  {
    exists i :: 0 <= i < |ws| && StoresAt(ws, i, k)
  }

  /** A later attempt stores a value under the key of attempt `i`. */
  predicate Overwritten<B>(ws: seq<Write<B>>, i: int)
    requires 0 <= i < |ws|
  {
    exists j :: i < j < |ws| && StoresAt(ws, j, ws[i].key)
  }

  /** The attempts, in order. */
  function ApplyAll<B>(store: Store<B>, ws: seq<Write<B>>): Store<B>
    decreases |ws|
  {
    if ws == [] then store else ApplyAll(Apply(store, ws[0]), ws[1..])
  }

  /** A key no attempt stores under keeps its old entry, or its absence. */
  lemma {:induction false} ApplyAllKeepsUnstored<B>(store: Store<B>, ws: seq<Write<B>>, k: string)
    requires !Stores(ws, k)
    ensures k in ApplyAll(store, ws) <==> k in store
    ensures k in store ==> ApplyAll(store, ws)[k] == store[k]
    decreases |ws|
  {
    if ws != [] {
      assert !StoresAt(ws, 0, k);
      assert !Stores(ws[1..], k) by {
        forall i | 0 <= i < |ws| - 1
          ensures !StoresAt(ws[1..], i, k)
        {
          assert !StoresAt(ws, i + 1, k);
        }
      }
      ApplyAllKeepsUnstored(Apply(store, ws[0]), ws[1..], k);
    }
  }

  /** The last attempt that stores under a key decides that key's value,
      whatever the attempts before or after it did under other keys. */
  lemma {:induction false} ApplyAllLastStoreWins<B>(store: Store<B>, ws: seq<Write<B>>, i: nat)
    requires i < |ws| && ws[i].value.Some? && !Overwritten(ws, i)
    ensures ws[i].key in ApplyAll(store, ws)
    ensures ApplyAll(store, ws)[ws[i].key] == ws[i].value.value
    decreases |ws|
  {
    var tail := ws[1..];
    if i == 0 {
      assert !Stores(tail, ws[0].key) by {
        forall j | 0 <= j < |tail|
          ensures !StoresAt(tail, j, ws[0].key)
        {
          assert !StoresAt(ws, j + 1, ws[0].key);
        }
      }
      ApplyAllKeepsUnstored(Apply(store, ws[0]), tail, ws[0].key);
    } else {
      assert tail[i - 1] == ws[i];
      assert !Overwritten(tail, i - 1) by {
        forall j | i - 1 < j < |tail|
          ensures !StoresAt(tail, j, ws[i].key)
        {
          assert !StoresAt(ws, j + 1, ws[i].key);
        }
      }
      ApplyAllLastStoreWins(Apply(store, ws[0]), tail, i - 1);
    }
  }

  /** Entry `k` is the same in both stores, present or absent. */
  predicate Unchanged<B(==)>(before: Store<B>, after: Store<B>, k: string)
  {
    (k in after <==> k in before) && (k in before ==> after[k] == before[k])
  }

  /** No two attempts share a key. */
  predicate DistinctKeys<B>(ws: seq<Write<B>>)
  {
    forall i, j :: 0 <= i < j < |ws| ==> ws[i].key != ws[j].key
  }

  /** With distinct keys each attempt alone decides its key: a successful
      one leaves its value there, a faulting one leaves the entry as it was. */
  lemma ApplyAllDistinctKeys<B>(store: Store<B>, ws: seq<Write<B>>, i: nat)
    requires DistinctKeys(ws) && i < |ws|
    ensures ws[i].value.Some? ==>
              ws[i].key in ApplyAll(store, ws) && ApplyAll(store, ws)[ws[i].key] == ws[i].value.value
    ensures ws[i].value.None? ==> Unchanged(store, ApplyAll(store, ws), ws[i].key)
  {
    if ws[i].value.Some? {
      assert !Overwritten(ws, i) by {
        forall j | i < j < |ws|
          ensures !StoresAt(ws, j, ws[i].key)
        {
          assert ws[i].key != ws[j].key;
        }
      }
      ApplyAllLastStoreWins(store, ws, i);
    } else {
      assert !Stores(ws, ws[i].key) by {
        forall j | 0 <= j < |ws|
          ensures !StoresAt(ws, j, ws[i].key)
        {
          if j < i {
            assert ws[j].key != ws[i].key;
          } else if j > i {
            assert ws[i].key != ws[j].key;
          }
        }
      }
      ApplyAllKeepsUnstored(store, ws, ws[i].key);
    }
  }

  /** Running the attempts lays the entries they store over the old store:
      what the store held before only shows through at keys no attempt
      stores. */
  lemma {:induction false} ApplyAllOverlay<B>(store: Store<B>, ws: seq<Write<B>>)
    ensures ApplyAll(store, ws) == store + ApplyAll(map[], ws)
    decreases |ws|
  {
    if ws != [] {
      var s1 := Apply(store, ws[0]);
      var e1 := Apply(map[], ws[0]);
      assert s1 == store + e1;
      ApplyAllOverlay(s1, ws[1..]);
      ApplyAllOverlay(e1, ws[1..]);
      assert store + e1 + ApplyAll(map[], ws[1..]) == store + (e1 + ApplyAll(map[], ws[1..]));
    }
  }

  /** Because every attempt overwrites, running the same attempts twice
      leaves the store as running them once. */
  lemma ApplyAllIdempotent<B>(store: Store<B>, ws: seq<Write<B>>)
    ensures ApplyAll(ApplyAll(store, ws), ws) == ApplyAll(store, ws)
  {
    var w := ApplyAll(map[], ws);
    ApplyAllOverlay(store, ws);
    ApplyAllOverlay(ApplyAll(store, ws), ws);
    assert store + w + w == store + w;
  }
}
