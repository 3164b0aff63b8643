# Memcache retention for a monitoring scheduler, in Dafny

The plugin `module/module.py` saves the state a monitoring scheduler retains
about its hosts and services into a pool of memcache servers, and loads it
back when the scheduler starts. This project models its logic:

- the `servers` option, a comma-separated list, becomes an ordered pool of
  stripped addresses (`ServerPool.ParseServers`, `ServerPool.ServerList`);
- `get_memcache_client` takes the first server of the pool that connects, or
  none (`ServerPool.SelectServer`);
- `normalize_key` replaces every space by the token `SPACE`, and hosts and
  services are stored under `HOST-<name>` and `SERVICE-<host>,<desc>`
  (`RetentionKeys`);
- `hook_save_retention` pickles and `set`s every host, then every service,
  swallowing each item's fault (`Retention.SaveRetention`);
- `hook_load_retention` `get`s and unpickles the key of every host and
  service the daemon tracks, skipping absent keys and faulting items
  (`Retention.LoadRetention`).

The cache is one map from keys to byte strings (`KeyValueStore`). A save pass
is the sequence of writes it issues, folded into that map. Pickling is a pair
of partial functions (`Retention.Codec`). The transport is three predicates:
which addresses connect, which `set`s succeed, which `get`s succeed
(`Retention.Transport`). Python's dictionary iteration order is a parameter.
It is required to list each key of the dictionary exactly once
(`Retention.Enumerates`).

The module `RetentionProperties` relates the two passes:
- save is idempotent;
- save stores every item whose step does not fault and touches no other key;
- a load after a save into an empty cache gives back the saved objects of the
  tracked identities that survived, and all of them when nothing faults.

These results need collision-free names. Key derivation is not injective: a
name holding the text `SPACE` can collide with the same name spelled with a
space, and a comma in a host name can shift between host and description.
Both collisions are proved (`RetentionKeys.HostKeyCollision`,
`RetentionKeys.ServiceKeyCollision`). The round-trip results therefore
require host names without commas, and all names without the text `SPACE`.
Spaces themselves are allowed.

When no server connects, `get_memcache_client` falls off its end and returns
`None`. Every `set` or `get` on `None` then raises and is swallowed. The
`disconnect_all` call at lines 119 and 154 lies outside any `try`, so it
raises out of the hook. The model follows the code: such a pass is
`Crashed` or `LoadCrashed`. It is not a clean "unavailable" result, and the
load hook never returns `False`; it returns `True` whenever it reaches its
end (line 163).

## Model

| member | source | states |
|---|---|---|
| Text.SplitProperties | module/module.py:61-61 | `str.split(',')` gives one more segment than there are commas; no segment holds a comma; joining the segments with commas gives the input back |
| Text.SplitJoin | module/module.py:61-61 | splitting a comma-join of comma-free segments gives those segments back, so split is the inverse of join |
| Text.StripCharacterized | module/module.py:62-62 | `str.strip` gives the unique contiguous slice of the input with no whitespace at either end that leaves only whitespace outside it |
| Text.StripTrims | module/module.py:62-62 | the stripped string is a slice of the input with only whitespace cut off at each end |
| Text.StripIdempotent | module/module.py:62-62 | stripping a stripped string changes nothing |
| Text.StripKeepsAbsence | module/module.py:62-62 | stripping never introduces a character absent from the input (a stripped segment still has no comma) |
| ServerPool.ServerListLength | module/module.py:60-62 | the pool has exactly one entry per comma-separated segment of the option: one more than the number of commas |
| ServerPool.ServerListSegments | module/module.py:60-62 | entry i of the pool is segment i of the option stripped, in option order; it holds no comma and has no surrounding whitespace |
| ServerPool.EmptyConfig | module/module.py:60-62 | an empty option still yields a pool of one empty address |
| ServerPool.ParseServers | module/module.py:60-62 | the constructor's loop, appending one stripped segment per iteration, builds exactly the segment-wise pool |
| ServerPool.StripAllAt | module/module.py:61-62 | entry i of the parsed pool is segment i stripped |
| ServerPool.FirstConnecting | module/module.py:72-78 | from a position on: the chosen index is the first that connects and none between the position and it connects; with none chosen, no address from the position on connects |
| ServerPool.SelectServer | module/module.py:70-78 | the chosen server is the first of the pool that connects; no server is chosen exactly when none connects |
| ServerPool.ProbedFromUpToChoice | module/module.py:72-77 | the search from a position probes exactly the addresses from there up to and including the chosen one, or all remaining ones when none connects |
| ServerPool.ProbesUpToChoice | module/module.py:72-78 | `get_memcache_client` probes no server after the one it returns, and probes every server when it returns none |
| RetentionKeys.Normalize | module/module.py:81-86 | a normalised key holds no space |
| RetentionKeys.NormalizeLength | module/module.py:86-86 | each space lengthens the key by four characters |
| RetentionKeys.NormalizeWithoutSpaces | module/module.py:86-86 | a string with no space is returned unchanged |
| RetentionKeys.NormalizeAppend | module/module.py:86-86 | replacing spaces distributes over concatenation |
| RetentionKeys.NormalizeKeepsOtherChars | module/module.py:86-86 | a character that is neither a space nor a letter of `SPACE` occurs in the key exactly when it occurs in the input |
| RetentionKeys.NormalizeRoundTrip | module/module.py:81-86 | for input without the text `SPACE`, turning each `SPACE` of the key back into a space recovers the input |
| RetentionKeys.NormalizeInjective | module/module.py:81-86 | two inputs without the text `SPACE` give the same key exactly when they are equal |
| RetentionKeys.HostKey | module/module.py:104-104 | a host's key holds no space |
| RetentionKeys.HostKeyShape | module/module.py:135-135 | a host's key is `HOST-` followed by the normalised host name, so the prefix survives normalisation |
| RetentionKeys.ServiceKey | module/module.py:112-112 | a service's key holds no space |
| RetentionKeys.ServiceKeyShape | module/module.py:146-146 | a service's key is `SERVICE-`, the normalised host name, a comma and the normalised description |
| RetentionKeys.ServiceKeyTail | module/module.py:146-146 | what follows `SERVICE-` in a service's key is the normalised host name, a comma and the normalised description |
| RetentionKeys.HostAndServiceKeysDiffer | module/module.py:104-112 | no host key equals any service key |
| RetentionKeys.HostKeyInjective | module/module.py:104-104 | host names without the text `SPACE` have equal keys exactly when they are equal |
| RetentionKeys.ServiceKeyInjective | module/module.py:112-112 | comma-free host names and names without `SPACE` give equal service keys exactly when host and description are both equal |
| RetentionKeys.HostKeyCollision | module/module.py:104-104 | a name with a space and the same name with `SPACE` in its place are different hosts with the same key |
| RetentionKeys.ServiceKeyCollision | module/module.py:112-112 | `(a,b ; c)` and `(a ; b,c)` are different services with the same key |
| KeyValueStore.ApplyAllKeepsUnstored | module/module.py:106-115 | a key no write of the pass stores keeps its entry in the cache |
| KeyValueStore.ApplyAllLastStoreWins | module/module.py:106-115 | a key ends up holding the value of the last successful `set` on it |
| KeyValueStore.ApplyAllDistinctKeys | module/module.py:106-115 | when the writes have pairwise distinct keys, each successful `set` is what its key holds afterwards, and a failed one leaves its key's entry as it was |
| KeyValueStore.ApplyAllOverlay | module/module.py:106-115 | a pass applied to a cache equals the cache overlaid with the same pass applied to an empty cache |
| KeyValueStore.ApplyAllIdempotent | module/module.py:106-115 | issuing the same writes twice leaves the cache as issuing them once, because `set` overwrites |
| Retention.SaveWritesDerived | module/module.py:101-117 | every step of the save pass writes under the key of some host or service of the data set |
| Retention.SaveRetention | module/module.py:88-120 | the pass crashes exactly when no server connects, and then the cache is untouched; a key not derived from the data set keeps its entry |
| Retention.LoadIntoEntry | module/module.py:132-152 | after the load loop an identity has an entry exactly when it is tracked and its fetch succeeded, with the fetched value; untracked entries already present stay |
| Retention.LoadRetention | module/module.py:123-163 | the pass crashes exactly when no server connects; otherwise it returns `True`, and a host or service is restored exactly when it is tracked and its key's fetch yields an object, with that object; a host whose key is absent from the cache is not restored |
| RetentionProperties.SaveIdempotent | module/module.py:101-117 | saving the same data set twice gives the same cache and outcome as saving it once |
| RetentionProperties.SaveWritesDistinct | module/module.py:101-117 | with collision-free names the steps of a save pass write pairwise distinct keys |
| RetentionProperties.SaveStoresEachItem | module/module.py:101-117 | after a completed save, every host and service whose pickling and `set` succeed is stored under its key, and one that faults leaves its key as it was, whatever faulted before it |
| RetentionProperties.SaveStoresHost | module/module.py:101-108 | the host half of the above, for one host |
| RetentionProperties.SaveStoresService | module/module.py:110-117 | the service half of the above, for one service |
| RetentionProperties.HostKeyNotSaved | module/module.py:101-117 | no step of a save writes the key of a collision-free host name the data set does not hold |
| RetentionProperties.ServiceKeyNotSaved | module/module.py:101-117 | no step of a save writes the key of a collision-free service the data set does not hold |
| RetentionProperties.HostFetchAfterSave | module/module.py:132-141 | after a save into an empty cache, fetching a host's key yields its saved object if it survived, and nothing otherwise |
| RetentionProperties.ServiceFetchAfterSave | module/module.py:143-152 | after a save into an empty cache, fetching a service's key yields its saved object if it survived, and nothing otherwise |
| RetentionProperties.LoadedHostsAre | module/module.py:132-141 | a completed load restores exactly the hosts whose keys fetch an object, each with that object, so the restored hosts are determined by the fetches of the tracked hosts alone |
| RetentionProperties.LoadedServicesAre | module/module.py:143-152 | a completed load restores exactly the services whose keys fetch an object, each with that object |
| RetentionProperties.LoadAfterSaveHosts | module/module.py:132-141 | the hosts a load restores after such a save are the saved hosts that are tracked and survived, with their saved objects |
| RetentionProperties.LoadAfterSaveServices | module/module.py:143-152 | the services a load restores after such a save are the saved services that are tracked and survived, with their saved objects |
| RetentionProperties.LoadAfterSave | module/module.py:132-156 | a load after a save into an empty cache returns `True` with the saved data set restricted to tracked identities whose items survived |
| RetentionProperties.LoadAfterSaveWithoutFaults | module/module.py:132-156 | after a save into an empty cache, with a faithful codec and no faults, the loaded data set is exactly the saved one restricted to the tracked identities |
| RetentionProperties.SaveKeepsUnsavedIdentities | module/module.py:101-117 | for a tracked identity the data set does not hold, a load after the save restores what a load before it would have |

## Left out

- The memcache transport (`memcache.Client`, `connect`, `set`, `get`, `disconnect_all`) is foreign network code. It is replaced by a single map for the whole pool and three predicates saying which connects, `set`s and `get`s succeed. Which server holds the data, and replication between servers, is not modelled.
- `cPickle` is a foreign library. It is a pair of partial functions, and the round-trip results assume that loading a dump gives the object back.
- Faults are deterministic predicates of the address, key and blob. Timeouts and transient failures that differ between calls are not modelled.
- The `.encode('utf8', 'ignore')` at line 86 is not modelled: keys are strings of characters, not bytes. A Python 2 byte string with non-ASCII bytes makes that call raise; in the save loop the handler then names a `key` that may not be bound yet, and that raise escapes the hook. The model does not cover this.
- Logging, `init` (lines 64-68), `get_instance` and `properties` (lines 39-54) and `BaseModule` are plugin plumbing.
- The daemon's `get_retention_data` and `restore_retention_data`, and its host and service object graphs, are not part of this model. The data set is two maps. The tracked identities are two sequences of names. The restored data set is the `Restored` result.
- ServerPool.SelectServer: the probe `connects` only answers "connects" or "does not". Building `memcache.Client([server], debug=0)` and calling `mc.servers[0].connect()` (lines 73-74), and the calls to `get_memcache_client` at lines 98 and 125, are not inside any `try`. An exception there, such as the client refusing a malformed or empty address like the middle entry of `"a,,b"`, ends the hook before any `set` or `get`. The model treats such an address as one that does not connect and goes on to the next entry.
- Text.Strip: the option is taken to be a byte string, so `strip()` removes only the six ASCII whitespace characters of `Text.IsWhitespace`. If the configuration reader hands over a `unicode` value, line 62 also strips U+001C to U+001F, U+0085, U+00A0, U+2000 to U+200A, U+3000 and the other Unicode spaces. The model does not cover that wider set.
- Python dictionary iteration order is a parameter, since the language leaves it unspecified.
- RetentionProperties.SaveStoresEachItem: needs collision-free names. With colliding names the later write of two with one key wins (`KeyValueStore.ApplyAllLastStoreWins`), but the data-set-level statement is not made.
- RetentionProperties.LoadAfterSave and RetentionProperties.LoadAfterSaveWithoutFaults: stated for a save into an empty cache. A stale entry left in a non-empty cache for a tracked identity outside the data set is still fetched and restored. For a non-empty cache, `SaveKeepsUnsavedIdentities` covers identities outside the data set. For items of the data set whose step faulted, `SaveStoresEachItem` covers what their keys hold.
