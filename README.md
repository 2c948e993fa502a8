# Environment-cascading configuration, modelled in Dafny

This project models the core of `nbish11/config`, a PHP configuration library.

A `Config\Repository` answers dot-notation keys such as `app.sub.item`:

- The text before the first dot names a *group* (`app`).
- The group is loaded lazily through a *loader* and cached in `$items`.
- Values written with `set` go to a separate override layer, `$setItems`. `get` consults that layer first.

Loaders derived from `LoaderAbstract` *cascade* over the environment:

- An environment such as `staging.east` becomes the segments `["", "staging", "east"]`.
- The backend is asked once per growing prefix of those segments.
- Each answer is merged on top of the previous ones with `array_replace_recursive`, so more specific environments win.

The concrete loaders are these:

- the file loader: `<path>/<prefix>/<group>.php`;
- the LDAP loader: node `cn=<group>,<base DN of the prefix>`;
- the null loader;
- the older stand-alone file loader, which remembers whether any file existed at all.

Around them sit two more pieces:

- `ConfigTree`, a first-match lookup over a list of trees;
- the decision logic of the LDAP `Connection` wrapper.

PHP values are `Php.Value`: null, bool, int, string, or an array with string keys. PHP's truthiness is stated explicitly, because several decisions hinge on it:

- an override is returned only when it is truthy;
- a truthy default short-circuits the load;
- only a truthy load result is cached.

## Modules

| Module | What it holds |
|---|---|
| `Php` | Values, truthiness and `isset`, plus `explode`/`preg_split` (`Split`), `implode` (`Join`), `array_filter` on strings and `rtrim`, with their algebra. |
| `LoaderAbstract` | The cascade. A backend's `readConfig` is a `Reader`: a total function from (prefix, group) to a tree, null, or a fault. `Load` is the `foreach` loop, proved to compute `Cascade`. |
| `FileLoader`, `LdapLoader`, `NullLoader` | The readers of the three `LoaderAbstract` subclasses. |
| `ConfigFileLoader` | `src/Config/FileLoader.php`. Its own loop has the `$buildPath` and `$found` variables. |
| `ConfigTree` | A class over `$trees`. |
| `LdapConnection` | A class with the `isBound` and `connection` fields. Each native call's outcome is a parameter. |
| `ConfigRepository` | The repository as a class over `items` and `setItems`, specified by functions on values (`GetAnswer`, `SetSpec`, `LoadGroup`). It also holds `arrayGet` and `arraySet` as loops proved against `ArrayGetSpec` and `SetPath`. |

I/O is abstract:

- **Filesystem.** The filesystem is a map from a file name to the array its `include` returns. `is_file` is membership in that map. Names are compared as strings, exactly as the loaders build them. The root prefix therefore gives `dir//app.php` for a file loader built on `dir`, because `implode('/', [''])` is empty and the stored path already ends in `/`. The model keeps that string as it is, and a file map must use it.
- **LDAP directory.** The directory behind the LDAP loader is a function from DN to `getEntry($dn)->getAttributes()`, or to the error that call raises. `LdapLoader.ConnectionDirectory` builds such a function from a `Connection`'s search decision logic.
- **Native LDAP calls.** The outcomes of `ldap_*` calls are method parameters.

## Model

| member | source | states |
|---|---|---|
| Php.Split | src/Config/Repository.php:145 | `explode`: at least one piece, and no piece contains a separator |
| Php.FilterTruthy | src/Config/Loader/LoaderAbstract.php:44 | `array_filter` keeps only truthy strings, each taken from the input, and never adds any |
| Php.RTrim | src/Config/Loader/FileLoader.php:20 | `rtrim` returns a prefix; every character removed is the separator; the result does not end with it |
| Php.SplitAppend | src/Config/Loader/LoaderAbstract.php:44 | splitting at a separator concatenates the splits of the two sides |
| Php.SplitJoin | src/Config/Loader/LdapLoader.php:66 | splitting a join of separator-free parts gives the parts back |
| Php.JoinSplit | src/Config/Loader/LdapLoader.php:66 | joining the split of a string gives the string back |
| Php.FilterAppend | src/Config/Loader/LoaderAbstract.php:44 | filtering distributes over concatenation |
| LoaderAbstract.ParseEnvironment | src/Config/Loader/LoaderAbstract.php:42-49 | element 0 is always `""`; every later segment is truthy and free of `.` and `/` |
| LoaderAbstract.ParseEnvironmentAppend | src/Config/Loader/LoaderAbstract.php:44 | a separator in the environment splits the segment list; empty and duplicate separators vanish |
| LoaderAbstract.ParseEnvironmentOfNames | src/Config/Loader/LoaderAbstract.php:42-49 | names joined by `.` or `/` parse back to `""` followed by exactly those names |
| LoaderAbstract.ParseEnvironmentEmpty | src/Config/Loader/LoaderAbstract.php:44-46 | a null or empty environment gives the single segment `""` |
| LoaderAbstract.MergeEnvironment | src/Config/Loader/LoaderAbstract.php:56-59 | the merged keys are the union of both sides' keys; a key only the base has keeps the base's value; where both sides hold arrays they are merged, and otherwise the overlay's value wins |
| LoaderAbstract.MergeIdentity | src/Config/Loader/LoaderAbstract.php:56-59 | merging with an empty array on either side changes nothing |
| LoaderAbstract.MergeSelf | src/Config/Loader/LoaderAbstract.php:56-59 | a tree merged with itself is itself |
| LoaderAbstract.MergeIdempotent | src/Config/Loader/LoaderAbstract.php:56-59 | applying the same overlay twice equals applying it once |
| LoaderAbstract.MergeOverlayLeafWins | src/Config/Loader/LoaderAbstract.php:56-59 | a non-array value of the overlay, null included, is what the merge holds at that path |
| LoaderAbstract.MergeKeepsBasePath | src/Config/Loader/LoaderAbstract.php:56-59 | a path of the base survives unless the overlay puts a non-array on the way; where the overlay has nothing there, the merge reads the base's value, and where both hold arrays there, it reads their merge |
| LoaderAbstract.Load | src/Config/Loader/LoaderAbstract.php:13-32 | the loop computes `Cascade`; it calls `readConfig` once per segment with prefixes of increasing length, in order, stopping only at a fault |
| LoaderAbstract.AccumulateFaultPersists | src/Config/Loader/LoaderAbstract.php:19-29 | after a fault no later prefix changes the outcome |
| LoaderAbstract.AccumulateKeys | src/Config/Loader/LoaderAbstract.php:19-29 | a key is in the accumulator iff some prefix's tree supplied it; a null answer adds nothing |
| LoaderAbstract.AccumulateLaterWins | src/Config/Loader/LoaderAbstract.php:19-29 | the last prefix supplying a key with a non-array value decides its merged value |
| LoaderAbstract.AccumulateLaterWinsPath | src/Config/Loader/LoaderAbstract.php:19-29 | a nested leaf such as `db.host` set by a prefix is what the cascade holds at that path, when no later prefix reaches it or puts a non-array on the way |
| LoaderAbstract.AccumulateAllEmpty | src/Config/Loader/LoaderAbstract.php:26-28 | when every prefix answers null or an empty array, the accumulator stays empty |
| LoaderAbstract.AccumulateFaultFree | src/Config/Loader/LoaderAbstract.php:19-29 | with no fault along the way, the accumulator is a tree |
| LoaderAbstract.CascadeFaultFree | src/Config/Loader/LoaderAbstract.php:13-32 | a reader that never faults gives a load that never faults |
| LoaderAbstract.CascadeNullIff | src/Config/Loader/LoaderAbstract.php:31 | the load is null iff every prefix answered null or an empty array; it is never an empty array |
| LoaderAbstract.CascadeRootOnly | src/Config/Loader/LoaderAbstract.php:19-31 | without an environment the load is the root prefix's answer, with an empty array turned into null |
| LoaderAbstract.ExampleSegments | src/Config/Loader/LoaderAbstract.php:42-49 | an environment `<staging>.<east>` of two plain names parses to `["", staging, east]` |
| LoaderAbstract.CascadeExample | src/Config/Loader/LoaderAbstract.php:13-32 | a worked cascade in which the more specific prefix overrides the root and keys of both survive |
| FileLoader.NormalizePath | src/Config/Loader/FileLoader.php:18-21 | the stored path ends in exactly one `/` and is the given path minus its trailing separators |
| FileLoader.NormalizeIgnoresTrailingSeparator | src/Config/Loader/FileLoader.php:20 | an extra trailing separator gives the same stored path |
| FileLoader.NormalizeIdempotent | src/Config/Loader/FileLoader.php:20 | normalising a stored path changes nothing |
| FileLoader.NormalizeExamples | src/Config/Loader/FileLoader.php:20 | `dir`, `dir/` and `dir///` all become `dir/`, for any name `dir` not ending in `/` |
| FileLoader.FileName | src/Config/Loader/FileLoader.php:32-34 | the stored path is a prefix of every candidate name, and the name ends in `<group>.php` |
| FileLoader.LoadNullIff | src/Config/Loader/FileLoader.php:30-39 | `readConfig` answers null for a missing candidate and the file's array otherwise, so the load is null iff every candidate is missing or returns an empty array; never an empty array |
| NullLoader.AccumulatorStaysEmpty | src/Config/Loader/NullLoader.php:12-15 | the accumulator stays `array()` through every prefix |
| NullLoader.LoadIsNull | src/Config/Loader/NullLoader.php:12-15 | `readConfig` answers null, so the load is null for every environment and group |
| LdapLoader.BuildDn | src/Config/Loader/LdapLoader.php:64-72 | a DN exists iff the filtered, dot-joined prefix is in the table, and it is then `cn=<group>,<base DN>`, which is truthy |
| LdapLoader.ReadNodeValues | src/Config/Loader/LdapLoader.php:48-55 | a found entry's attributes are returned unchanged; "node not found" becomes null; every other fault propagates |
| LdapLoader.EnvironmentKeyExamples | src/Config/Loader/LdapLoader.php:66 | `[""]` looks up the key `""`, `["", "staging"]` the key `staging`, and `["", "staging", "east"]` the key `staging.east` |
| LdapLoader.PrefixKey | src/Config/Loader/LdapLoader.php:66 | along the cascade, prefix k looks up its segments after the root, joined by dots |
| LdapLoader.UnmappedPrefixReadsNull | src/Config/Loader/LdapLoader.php:37-42 | `readConfig` of an unmapped prefix is null whatever the directory holds (the directory is not consulted) |
| LdapLoader.MappedPrefixReadsNode | src/Config/Loader/LdapLoader.php:37-42 | `readConfig` of a mapped prefix reads exactly the node `cn=<group>,<base DN>` |
| LdapLoader.BoundConnectionReads | src/Config/Util/Ldap/Connection.php:522-540 | through a bound connection a missing or empty answer reads null, and a found node reads its first entry |
| LdapLoader.UnboundConnectionFails | src/Config/Util/Ldap/Connection.php:504-509 | through an unbound connection, a load whose root is mapped fails with "not bound" |
| LdapLoader.RootOnlyLoad | src/Config/Loader/LdapLoader.php:37-55 | with no environment the load is the root node's attributes, null when missing or empty, or the fault |
| LdapLoader.LoadTestGroup | tests/Config/LdapTest.php:26-44 | with the tests' DN table, `test` loads the attributes of `cn=test,ou=Master,dc=example,dc=com` |
| LdapLoader.LoadMissingGroup | tests/Config/LdapTest.php:46-56 | with the tests' DN table, a group whose node is not found loads as null |
| ConfigFileLoader.Load | src/Config/FileLoader.php:34-61 | the loop computes `LoadSpec`; candidate i is `path + BuildPath(segments[..i+1]) + group + ".php"` |
| ConfigFileLoader.FoundIff | src/Config/FileLoader.php:37-57 | `$found` holds iff some candidate file existed |
| ConfigFileLoader.LoadNullIff | src/Config/FileLoader.php:60 | the load is null iff no candidate file existed |
| ConfigFileLoader.LaterFileWins | src/Config/FileLoader.php:43-58 | a later file's non-array value overrides a less specific file's unless an even later file supplies the key again |
| ConfigFileLoader.LaterFileWinsPath | src/Config/FileLoader.php:43-60 | a nested non-array leaf such as `db.host` in a file is what the load holds at that path, when no later file reaches it or puts a non-array on the way |
| ConfigFileLoader.BuildPathGrows | src/Config/FileLoader.php:45 | `$buildPath` only grows: a shorter prefix's path is a prefix of a longer one's |
| ConfigFileLoader.BuildPathIsJoin | src/Config/FileLoader.php:39-50 | `$buildPath` after n segments is the segments joined by `/` with a trailing `/` |
| ConfigFileLoader.SameCandidatesAsFileLoader | src/Config/Loader/FileLoader.php:32-34 | over a normalised path, both loaders check the same file names |
| ConfigFileLoader.EmptyGroupIsNotNull | src/Config/FileLoader.php:60 | where every file returns an empty array, this loader gives `array()` and the abstract-cascade loader gives null |
| ConfigTree.FirstMatchIsFirst | src/Config/Loader/ConfigTree.php:7-14 | null iff no tree sets the key; otherwise the value of the earliest tree that sets it, with null entries skipped |
| ConfigTree.FirstMatchAt | src/Config/Loader/ConfigTree.php:10 | a tree that sets the key before every other tree that does decides the answer |
| ConfigTree.ConfigTree.Get | src/Config/Loader/ConfigTree.php:7-14 | the loop returns the first-match value |
| ConfigTree.ConfigTree.OffsetExists | src/Config/Loader/ConfigTree.php:22-25 | true iff some tree sets the key to a non-null value |
| ConfigTree.ConfigTree.OffsetGet | src/Config/Loader/ConfigTree.php:33-36 | the same as `get` |
| ConfigTree.ConfigTree.OffsetSet | src/Config/Loader/ConfigTree.php:45-48 | the trees are unchanged |
| ConfigTree.ConfigTree.OffsetUnset | src/Config/Loader/ConfigTree.php:56-59 | the trees are unchanged |
| ConfigTree.ConfigTree.constructor | src/Config/Loader/ConfigTree.php:5 | `$trees` starts empty |
| ConfigTree.FreshTreeIsEmpty | src/Config/Loader/ConfigTree.php:5-59 | a new tree list answers null and "absent" for every key, even after an `offsetSet` |
| LdapConnection.DefaultPort | src/Config/Util/Ldap/Connection.php:73-78 | an explicit port is kept; otherwise 636 iff security is `ssl`, and 389 else |
| LdapConnection.BindArguments | src/Config/Util/Ldap/Connection.php:174-182 | refused iff exactly one of rdn and password is null; anonymous iff both are |
| LdapConnection.ScopeFunction | src/Config/Util/Ldap/Connection.php:424-437 | no scope or base gives `ldap_read`, one gives `ldap_list`, all gives `ldap_search`, and any other scope is a search error |
| LdapConnection.SearchErrorOf | src/Config/Util/Ldap/Connection.php:444-472 | errno 32 is "no result", 4 "size limit", 87 "malformed filter", anything else a search error |
| LdapConnection.NormalizeData | src/Config/Util/Ldap/Connection.php:484-495 | the loop result has the same keys, with each value normalised |
| LdapConnection.NormalizeValueCases | src/Config/Util/Ldap/Connection.php:487-493 | only a one-element array is changed: `[x]` becomes `x`, and arrays of any other size are kept |
| LdapConnection.NormalizedUnique | src/Config/Util/Ldap/Connection.php:484-495 | the normalised data is determined by the input |
| LdapConnection.NormalizeKeepsPlainData | src/Config/Util/Ldap/Connection.php:484-495 | data without one-element arrays is unchanged |
| LdapConnection.Connection.constructor | src/Config/Util/Ldap/Connection.php:61-81 | the port is defaulted; the connection starts unbound and unconnected |
| LdapConnection.ConnectHostScheme | src/Config/Util/Ldap/Connection.php:90-94 | the host passed to `ldap_connect` is the configured name, behind `ldaps://` in SSL mode only |
| LdapConnection.NotBoundIffUnbound | src/Config/Util/Ldap/Connection.php:504-509 | a search or a read fails with "not bound" exactly when the connection is not bound |
| LdapConnection.Connection.Connect | src/Config/Util/Ldap/Connection.php:88-111 | succeeds iff the connect and, for `tls`, the start-TLS succeed; only then is the link stored |
| LdapConnection.Connection.Bind | src/Config/Util/Ldap/Connection.php:172-197 | the native bind is attempted iff the arguments are consistent; `isBound` becomes true only after it succeeds |
| LdapConnection.Connection.Close | src/Config/Util/Ldap/Connection.php:207-223 | "not bound" when unbound; the link is dropped only on a successful unbind |
| LdapConnection.Connection.AddEntry | src/Config/Util/Ldap/Connection.php:235-252 | "not bound" before any request; otherwise an add of the normalised data at the DN |
| LdapConnection.Connection.DeleteEntry | src/Config/Util/Ldap/Connection.php:263-278 | "not bound" before any request; otherwise a delete of the DN |
| LdapConnection.Connection.AddAttributeValues | src/Config/Util/Ldap/Connection.php:303-320 | "not bound" before any request; otherwise a modify-add of the normalised data |
| LdapConnection.Connection.ReplaceAttributeValues | src/Config/Util/Ldap/Connection.php:345-362 | "not bound" before any request; otherwise a modify-replace of the normalised data |
| LdapConnection.Connection.DeleteAttributeValues | src/Config/Util/Ldap/Connection.php:387-404 | "not bound" before any request; otherwise a modify-delete of the normalised data |
| LdapConnection.Connection.Search | src/Config/Util/Ldap/Connection.php:420-475 | gated on binding, dispatched by scope, native failures mapped by errno; a result carries the native entries |
| LdapConnection.Connection.GetEntry | src/Config/Util/Ldap/Connection.php:522-540 | a base-scope search whose "no result" and empty answer become "node not found"; it never reports "no result" |
| LdapConnection.EntryOutcomeCases | src/Config/Util/Ldap/Connection.php:522-540 | "node not found" exactly for errno 32 or no entries; the first entry is returned unchanged; other failures pass through |
| LdapConnection.EntryFromSearch | src/Config/Util/Ldap/Connection.php:522-540 | `getEntry` is `search` with base scope, keeping every failure except "no result" |
| LdapConnection.FreshConnectionIsUnbound | src/Config/Util/Ldap/Connection.php:61 | a new connection refuses a read with "not bound" |
| LdapConnection.BoundAfterBind | src/Config/Util/Ldap/Connection.php:184-196 | after a successful bind, a read returns the directory's entry |
| LdapConnection.HalfAnonymousBindRefused | src/Config/Util/Ldap/Connection.php:174-182 | an rdn without a password is refused before any directory call, and the connection stays unbound |
| ConfigRepository.LoadFromBackend | src/Config/Repository.php:112 | running the loader's own loop gives `BackendLoad` |
| ConfigRepository.Strpos | src/Config/Repository.php:123 | the position of the first occurrence, or none iff the character is absent |
| ConfigRepository.ParseKey | src/Config/Repository.php:121-128 | the group is dot-free; a key without a dot gives `(key, null)`; otherwise `key == group + "." + item` |
| ConfigRepository.StrposAfterGroup | src/Config/Repository.php:123 | the first dot of `group.rest` is the one right after a dot-free group |
| ConfigRepository.ParseKeyRoundTrip | src/Config/Repository.php:121-128 | `group.rest` parses back to `(group, rest)`: the split is at the first dot only |
| ConfigRepository.ParseKeyGroupOnly | src/Config/Repository.php:123-125 | a dot-free key is a whole group with a null item |
| ConfigRepository.KeySegments | src/Config/Repository.php:145 | the segments of `group.rest` are the group followed by the segments of the rest |
| ConfigRepository.GroupSegments | src/Config/Repository.php:145 | a dot-free key is a single segment |
| ConfigRepository.ArrayGet | src/Config/Repository.php:139-154 | the loop gives the whole array for a null key, the literal entry when it is set, and the value along the segments or the default at the first missing key or non-array |
| ConfigRepository.ArraySet | src/Config/Repository.php:167-189 | descend and write back give `SetPath`; a null key replaces the whole target |
| ConfigRepository.Child | src/Config/Repository.php:179-181 | the level `arraySet` descends into is always an array |
| ConfigRepository.SetPathFinds | src/Config/Repository.php:167-189 | the value written is found along its path |
| ConfigRepository.SetPathBuildsArrays | src/Config/Repository.php:173-184 | every level above the written value is an array afterwards, overwriting a missing or non-array entry |
| ConfigRepository.SetPathKeepsDiverging | src/Config/Repository.php:167-189 | any readable path that leaves the written path reads the same afterwards, so siblings at every level are unchanged |
| ConfigRepository.SetPathTopLevel | src/Config/Repository.php:186 | at the top only the first segment is added or replaced; every other entry is kept |
| ConfigRepository.SetTouchesOnlyGroup | src/Config/Repository.php:89-96 | `set` changes only the override of the key's group and keeps the override's keys dot-free |
| ConfigRepository.LoadKeepsGroupKeyed | src/Config/Repository.php:112-114 | a loaded group is cached under its dot-free name |
| ConfigRepository.OverrideAfterSet | src/Config/Repository.php:89-96 | `arrayGet` on the overrides finds the value just set for the same key |
| ConfigRepository.SetThenGet | src/Config/Repository.php:70-71 | after `set(key, v)` with a truthy v, `get(key)` returns v and neither loads nor changes the cache |
| ConfigRepository.FalsySetThenGet | src/Config/Repository.php:89-96 | a falsy override (false, 0, `""`, `"0"`, `array()` or null) does not mask the loaded group: `get(key)` with a null default and `has(key)` answer as if nothing had been set |
| ConfigRepository.UnsetThenGet | src/Config/Repository.php:272-275 | after `unset(key)` (a null override), `get(key)` with a null default and `has(key)` answer from the loaded group as if nothing had been set |
| ConfigRepository.TruthyDefaultShortCircuits | src/Config/Repository.php:70-72 | with no override, a truthy default is returned without loading or consulting the cache |
| ConfigRepository.CachedGroupNotReloaded | src/Config/Repository.php:108-110 | a cached group is never reloaded, whichever loader is installed by then |
| ConfigRepository.LoadGroupCachesTruthy | src/Config/Repository.php:112-114 | the group is cached iff the loader returned a non-empty tree; otherwise the cache is unchanged and the next `get` asks again |
| ConfigRepository.GetTwiceIsStable | src/Config/Repository.php:68-80 | a second identical `get` returns the same value and leaves the same cache |
| ConfigRepository.GetReadsLoadedGroup | src/Config/Repository.php:74-78 | with no truthy override, `get(group.rest)` loads the group once, caches it, and reads the rest inside it |
| ConfigRepository.DotKeyReadsInsideGroup | src/Config/Repository.php:143-153 | a dotted key never names a top-level entry and is read inside its group |
| ConfigRepository.Repository.constructor | src/Config/Repository.php:28-47 | both layers start empty, so `Valid` holds; the loader and environment are kept |
| ConfigRepository.Repository.Get | src/Config/Repository.php:68-80 | the answer and the new cache are `GetAnswer`; a loader fault leaves the cache unchanged |
| ConfigRepository.Repository.Has | src/Config/Repository.php:55-58 | true iff `get(key)` with a null default is not null |
| ConfigRepository.Repository.Set | src/Config/Repository.php:89-96 | only the override layer changes, to `SetSpec`, and every override stays filed under a dot-free group (`Valid`) |
| ConfigRepository.Repository.Load | src/Config/Repository.php:103-115 | the cache after the call is `LoadGroup`; a fault is reported and leaves it unchanged |
| ConfigRepository.Repository.GetLoader | src/Config/Repository.php:196-199 | the current loader |
| ConfigRepository.Repository.SetLoader | src/Config/Repository.php:207-210 | replaces the loader and leaves both caches alone |
| ConfigRepository.Repository.GetEnvironment | src/Config/Repository.php:217-220 | the environment given at construction |
| ConfigRepository.Repository.GetItems | src/Config/Repository.php:227-230 | the loaded groups, overrides not included |
| ConfigRepository.Repository.OffsetExists | src/Config/Repository.php:238-241 | the same as `has` |
| ConfigRepository.Repository.OffsetGet | src/Config/Repository.php:249-252 | the same as `get` with a null default |
| ConfigRepository.Repository.OffsetSet | src/Config/Repository.php:261-264 | the same as `set` |
| ConfigRepository.Repository.OffsetUnset | src/Config/Repository.php:272-275 | `set` with null |
| ConfigRepository.IssetScenario | tests/Config/RepositoryTest.php:69-85 | a key the loaded group lacks is absent, then present after being set to 1, then absent again after `unset` |
| ConfigRepository.UpdateScenario | tests/Config/RepositoryTest.php:125-139 | after setting `group.first` and then `group.second.leaf`, both keys read back their values |
| ConfigRepository.LdapRepositoryGetsNode | tests/Config/LdapTest.php:26-44 | a repository over the LDAP loader returns and caches the attributes of `cn=<group>,ou=Master,dc=example,dc=com` |
| ConfigRepository.LdapRepositoryMissingNode | tests/Config/LdapTest.php:46-56 | when that node is not found, `get` is null and nothing is cached |

## Left out

- `src/Config/Loader/CallbackLoader.php`: it only delegates to a user closure and has no logic of its own.
- `src/Config/Loader/Accessor.php`: `has` passes its arguments to `array_key_exists` in reverse order (line 19), so its behaviour is a PHP runtime error rather than a rule.
- `src/Config/Loader/Ldap/Accessor.php` and the `Search`/entry classes of the LDAP API are not part of this model. A search result is its list of entries, and an entry is its attribute tree.
- `src/Config/LoaderInterface.php` holds declarations only.
- Native LDAP calls are not modelled: `ldap_connect`, `ldap_start_tls`, `ldap_bind`, `ldap_unbind`, the add/modify/delete calls, `ldap_get_option`/`ldap_set_option` and `ldap_err2str`. Whether each succeeds, and the errno of a failed search, are parameters.
- `setOption` and `getOption` are not modelled: they only wrap the native option calls.
- The constructor's `extension_loaded('ldap')` check is not modelled. The extension is taken as present.
- Exceptions are modelled by kind only (`LdapConnection.LdapError`). Their messages, built with `sprintf`, are dropped.
- Filesystem access (`is_file`, `include`) is a map from file name to array. `DIRECTORY_SEPARATOR` is fixed as `/`. The operating system's equivalence of `a//b` and `a/b` is not modelled.
- A PHP file whose `include` returns something other than an array is not modelled. Neither is a failing `include`.
- PHP array order and integer/string key coercion are not modelled: trees are maps with string keys. As a result, `FilterTruthy` on a list of strings stands for `array_filter` followed by the renumbering done by `array_unshift`.
- Floats and objects are not among the values.
- ConfigRepository.SetPath: writing below a string, an integer or `true` leaves the target unchanged. PHP skips the write with a warning for numbers and `true`, but errors or writes a character for strings. The string case is not modelled.
- ConfigRepository.Backend: the repository is also modelled over the older `src/Config/FileLoader.php` (`LegacyFileBackend`), although `Repository::__construct` and `setLoader` (src/Config/Repository.php:43, 207) type-hint `Config\Loader\LoaderInterface`, which that class does not implement, so PHP refuses it.
- LdapLoader.BuildDn: the DN table maps to strings, so the `isset` of a null base DN is not modelled.
- LdapLoader: the loader's connection is the `Directory` function of what `getEntry($dn)->getAttributes()` gives. `ConnectionDirectory` relates it to `Connection`'s decision logic.
- ConfigRepository.ArraySet: the by-reference cursor of the PHP loop is modelled as a descent that records each level, followed by a pass that writes each level back into its parent. The final value is the same, but aliasing is not modelled.
- SearchInterface's scope constants and PHP's loose `switch` comparison are not modelled. The scope is an enumeration with a distinct "no scope" case.
- The repository tests' concrete files under `testfiles` are not part of this model. The scenarios take the loaded group as a parameter.
