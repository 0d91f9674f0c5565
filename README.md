# node-gdal-async core, modelled in Dafny

This project models three parts of node-gdal-async, the Node.js binding for GDAL:

- **The object store** (`ObjectStore`, `ptr_manager.dfy`). Every wrapped GDAL object is registered here. The store has:
  - a uid counter that starts at 1;
  - per-kind uid and pointer tables;
  - items that may name a parent dataset;
  - datasets that list their dependents' uids;
  - root datasets that own a semaphore, the "async lock", modelled as a count of 0 or 1.

  The model covers the constructor, the three `add` overloads, `isAlive`, one round of `tryLockDataset` and one of `tryLockDatasets`, both `dispose(item)` paths, `dispose(uid)`, the garbage collector's `weakCallback`, and the item destructors. The destructors are modelled as recorded "close" and "release result set" events.
- **The job abstraction** (`async_job.dfy`). This is `GDALAsyncableJob`'s `persist` map with its automatic decimal keys, and the synchronous `run` path. It also covers `GDALAsyncWorker`'s `Execute`, its OK and error callbacks, and the progress coalescing.
- **The pixel-window arithmetic** (`pixels.dfy`). This covers the resampling option parser, `findLowest`/`findHighest` over a strided window, and the typed-array length computed by `read` and `write`.

`wrappers.dfy` holds `Option`, `Result` and an opaque token for JavaScript objects.

The store is a class whose fields are the source's tables. Each mutating operation is proved against a pure transition function on a `Store` snapshot:
- `Linked` is the state after an add.
- `Unlinked` is the state after the generic dispose.
- `Unregistered` is the state after the dataset's own unregistration.
- `Closing` is the state after the dataset destructor.

The store invariant `Wf` is a conjunction of named predicates:
- every kind has both tables;
- items sit under their own already-issued uid;
- uid tables are typed;
- pointer keys lead to a registered item that wraps that pointer;
- parents are datasets;
- listed dependents are registered and name their parent;
- exactly the root datasets own a lock, with count 0 or 1.

Lemmas prove that every transition preserves `Wf`. Every method of the store keeps `Valid()` (that is, `Wf` of its fields), with one exception. `Link`, the generic add, leaves a new root dataset without its lock, and it promises only `Wf` of the state with that lock added. `AddDataset` then installs the lock and restores `Valid()`.

The dataset cascade is proved against `DatasetDisposal` through the loop invariant `Cascading`. `Cascading` states that the list is a prefix of the one the dataset started with, and that the dependents no longer listed are exactly those gone from the tables. The store invariant says that a dataset lists each dependent once, since `add` appends a freshly issued uid. So `list::remove` of the back dependent takes off just the back. Each turn calls `dispose(uid)` on the dependent at the back of the list, as the source does. `dispose(uid)` looks only in the seven tracked tables. A band, layer, group, array, dimension or attribute dependent is disposed and the list shrinks (`CascadeStep`). A driver or spatial-reference dependent is ignored, and the store is left unchanged. From then on the source's loop repeats the same call forever. The model ends the cascade there with the outcome `Stalled`. So the dispose ends `Done`, with every listed dependent unregistered and the list empty, exactly when every dependent is of a tracked kind. Otherwise it is `Stalled`. The list is then cut back to end at its last untracked dependent, and exactly the dependents behind that one are disposed, all of them of tracked kinds. `StalledStateUnique` shows that this determines the stalled state.

Where the project's documentation and the code differ, the model follows the code. For example, `add` overwrites an existing pointer entry rather than rejecting a duplicate pointer.

## Model

| member | source | states |
|---|---|---|
| PtrManager.ObjectStore.constructor | src/utils/ptr_manager.cpp:39-64 | the counter starts at 1 and every uid and pointer table of every kind starts empty; no locks, no events |
| PtrManager.ObjectStore.Link | src/utils/ptr_manager.cpp:143-166 | the generic add: returns the counter's old value, which is fresh and at least 1, and bumps the counter; the item goes in its kind's uid table and under its pointer, overwriting the previous pointer entry; a nonzero parent gets the uid appended to its dependents |
| PtrManager.ObjectStore.Add | src/utils/ptr_manager.cpp:143-166 | `add` for drivers, bands, spatial references, groups, arrays, dimensions and attributes: the whole new state; the parent must be a registered dataset because `operator[]` is used on it |
| PtrManager.ObjectStore.AddLayer | src/utils/ptr_manager.cpp:169-173 | the generic add of a layer item that carries the result-set flag |
| PtrManager.ObjectStore.AddDataset | src/utils/ptr_manager.cpp:177-184 | the generic add of a dataset item with an empty dependents list; a root dataset gets a fresh lock with count 1, a dependent dataset gets none |
| PtrManager.ObjectStore.IsAlive | src/utils/ptr_manager.cpp:69-77 | true for uid 0; otherwise true exactly when the uid is in one of the seven tracked uid tables; a registered driver or spatial reference is never alive |
| PtrManager.ObjectStore.TryLockDataset | src/utils/ptr_manager.cpp:79-93 | one round: an unregistered uid fails with "Parent Dataset object has already been destroyed"; a free lock goes 1 to 0 and is acquired; a busy lock is left unchanged |
| PtrManager.ObjectStore.TryLockAll | src/utils/ptr_manager.cpp:113-125 | tries the locks in order: acquired exactly when every lock was free, and then exactly those locks are held; otherwise every lock taken is given back and the locks are as before |
| PtrManager.ObjectStore.PostAll | src/utils/ptr_manager.cpp:122 | posting every lock the round took restores the lock counts the round started from |
| PtrManager.ObjectStore.CollectHandles | src/utils/ptr_manager.cpp:104-112 | the first loop of a round: it succeeds exactly when every nonzero uid names a registered dataset, and then the handles are the nonzero uids in order, each owning a lock |
| PtrManager.ObjectStore.TryLockDatasets | src/utils/ptr_manager.cpp:95-130 | one round over the sorted, deduplicated uids with 0 skipped: an unregistered uid throws before any lock is touched; all locks are acquired exactly when every listed dataset's lock was free, and then the handles are those uids in ascending order, each held; otherwise no lock has changed |
| PtrManager.ObjectStore.Post | src/utils/ptr_manager.cpp:122 | giving back a held lock sets its count to 1 |
| PtrManager.ObjectStore.DisposeItem | src/utils/ptr_manager.cpp:228-239 | the generic dispose (`ItemDisposal`): it is blocked exactly when the parent is registered and its lock is held. Otherwise the uid and the pointer key leave the kind's tables, and the uid leaves the parent's list. A parent that is already gone is ignored, and the lock ends as it started |
| PtrManager.ObjectStore.Unlink | src/utils/ptr_manager.cpp:235-237 | the three erasures of the generic dispose give exactly the `Unlinked` state and keep the store invariant |
| PtrManager.ObjectStore.DisposeDataset | src/utils/ptr_manager.cpp:218-225 | the dataset dispose (`DatasetDisposal`): it is blocked exactly when its lock is held. It stalls exactly when its lock is free and it lists a driver or spatial-reference dependent. It then stops with its list cut back to a prefix ending at the last such dependent, and exactly the tracked dependents behind it leave the tables. Otherwise the dataset and every dependent it listed leave every table, its list ends empty, and the locks, counter and events are unchanged |
| PtrManager.ObjectStore.CascadeOne | src/utils/ptr_manager.cpp:224 | one turn of the cascade loop, `dispose(uid)` of the last listed dependent. It makes progress exactly when that dependent is of a tracked kind, and then the list gets shorter. An untracked dependent leaves the whole store unchanged, so the next turn is the same call. `Cascading` holds throughout |
| PtrManager.ObjectStore.Cascade | src/utils/ptr_manager.cpp:224 | the whole loop over the dependents, from the unregistered dataset: it ends in the `Done` or `Stalled` state that `DatasetDisposal` describes |
| PtrManager.ObjectStore.CascadeTracked | src/utils/ptr_manager.cpp:224 | a turn whose last listed dependent is of a tracked kind: the list gets shorter and the cascade invariant holds, with every removed dependent of a tracked kind |
| PtrManager.ObjectStore.DisposeTracked | src/utils/ptr_manager.cpp:253-274 | `dispose(uid)` of a registered non-dataset item of a tracked kind, whose parent is unregistered, gives exactly the `Unlinked` state of the generic dispose |
| PtrManager.ObjectStore.DisposeIgnored | src/utils/ptr_manager.cpp:253-274 | `dispose(uid)` of a driver or spatial reference leaves the whole store unchanged |
| PtrManager.ObjectStore.DisposeUid | src/utils/ptr_manager.cpp:253-274 | a registered dataset gets the dataset dispose; an item in one of the six other tracked tables gets the generic dispose; uid 0 or a uid no checked table holds changes nothing |
| PtrManager.ObjectStore.WeakCallback | src/utils/ptr_manager.cpp:242-250 | the collector disposes the very item the wrapper was made for, by the dispose its kind selects |
| PtrManager.ObjectStore.Destroy | src/utils/ptr_manager.cpp:279-298 | the dataset destructor closes a non-null pointer once and nulls it, so a second run closes nothing; a result-set layer releases its result set to its parent's pointer; every other destructor does nothing |
| PtrManager.LinkedWf | src/utils/ptr_manager.cpp:143-166 | the generic add preserves the store invariant: parents are datasets, dependents are registered and listed once each, pointer keys lead to items wrapping that pointer, and only root datasets own locks |
| PtrManager.LinkedDistinct | src/utils/ptr_manager.cpp:147-151 | the uid that add appends to the parent's list was never issued, so every list keeps each dependent once |
| PtrManager.LinkedKeeps | src/utils/ptr_manager.cpp:143-166 | the new uid was never issued, and add changes no existing item's kind, pointer or parent |
| PtrManager.UnlinkedWf | src/utils/ptr_manager.cpp:228-239 | the generic dispose of a non-dataset item preserves the store invariant |
| PtrManager.UnlinkedDistinct | src/utils/ptr_manager.cpp:236 | removing the item from its parent's list keeps every list free of duplicates |
| PtrManager.UnlinkedKeeps | src/utils/ptr_manager.cpp:228-239 | the generic dispose keeps every item, with its kind, pointer and parent |
| PtrManager.UnlinkedIdempotent | src/utils/ptr_manager.cpp:228-239 | disposing an item a second time changes nothing, since every removal is an erase by key |
| PtrManager.StaleDisposeDropsNewer | src/utils/ptr_manager.cpp:235 | when a newer registered item reused the pointer, the older item's dispose erases that pointer key. The newer item stays registered, still wraps the pointer, and can no longer be found by it |
| PtrManager.UnregisteredWf | src/utils/ptr_manager.cpp:219-222 | unregistering a root dataset from its two tables under its lock preserves the store invariant |
| PtrManager.ClosingWf | src/utils/ptr_manager.cpp:283-289 | nulling an unregistered dataset's pointer preserves the store invariant |
| PtrManager.CascadeStart | src/utils/ptr_manager.cpp:218-222 | after unregistration the cascade invariant holds with nothing yet disposed |
| PtrManager.CascadeChild | src/utils/ptr_manager.cpp:224 | the dependent at the back of the list is a registered non-dataset item whose parent is the dataset |
| PtrManager.CascadeStep | src/utils/ptr_manager.cpp:224 | the generic dispose of the last dependent, which `dispose(uid)` selects for a tracked kind, is never blocked because the dataset is already unregistered. It keeps the cascade invariant, and the new list is the old one without its last element |
| PtrManager.CascadeStepRemoved | src/utils/ptr_manager.cpp:224 | disposing a tracked dependent at the back keeps the cascade invariant, shortens the list, and keeps every removed dependent of a tracked kind |
| PtrManager.CascadeStall | src/utils/ptr_manager.cpp:253-274 | with an untracked dependent at the back, which `dispose(uid)` ignores, the cascade is in the `Stalled` state `DatasetDisposal` describes |
| PtrManager.StalledStateUnique | src/utils/ptr_manager.cpp:218-225 | two stalled disposes of the same dataset from the same state end in the same state |
| PtrManager.UntrackedDependentStalls | src/utils/ptr_manager.cpp:224 | a free root dataset that lists a driver or spatial reference always stalls, and its list is never empty afterwards, so the loop does not end |
| PtrManager.CascadeTables | src/utils/ptr_manager.cpp:233-234 | erasing one more dependent from the tables equals dropping one more uid from the original tables |
| PtrManager.CascadeEnd | src/utils/ptr_manager.cpp:224 | an empty list, with every removed dependent of a tracked kind, means the store is in the `Done` state `DatasetDisposal` describes |
| PtrManager.DropOneMore | src/utils/ptr_manager.cpp:233-234 | erasing one item's uid and pointer key from tables that already lack a set of uids equals dropping the enlarged set |
| PtrManager.DropDataset | src/utils/ptr_manager.cpp:220-221 | erasing a dataset from the two dataset tables equals dropping its uid everywhere |
| PtrManager.Remove | src/utils/ptr_manager.cpp:236 | `std::list::remove`: exactly the other elements stay; the list shrinks when the element was present and is unchanged otherwise |
| PtrManager.RemoveKeepsDistinct | src/utils/ptr_manager.cpp:236 | `list::remove` on a list without duplicates leaves a list without duplicates |
| PtrManager.RemoveBackOfDistinct | src/utils/ptr_manager.cpp:224 | in a list without duplicates, removing the back element by value drops just the last position |
| PtrManager.Canonical | src/utils/ptr_manager.cpp:98-100 | sorting and `std::unique`: strictly increasing with the same elements |
| PtrManager.Insert | src/utils/ptr_manager.cpp:98-100 | inserting into a strictly increasing list keeps it strictly increasing and adds exactly that element |
| PtrManager.NonZero | src/utils/ptr_manager.cpp:105 | skipping uid 0 keeps exactly the nonzero elements and keeps strict increase |
| AsyncJob.NatToString | src/async.hpp:254 | `std::to_string` on an unsigned: a non-empty string of digits without a leading zero, one digit exactly below 10 |
| AsyncJob.DecimalRoundTrip | src/async.hpp:254 | reading the key back as a decimal gives the index |
| AsyncJob.NatToStringInjective | src/async.hpp:254 | distinct indices give distinct keys |
| AsyncJob.PersistAuto | src/async.hpp:253-255 | unkeyed persist stores under the decimal key of `autoIndex`, then bumps `autoIndex` by one, wrapping from 2^32 - 1 back to 0 as an `unsigned` does |
| AsyncJob.AutoKeysSplit | src/async.hpp:254 | the automatic keys of a run are the first key and then those of the rest, and the first key is not among the rest |
| AsyncJob.PersistSeqIndex | src/async.hpp:262-264 | persisting several objects advances `autoIndex` by their number |
| AsyncJob.PersistSeqKeys | src/async.hpp:262-264 | persisting several objects adds exactly their automatic keys and leaves every other key's object unchanged |
| AsyncJob.PersistSeqValueAt | src/async.hpp:262-264 | the j-th object persisted is stored under the key of `autoIndex + j` |
| AsyncJob.AsyncableJob.constructor | src/async.hpp:247 | an empty persist map and `autoIndex` 0 |
| AsyncJob.AsyncableJob.PersistKey | src/async.hpp:249-251 | keyed persist sets or overwrites that key and leaves `autoIndex` unchanged |
| AsyncJob.AsyncableJob.Persist | src/async.hpp:253-255 | unkeyed persist is `PersistAuto` on the job's state |
| AsyncJob.AsyncableJob.PersistPair | src/async.hpp:257-260 | the two-object form equals two unkeyed persists in argument order |
| AsyncJob.AsyncableJob.PersistAll | src/async.hpp:262-264 | the vector form equals one unkeyed persist per object, in order |
| AsyncJob.AsyncableJob.RunAsync | src/async.hpp:266-272 | the async branch hands a fresh worker the job's main function, `rval` and persist map |
| AsyncJob.RunSync | src/async.hpp:273-279 | the sync branch returns `rval(main(p), persistent)` when main returns, and raises main's message without calling `rval` when it throws |
| AsyncJob.AsyncWorker.constructor | src/async.hpp:151-166 | the worker keeps the functions and a copy of the persisted objects |
| AsyncJob.Executed | src/async.hpp:172-179 | a returning `doit` stores its result in `raw`; a throwing one records its message and leaves `raw` as it was |
| AsyncJob.AsyncWorker.Execute | src/async.hpp:172-179 | the worker's state after `Execute` is `Executed` of its state before |
| AsyncJob.AsyncWorker.HandleOKCallback | src/async.hpp:181-190 | exactly two arguments, null and `rval(raw, persistent)` |
| AsyncJob.AsyncWorker.HandleErrorCallback | src/async.hpp:192-197 | exactly one argument, an error carrying the recorded message |
| AsyncJob.QueuedMatchesInline | src/async.hpp:172-190 | when `main` returns, the worker's OK callback sees the very value the sync branch returns; when it throws, the error callback carries the message the sync branch raises |
| AsyncJob.HandleProgressCallback | src/async.hpp:199-213 | no call for null data or an empty burst; otherwise exactly one call carrying the last event of the burst |
| AsyncJob.DeliveriesCount | src/async.hpp:205-212 | one delivery per non-empty burst, and never more deliveries than events sent |
| AsyncJob.DeliveriesFewer | src/async.hpp:205-212 | once any burst holds two or more events, strictly fewer deliveries than events sent |
| AsyncJob.DeliveriesGenerated | src/async.hpp:205-212 | every delivered event is one that was sent |
| AsyncJob.DeliveriesLast | src/async.hpp:205-212 | when any event was sent, the last delivery is the last event sent |
| AsyncJob.CoalescingDelivers | src/async.hpp:205-212 | over a series of bursts: one delivery per non-empty burst, never more than the events sent, fewer as soon as one burst holds two, every delivery is an event that was sent, and the last event sent is delivered last |
| RasterBandPixels.AlgByName | src/collections/rasterband_pixels.cpp:210-221 | a name is found exactly when it is an algorithm's name or the American spelling of nearest neighbour |
| RasterBandPixels.CName | src/collections/rasterband_pixels.cpp:209 | `.c_str()` into a `std::string`: the longest prefix without NUL, which stops at the string's first NUL |
| RasterBandPixels.CNameStopsAtNul | src/collections/rasterband_pixels.cpp:209 | whatever follows the first NUL is cut off |
| RasterBandPixels.CNameWhole | src/collections/rasterband_pixels.cpp:209 | a string without NUL is kept whole |
| RasterBandPixels.ParseResamplingAlgAsWritten | src/collections/rasterband_pixels.cpp:205-222 | null gives nearest neighbour; undefined and every other non-string fail with "resampling property must be a string"; a string's name up to its first NUL is looked up by name |
| RasterBandPixels.ParseResamplingAlg | src/collections/rasterband_pixels.cpp:205-222 | null or undefined gives nearest neighbour; other non-strings fail with "resampling property must be a string"; a string whose name up to its first NUL is in the table gives that algorithm, and any other fails with "Invalid resampling algorithm" |
| RasterBandPixels.ParseNameRoundTrip | src/collections/rasterband_pixels.cpp:210-219 | every algorithm is selected by its own name, and nearest neighbour by both spellings |
| RasterBandPixels.ParseNameIgnoresTail | src/collections/rasterband_pixels.cpp:209-219 | an algorithm's name followed by a NUL and anything else still selects that algorithm |
| RasterBandPixels.UndefinedResamplingRejected | src/collections/rasterband_pixels.cpp:207 | the parser as written and as intended differ exactly on an undefined value |
| RasterBandPixels.FindLowest | src/collections/rasterband_pixels.cpp:224-239 | for a window of at least one pixel, the lowest bound is the index of an actual window pixel |
| RasterBandPixels.FindHighest | src/collections/rasterband_pixels.cpp:241-256 | for a window of at least one pixel, the highest bound is the index of an actual window pixel |
| RasterBandPixels.WindowBounds | src/collections/rasterband_pixels.cpp:224-256 | every pixel index of a window with at least one pixel, for any signs of the spacings, lies between `findLowest` and `findHighest` inclusive |
| RasterBandPixels.CDiv | src/collections/rasterband_pixels.cpp:384 | C++ `/` on a positive divisor truncates toward zero: the quotient times the divisor approaches the dividend from the side of zero, within one divisor |
| RasterBandPixels.CMod | src/collections/rasterband_pixels.cpp:384 | C++ `%` on a positive divisor: dividend = quotient * divisor + remainder, with the remainder taking the dividend's sign and smaller than the divisor in magnitude |
| RasterBandPixels.BufferLength | src/collections/rasterband_pixels.cpp:382-384 | with truncating C++ `/` and `%`, the length is the ceiling of `size / bpp` for a non-negative size |
| RasterBandPixels.ResolveLayout | src/collections/rasterband_pixels.cpp:362-375 | the pixel spacing defaults to `bpp`, the line spacing to the resolved pixel spacing times the buffer width, and the offset to 0; each value the caller supplies is used as given |
| RasterBandPixels.RequiredLength | src/collections/rasterband_pixels.cpp:378-384 | an error exactly when `findLowest` is negative, with the operation's message; otherwise a length of at least one element whose bytes hold every index of the window |
| RasterBandPixels.CeilOfMultiple | src/collections/rasterband_pixels.cpp:384 | the length for `k` whole elements plus a partial or whole one is `k + 1` |
| RasterBandPixels.DefaultLayoutLength | src/collections/rasterband_pixels.cpp:362-384 | with the default spacings and offset, the required length of a `w x h` buffer is exactly `w * h` |
| RasterBandPixels.RequiredLengthTooShort | src/collections/rasterband_pixels.cpp:406 | a 1x1 window of 4-byte pixels at offset 1 is allowed a one-element array, yet the pixel GDAL writes occupies bytes 4 to 7 |
| RasterBandPixels.CoveringLength | src/collections/rasterband_pixels.cpp:378-406 | the length computed in bytes: every byte of every pixel lies within the array, and the check fails exactly when the first byte would come before the array start |
| RasterBandPixels.AlignedHighest | src/collections/rasterband_pixels.cpp:241-256 | with spacings that are multiples of `bpp` and no offset, the highest index is a multiple of `bpp` |
| RasterBandPixels.CoveringLengthAgreesWhenAligned | src/collections/rasterband_pixels.cpp:378-384 | with aligned spacings and a zero offset, the corrected and as-written lengths agree |

## Left out

- Concurrency is not modelled:
  - the recursive master lock;
  - libuv semaphores as real blocking primitives;
  - the spin-and-yield retry loops of `tryLockDataset`/`tryLockDatasets`.

  One round is modelled instead. A busy lock in the generic dispose, or a held lock in the dataset dispose (`uv_sem_wait`), becomes the outcome `Blocked` with nothing changed. Deadlock freedom and the rule never to take the master lock while holding an async lock are thread properties with no sequential contract.
- Dependent datasets (a nonzero parent) own no lock. Waiting on or trying their null semaphore would crash, so this case is kept out by preconditions, not modelled as a failure:
  - `TryLockDataset` and `TryLockDatasets` require every registered dataset they name to be a root.
  - `DisposeDataset`, `DisposeUid` and `WeakCallback` require the dataset to be a root whose dependents are not datasets.
- DisposeDataset: when the cascade reaches a driver or spatial-reference dependent, the source's loop never ends. The model stops there with `Stalled`, and the stalled turn is proved to change nothing, so it cannot express the endless repetition itself.
- `has`, `get`, `lockDataset`, `lockDatasets`, `enqueueJob`, `dequeueJob`, `_tryLockDatasets` and the dataset's `op_queue` are declared but their bodies are not part of this model.
- V8 and NAN plumbing has no counterpart in the model:
  - persistent handles, `SetWeak`, `LOG`;
  - the save/get of persistent objects inside the worker;
  - which of the OK and error callbacks NAN fires;
  - the progress `Send` side.

  JavaScript objects are the opaque `JsObject` token. A callback's arguments are returned as a sequence, not called.
- GDAL calls have no counterpart either: `GDALClose`, `ReleaseResultSet`, `RasterIO`, `GDALGetDataTypeSize`. Closing and releasing are recorded as `Event`s. `bpp` is a positive parameter; a data type of size 0 is not modelled.
- Destructor timing: `Destroy` is called once nothing refers to the item any more, which is when C++ reference counting would run it. Shared-pointer bookkeeping is not modelled.
- The layer destructor reads `parent->ptr` unconditionally. `Destroy` requires a layer to have a parent rather than modelling the null dereference.
- `std::map::operator[]` inserting a default entry for a missing key is not modelled: `Add`/`AddLayer`/`AddDataset` require a nonzero parent to be registered.
- Integer widths:
  - uids are unbounded; the source uses `long` and does not wrap in practice;
  - the pixel arithmetic uses unbounded integers where the source uses 32-bit `int`, so overflow of `offset + x*px + y*ln` is not modelled;
  - `autoIndex` wraps modulo 2^32 like an `unsigned`, but the key lemmas assume no wrap within one run.
- Floating point: progress `complete` values are opaque `real` payloads.
- `RequiredLength`, as the source computes it, is `findHighest + 1` bytes rounded up to whole elements. It does not cover the last `bpp - 1` bytes of a pixel whose spacing is not a multiple of `bpp`. `CoveringLength` covers them.
- The GDAL version branches are modelled as the 3.1-or-later layout: all nine kinds, with groups, arrays, dimensions and attributes tracked.

## Findings

| source | as written | input that shows it | evidently intended | confidence | as-written member | corrected member |
|---|---|---|---|---|---|---|
| src/collections/rasterband_pixels.cpp:207 | `value.IsNull() \|\| value.IsNull()` tests null twice, so an undefined `resampling` argument falls through to the string test and throws "resampling property must be a string" | an omitted (undefined) resampling argument | undefined, like null, selects nearest neighbour | not executed | RasterBandPixels.UndefinedResamplingRejected | RasterBandPixels.ParseResamplingAlg |
| src/collections/rasterband_pixels.cpp:378-406 | the offset counts elements (GDAL gets `data + offset * bpp`), but `findLowest`/`findHighest` add it unscaled to byte indices, so the required length ignores `(bpp - 1) * offset` bytes | an `Int32Array` read with a 1x1 window and offset 1: one element is accepted, and GDAL writes bytes 4 to 7 | the window check and length counted in bytes, with the offset scaled by `bpp` | not executed | RasterBandPixels.RequiredLengthTooShort | RasterBandPixels.CoveringLength |
