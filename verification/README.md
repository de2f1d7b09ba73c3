# Models of wasmtime and wasmtime-py

Machine-checked models of eleven pieces of code in wasmtime and its Python bindings where a property spans
many calls, threads or recursive frames. Each module takes one source file or one mechanism:

| file | models |
|---|---|
| `FreeList.dfy`, `FreeListRuns.dfy`, `FreeListCode.dfy` | the free list the garbage collectors allocate from: what it promises, whole histories, and the code |
| `Exceptions.dfy` | Python exceptions carried across WebAssembly frames by a global slot and a trap |
| `Slab.dfy` | the slab with its free list threaded through the payloads |
| `Values.dfy` | conversion of values, interned objects, roots, and the parameters of a call |
| `Ownership.dfy` | which Python wrapper frees a native object |
| `Search.dfy` | the exponential, then binary, search for the largest pool |
| `HostBuf.dfy` | the fast host-buffer API against the safe one |
| `AsyncPrinter.dfy` | the handshake of two threads over promises |
| `Publish.dfy` | version bumps across manifests, and the publishing loop |
| `Shard.dfy` | the workspace's crates divided into test jobs |
| `CTypes.dfy` | C declarations translated to ctypes |
| `Options.dfy` | the option type they share |

`dafny verify dfyconfig.toml` checks all of it.

Code that updates state is a class or a method with loops, proved against a function on values; what the
source promises is then proved of that function. Native code is a set of transitions: what an embedder's
callback, collector, allocator, registry or thread may do next is a parameter, and the results hold for
every choice.

## Where the code does not do what is promised

For each of these there is the exact condition under which the promise holds, or a proof that it never
does, and an input or a history that shows it failing.

- The free list loses the bump region when that starts at index 16, is not empty and too small, and some
  block is big enough: `alloc_slow` puts it back through `dealloc_impl`, which takes it for memory just
  above the empty bump region at index 16 and makes it the bump region again, and then overwrites it
  (`AllocFree`, `AccountedIffNotLost`, `FreeListRuns.LeakIsReachable`).
- Freeing everything need not leave one region, as the property test of the free list says it does. Only
  the last of all blocks is ever merged into the bump region from below. Over every history it does
  exactly if no allocation leaked and every such omission was made good by a later allocation or by freeing
  below the bump region with nothing free above it (`EndsWholeIff`, `TwoRegionsReachable`). Allocation does
  not suffer from it (`AllocSucceedsIff`).
- `TagType` consumes its function type even when that is borrowed (`ConsumeSoundIffOwning`,
  `BorrowedIsFreedTwice`). The guard of `_set_ptr` tests a name that is never set, so it never refuses.
- A constructor that meets a closed argument leaks the copies of the arguments before it
  (`EveryRunFreesOnce`, `LeaksNothingIff`, `Ownership.LeakIsReachable`).
- Closing an owner leaves wrappers that borrow from it with a freed object (`NeverDanglesIff`,
  `DanglingIsReachable`).
- When making a reference fails, the slot interned for it is never freed (`OrphanIffFailed`,
  `OrphanIsReachable`).
- A result of an unknown kind leaves the results after it rooted (`CallReturns`, `UnknownKeepsRoot`).
- A `Val` made by `_from_raw` cannot be converted again, because its kind is a plain integer
  (`WrappedConvertsIff`, `FromRawNotReusable`).
- `shard` documents disjoint jobs; a crate with several sub-buckets is in several (`DividesIff`,
  `SplitIsTestedTwice`).
- `type_name` yields a pointer to `None` for a pointer to an anonymous struct, union or enum
  (`PointerToNoneIff`, `AnonymousPointsToNone`).
- A published crate that inherits the version of an unpublished root is not bumped, though its dependents
  are rewritten (`BumpConsistentIff`, `InheritedNotBumped`).
- A dependency of an unpublished crate that does not name the current version is left as it is
  (`DependenciesNameNewVersions`, `StaleLineKept`).
- The handshake works for exactly one call to `print` (`SafeIffOnePrint`).
- A print that completes between the poll and the check after it is reported as a yield (`YieldsReported`,
  `BothReported`).

## Model

| member | source | states |
|---|---|---|
| `FreeList.BestFitExists` | wasmtime/crates/wasmtime/src/runtime/vm/gc/enabled/free_list.rs:264-273 | if any block is long enough, the search by length finds one |
| `FreeList.MergeOk` | wasmtime/crates/wasmtime/src/runtime/vm/gc/enabled/free_list.rs:372-455 | whichever neighbours are merged, blocks stay aligned and no two overlap or touch |
| `FreeList.MergeCovers` | wasmtime/crates/wasmtime/src/runtime/vm/gc/enabled/free_list.rs:372-455 | the merged blocks cover exactly what the old ones did and the new range |
| `FreeList.DeallocOk` | wasmtime/crates/wasmtime/src/runtime/vm/gc/enabled/free_list.rs:316-473 | freeing a range that is not free keeps the integrity that `check_integrity` asserts |
| `FreeList.DeallocFree` | wasmtime/crates/wasmtime/src/runtime/vm/gc/enabled/free_list.rs:316-473 | freeing adds exactly the freed range to the free memory, byte by byte |
| `FreeList.RetireIs` | wasmtime/crates/wasmtime/src/runtime/vm/gc/enabled/free_list.rs:255-262 | what putting the bump region back comes to, in closed form; a region at the very first index is not put back at all |
| `FreeList.RetireFree` | wasmtime/crates/wasmtime/src/runtime/vm/gc/enabled/free_list.rs:255-262 | putting the bump region back neither loses nor adds a free byte |
| `FreeList.TakeBestOk` | wasmtime/crates/wasmtime/src/runtime/vm/gc/enabled/free_list.rs:264-297 | cutting an allocation from the best block keeps the integrity, and what is handed out is no longer free |
| `FreeList.TakeBestIff` | wasmtime/crates/wasmtime/src/runtime/vm/gc/enabled/free_list.rs:264-273 | the slow path finds a block exactly when one is long enough |
| `FreeList.TakesLeast` | wasmtime/crates/wasmtime/src/runtime/vm/gc/enabled/free_list.rs:264-292 | an allocation from the blocks leaves as little over as any could, and of equal ones takes the lowest |
| `FreeList.AllocOk` | wasmtime/crates/wasmtime/src/runtime/vm/gc/enabled/free_list.rs:224-298 | allocation keeps the integrity; what is handed out is aligned, inside the memory managed and not free |
| `FreeList.AllocFree` | wasmtime/crates/wasmtime/src/runtime/vm/gc/enabled/free_list.rs:224-298 | what is handed out was free; afterwards exactly the rest is free, except for the bump region when it is lost (`Leaks`: it starts at index 16, is not empty, is too small, and some block is big enough) |
| `FreeList.StretchInOneBlock` | wasmtime/crates/wasmtime/src/runtime/vm/gc/enabled/free_list.rs:644-651 | an unbroken stretch of memory covered by blocks lies inside a single block: neighbours have always been merged |
| `FreeList.AllocSucceedsIff` | wasmtime/crates/wasmtime/src/runtime/vm/gc/enabled/free_list.rs:224-298 | an allocation succeeds if and only if that much free memory lies together anywhere, however it is recorded: no permanent fragmentation |
| `FreeList.DeallocCoalescesIff` | wasmtime/crates/wasmtime/src/runtime/vm/gc/enabled/free_list.rs:316-473 | for every list in order: after freeing, no block touches the bump region from below if and only if none is left out now (not the last of all blocks, or the freed range is above an empty region) and none was before without this call making good for it (being the last block, with the freed range below) |
| `FreeList.AllocCoalesces` | wasmtime/crates/wasmtime/src/runtime/vm/gc/enabled/free_list.rs:224-298 | after every allocation, even a failed one, no block touches the bump region from below |
| `FreeList.WholeIff` | wasmtime/crates/wasmtime/src/runtime/vm/gc/enabled/free_list.rs:165-169 | all memory is one free region (none if there is no memory) if and only if all of it is free and no block touches the bump region |
| `FreeList.AllFreeShapes` | wasmtime/crates/wasmtime/src/runtime/vm/gc/enabled/free_list.rs:644-651 | when all memory is free it is one region or one block and the bump region; never more |
| `FreeList.NewOk` | wasmtime/crates/wasmtime/src/runtime/vm/gc/enabled/free_list.rs:72-102 | a new list is in order and exactly the managed bytes from index 16 are free |
| `FreeList.AddCapacityOk` | wasmtime/crates/wasmtime/src/runtime/vm/gc/enabled/free_list.rs:105-157 | growing keeps the integrity and adds exactly the new bytes, up to what 32 bits can index |
| `FreeListRuns.EveryRunInOrder` | wasmtime/crates/wasmtime/src/runtime/vm/gc/enabled/free_list.rs:508-583 | in every history of allocation, freeing and growth the list is in order, and live ranges are aligned, inside the memory, pairwise apart and never free |
| `FreeListRuns.StepAccounts` | wasmtime/crates/wasmtime/src/runtime/vm/gc/enabled/free_list.rs:105-473 | exactly which bytes one operation leaves accounted for, that is free or live |
| `FreeListRuns.AccountedIffNotLost` | wasmtime/crates/wasmtime/src/runtime/vm/gc/enabled/free_list.rs:105-473 | in every history, a managed byte is free or live if and only if no earlier allocation lost it |
| `FreeListRuns.CapacityIs` | wasmtime/crates/wasmtime/src/runtime/vm/gc/enabled/free_list.rs:105-107 | in every history, the capacity is the initial one and the sum of all that was added, or the largest number there is |
| `FreeListRuns.ManagesAsNew` | wasmtime/crates/wasmtime/src/runtime/vm/gc/enabled/free_list.rs:72-157 | in every history, the bytes that are free or live are those a new list of that total size would manage, except for what allocations lost |
| `FreeListRuns.LeakIsReachable` | wasmtime/crates/wasmtime/src/runtime/vm/gc/enabled/free_list.rs:254-262 | a history of nine operations after which sixteen bytes are neither free nor live |
| `FreeListRuns.CoalescedIffMended` | wasmtime/crates/wasmtime/src/runtime/vm/gc/enabled/free_list.rs:316-473 | in every history, some block touches the bump region if and only if an earlier freeing or growth left one unmerged and no later step made good for it |
| `FreeListRuns.NothingLostIff` | wasmtime/crates/wasmtime/src/runtime/vm/gc/enabled/free_list.rs:254-298 | in every history, every managed byte is free or live if and only if no allocation leaked |
| `FreeListRuns.EndsWholeIff` | wasmtime/crates/wasmtime/src/runtime/vm/gc/enabled/free_list.rs:644-651 | in every history that has freed everything, the memory is one free region again if and only if no allocation leaked and no block was left unmerged without a later step making good for it |
| `FreeListRuns.TwoRegionsReachable` | wasmtime/crates/wasmtime/src/runtime/vm/gc/enabled/free_list.rs:644-651 | a history of fourteen operations that frees everything, loses nothing, and still ends with two regions |
| `FreeListCode.PrevMerges` | wasmtime/crates/wasmtime/src/runtime/vm/gc/enabled/free_list.rs:587-605 | the block before a range is contiguous with it if and only if it is the block that ends there |
| `FreeListCode.NextMerges` | wasmtime/crates/wasmtime/src/runtime/vm/gc/enabled/free_list.rs:587-605 | the block after a range is contiguous with it if and only if it begins where the range ends |
| `FreeListCode.StoredIsMerge` | wasmtime/crates/wasmtime/src/runtime/vm/gc/enabled/free_list.rs:372-455 | the four cases of the code come to one merge, stated without cases |
| `FreeListCode.FreeList.constructor` | wasmtime/crates/wasmtime/src/runtime/vm/gc/enabled/free_list.rs:72-102 | the fields are those of the new list, in order |
| `FreeListCode.FreeList.RemoveFromBlockLenToIndex` | wasmtime/crates/wasmtime/src/runtime/vm/gc/enabled/free_list.rs:476-485 | the index by length loses that entry, and the set with it if it was the last |
| `FreeListCode.FreeList.InsertMerged` | wasmtime/crates/wasmtime/src/runtime/vm/gc/enabled/free_list.rs:358-455 | the blocks become the merge of the old ones with the range, and the index by length still lists exactly the blocks |
| `FreeListCode.FreeList.AbsorbLastBlock` | wasmtime/crates/wasmtime/src/runtime/vm/gc/enabled/free_list.rs:459-468 | the last block joins the bump region if it ends where that begins; both indexes agree |
| `FreeListCode.FreeList.DeallocImpl` | wasmtime/crates/wasmtime/src/runtime/vm/gc/enabled/free_list.rs:316-473 | the fields become those of the specification, and both indexes agree |
| `FreeListCode.FreeList.DeallocFast` | wasmtime/crates/wasmtime/src/runtime/vm/gc/enabled/free_list.rs:309-313 | as `DeallocImpl`, and the integrity is kept |
| `FreeListCode.FreeList.RetireBump` | wasmtime/crates/wasmtime/src/runtime/vm/gc/enabled/free_list.rs:255-262 | the fields become those of the specification |
| `FreeListCode.FreeList.PopBestFit` | wasmtime/crates/wasmtime/src/runtime/vm/gc/enabled/free_list.rs:264-280 | the smallest length that fits, its lowest index; the index by length then lists the other blocks |
| `FreeListCode.FreeList.AllocImpl` | wasmtime/crates/wasmtime/src/runtime/vm/gc/enabled/free_list.rs:224-298 | result and fields are those of the specification, integrity is kept |
| `FreeListCode.FreeList.AddMoreCapacity` | wasmtime/crates/wasmtime/src/runtime/vm/gc/enabled/free_list.rs:105-157 | capacity and fields are those of the specification, integrity is kept |
| `Exceptions.HostAgrees` | wasmtime-py/wasmtime/_func.py:188-250 | for every tree of nested calls, from an empty slot: slot and trap give the outcome of ordinary propagation with the same exception object, the same `Caller`s are usable at every point, and the slot ends empty |
| `Exceptions.WasmAgrees` | wasmtime-py/wasmtime/_func.py:188-250 | the same for native frames; between a failing callback and `enter_wasm` the slot holds exactly the exception being propagated |
| `Exceptions.FailingImport` | wasmtime-py/wasmtime/_func.py:212-216 | a callback that raises is reported either way the native layer has, with its exception parked, and raised again |
| `Exceptions.AgreesIffSlotEmpty` | wasmtime-py/wasmtime/_func.py:230-250 | machine and ordinary propagation agree on all programs if and only if nothing stale is parked |
| `Exceptions.Interpreter.MaybeRaiseLastExn` | wasmtime-py/wasmtime/_func.py:244-250 | returns what is parked and empties the slot |
| `Exceptions.Interpreter.EnterWasm` | wasmtime-py/wasmtime/_func.py:230-241 | outcome and state of leaving WebAssembly, for a trap pointer, an error, or neither |
| `Exceptions.Interpreter.Trampoline` | wasmtime-py/wasmtime/_func.py:188-218 | parks an exception, invalidates the caller on every way out |
| `Exceptions.Interpreter.Execute` | wasmtime-py/wasmtime/_func.py:123-178 | host code behaves as the machine specifies; a `Caller` gives its context or raises, and gives an export or `None`, exactly as it still has its context |
| `Exceptions.Interpreter.Program` | wasmtime-py/wasmtime/_func.py:188-250 | a whole program ends as under ordinary propagation, the slot is empty, and the callers usable are those that were |
| `Slabs.AllocateRefines` | wasmtime-py/wasmtime/_slab.py:15-25 | hands out an index that is not live, changes the map there alone, and grows the list only when every slot is live |
| `Slabs.DeallocateRefines` | wasmtime-py/wasmtime/_slab.py:30-32 | freeing a live slot removes it from the map and nothing else |
| `Slabs.FreeOrLive` | wasmtime-py/wasmtime/_slab.py:11-32 | every slot is live or on the chain of free slots |
| `Slabs.DeallocateSoundIffLive` | wasmtime-py/wasmtime/_slab.py:30-32 | what freeing leaves stands for some map if and only if the slot was live |
| `Slabs.FreedTwiceIsNoMap` | wasmtime-py/wasmtime/_slab.py:30-32 | the only slot freed twice leaves no map |
| `Slabs.StepRefines` | wasmtime-py/wasmtime/_slab.py:15-32 | one call keeps the slab a map, and the list as long as the most that was live |
| `Slabs.EveryRunRefinesMap` | wasmtime-py/wasmtime/_slab.py:11-32 | every reachable slab is the map its user believes in, can allocate, and has exactly as many slots as were ever live at once, even when payloads are ints |
| `Slabs.Slab.AllocateSlot` | wasmtime-py/wasmtime/_slab.py:15-25 | the fields become those of the specification; the live map gains the new index |
| `Slabs.Slab.GetSlot` | wasmtime-py/wasmtime/_slab.py:27-28 | the live value |
| `Slabs.Slab.DeallocateSlot` | wasmtime-py/wasmtime/_slab.py:30-32 | the fields become those of the specification; the live map loses the index |
| `Values.Wrap32` | wasmtime-py/wasmtime/_value.py:35-43 | the signed 32-bit value congruent to the integer |
| `Values.Wrap64` | wasmtime-py/wasmtime/_value.py:45-53 | the signed 64-bit value congruent to the integer |
| `Values.Single` | wasmtime-py/wasmtime/_value.py:55-63 | rounding to single precision changes exactly the floats that are not single |
| `Values.NewExtern` | wasmtime-py/wasmtime/_value.py:132-156 | a new reference stands for its object and disturbs no other |
| `Values.DispatchAsExpected` | wasmtime-py/wasmtime/_value.py:105-156 | the type dispatch fails exactly where it should and otherwise lowers a value standing for the expected object; a `Func` passes for any type |
| `Values.BooleansAreIntegers` | wasmtime-py/wasmtime/_value.py:113-117 | a boolean converts to one or zero |
| `Values.UnknownKindFails` | wasmtime-py/wasmtime/_value.py:154-155 | an unknown kind is refused |
| `Values.ConvertKeeps` | wasmtime-py/wasmtime/_value.py:105-156 | converting keeps every reference as it was, and succeeds exactly when it should |
| `Values.ForeignRunKeeps` | wasmtime-py/wasmtime/_value.py:18-28 | whatever is interned, rooted or collected meanwhile, a rooted reference keeps its object |
| `Values.EveryRunKeepsIdsApart` | wasmtime-py/wasmtime/_value.py:18-28 | in every history the interned ids of existing references are nonzero and pairwise different |
| `Values.RoundTrip` | wasmtime-py/wasmtime/_value.py:105-184 | to raw and back, with anything happening in between, returns the same object, function, null, float at its precision or wrapped integer; and fails exactly when it should |
| `Values.KindKept` | wasmtime-py/wasmtime/_value.py:132-184 | what comes back has the kind that was sent |
| `Values.ReadRoots` | wasmtime-py/wasmtime/_value.py:158-184 | reading takes one root if the caller owns the value, and otherwise none |
| `Values.WrappedConvertsIff` | wasmtime-py/wasmtime/_value.py:105-156 | a `Val` object converts if and only if a constructor made it, its type is the one asked for, its payload is of that type, and a reference can be made where one is needed |
| `Values.FromRawNotReusable` | wasmtime-py/wasmtime/_value.py:158-184 | a `Val` read back never converts again, though its value does |
| `Values.OrphanIffFailed` | wasmtime-py/wasmtime/_value.py:142-147 | in every history, a live slot has no reference, and so is never freed, if and only if an object was interned there and making its reference then failed |
| `Values.OrphanIsReachable` | wasmtime-py/wasmtime/_value.py:142-147 | one failure to make a reference loses a slot |
| `Values.CollectFrees` | wasmtime-py/wasmtime/_value.py:18-20 | collecting an unrooted reference frees its slot and no other, and leaves all other references |
| `Values.SlotBelongs` | wasmtime-py/wasmtime/_value.py:18-28 | in every history, a live slot belongs to exactly one reference not yet collected, or its reference failed to be made |
| `Values.CollectingLeavesOrphans` | wasmtime-py/wasmtime/_value.py:18-20 | collecting all references leaves no slot live but those whose reference failed to be made |
| `Values.ConvertAllRoots` | wasmtime-py/wasmtime/_func.py:83-88 | the references made for the parameters are new, pairwise different and rooted once, up to the first that does not convert |
| `Values.ConvertsUpTo` | wasmtime-py/wasmtime/_func.py:83-88 | the parameters before the first that does not convert stand for the objects expected, none after it is tried, and the error is its own |
| `Values.UnrootAllOnce` | wasmtime-py/wasmtime/_func.py:104-106 | the `finally` loop takes exactly one root from each of them |
| `Values.CallReleasesRoots` | wasmtime-py/wasmtime/_func.py:83-106 | if a parameter does not convert or the native call raises, that is what the call raises, and each root it made is released exactly once; in the first case all roots are what they were |
| `Values.CallReturns` | wasmtime-py/wasmtime/_func.py:83-116 | otherwise the results are the objects returned, and each root the call made and each that came with a result is released exactly once; or a result has an unknown kind, and then exactly the roots of the results after the first such are kept |
| `Values.UnknownKeepsRoot` | wasmtime-py/wasmtime/_func.py:108-110 | a result of an unknown kind leaves a reference after it rooted |
| `Values.ShapeKeeps` | wasmtime-py/wasmtime/_func.py:111-116 | all results are returned in order: nothing for none, the value for one, and a list for more |
| `Values.Runtime.InternObject` | wasmtime-py/wasmtime/_value.py:23-24 | a nonzero id, one above a slot that was not live |
| `Values.Runtime.UninternObject` | wasmtime-py/wasmtime/_value.py:27-28 | the object interned |
| `Values.Runtime.ExternrefFinalizer` | wasmtime-py/wasmtime/_value.py:18-20 | the slot is freed with the reference, and the store stays consistent |
| `Values.Runtime.LowerVal` | wasmtime-py/wasmtime/_value.py:132-156 | result and store of the specification, at an index the slab really hands out |
| `Values.Runtime.Lower` | wasmtime-py/wasmtime/_value.py:105-130 | the same for a value of any type |
| `Values.Runtime.Lift` | wasmtime-py/wasmtime/_value.py:158-184 | result and store of the specification |
| `Values.Runtime.FillParams` | wasmtime-py/wasmtime/_func.py:83-88 | the array and counter hold exactly the parameters converted before the first error |
| `Values.Runtime.UnrootParams` | wasmtime-py/wasmtime/_func.py:104-106 | unroots exactly the parameters counted |
| `Values.Runtime.DecodeResults` | wasmtime-py/wasmtime/_func.py:108-110 | reads the results in order up to the first of an unknown kind, releasing their roots |
| `Values.Runtime.Call` | wasmtime-py/wasmtime/_func.py:74-116 | result and store of the specification on every way out; a wrong number of parameters changes nothing |
| `Ownership.CloseInv` | wasmtime-py/wasmtime/_managed.py:29-45 | closing frees what the wrapper answers for, once, and nothing else |
| `Ownership.CopyAllInv` | wasmtime-py/wasmtime/_types.py:98-133 | the copies a constructor makes are new objects nobody owns yet |
| `Ownership.AdoptInv` | wasmtime-py/wasmtime/_types.py:110-133 | wrapping a new object made of those copies keeps the books in order |
| `Ownership.TagInv` | wasmtime-py/wasmtime/_types.py:480-487 | consuming an owned function type hands all its parts to the new tag type |
| `Ownership.ConsumeSoundIffOwning` | wasmtime-py/wasmtime/_types.py:480-487 | consuming keeps the books in order if and only if the wrapper consumed owns its object |
| `Ownership.LeaksNothingIff` | wasmtime-py/wasmtime/_types.py:98-133 | a constructor loses no copy if and only if no argument is closed or the first one is |
| `Ownership.StepFrees` | wasmtime-py/wasmtime/_managed.py:29-45 | an operation frees exactly what the wrapper it closes owns |
| `Ownership.StepKeeps` | wasmtime-py/wasmtime/_managed.py:24-95 | an operation changes no wrapper but the one made, consumed, closed or dropped |
| `Ownership.NeverDanglesIff` | wasmtime-py/wasmtime/_types.py:148-164 | in every run, no wrapper ever holds a freed object if and only if no owner is closed while another wrapper holds its object or a part of it |
| `Ownership.SoundReads` | wasmtime-py/wasmtime/_types.py:98-106 | where no wrapper holds a freed object, no operation reads one |
| `Ownership.DanglingIsRead` | wasmtime-py/wasmtime/_types.py:98-106 | where one does, a constructor given it reads a freed object |
| `Ownership.DanglingIsReachable` | wasmtime-py/wasmtime/_types.py:505-509 | four calls after which a wrapper holds a freed object |
| `Ownership.StepInv` | wasmtime-py/wasmtime/_managed.py:24-95 | every operation keeps the books in order; only constructors that meet a closed argument leak |
| `Ownership.EveryRunFreesOnce` | wasmtime-py/wasmtime/_managed.py:24-95 | after every run, an object is freed zero times while some wrapper owns it or an object around it, and exactly once when none does, except the copies of arguments before a closed one, which are never freed |
| `Ownership.LeakIsReachable` | wasmtime-py/wasmtime/_types.py:110-133 | four calls after which a copy is lost |
| `Ownership.BorrowedIsFreedTwice` | wasmtime-py/wasmtime/_types.py:480-509 | once a borrowed function type is consumed, closing both owners frees it twice |
| `Ownership.BorrowedIsReachable` | wasmtime-py/wasmtime/_types.py:480-509 | such a state is three calls away |
| `Ownership.CopyAllOkIff` | wasmtime-py/wasmtime/_types.py:98-106 | a constructor gets all its copies if and only if no argument is closed |
| `Ownership.Bindings.FillVector` | wasmtime-py/wasmtime/_types.py:118-128 | the loop copies the arguments in order up to the first closed one |
| `Ownership.Bindings.InitFuncType` | wasmtime-py/wasmtime/_types.py:110-133 | objects and wrappers of the specification for parameters followed by results; succeeds if and only if none is closed |
| `Ownership.Bindings.InitTagType` | wasmtime-py/wasmtime/_types.py:480-487 | the function type is consumed and becomes a part of the new tag type, whoever owns it |
| `Ownership.Bindings.CloseObject` | wasmtime-py/wasmtime/_managed.py:29-45 | frees the object with its parts exactly if the wrapper owns it |
| `Ownership.Managed.SetPtr` | wasmtime-py/wasmtime/_managed.py:24-27 | sets the pointer, always: the guard never fires |
| `Ownership.Managed.ClosePtr` | wasmtime-py/wasmtime/_managed.py:29-45 | what is destroyed, and the wrapper afterwards; closing twice destroys nothing more |
| `Ownership.Managed.Ptr` | wasmtime-py/wasmtime/_managed.py:47-64 | the pointer, or an error if never set or closed |
| `Ownership.Managed.Consume` | wasmtime-py/wasmtime/_managed.py:66-73 | the pointer; closing afterwards destroys nothing |
| `Search.GrowStep` | wasmtime/examples/mpk.rs:163-178 | an accepted probe while growing doubles the gap, within 32 bits |
| `Search.FirstFailure` | wasmtime/examples/mpk.rs:163-178 | the first refusal leaves the threshold below the implied bound |
| `Search.ShrinkStep` | wasmtime/examples/mpk.rs:163-178 | while shrinking the refused bound is `last` plus twice the gap, and never over- or underflows |
| `Search.ThresholdStep` | wasmtime/examples/mpk.rs:163-178 | a step of a search for a threshold below 2^32 - 1 stays in range and on track |
| `Search.BeyondStep` | wasmtime/examples/mpk.rs:163-178 | for a larger threshold, recording overflows exactly at the probe of 2^32 - 1 |
| `Search.Probes` | wasmtime/examples/mpk.rs:93-113 | the exact number of probes is at most 2 * floor(log2(T + 1)) + 2 |
| `Search.RecordPanicsIff` | wasmtime/examples/mpk.rs:163-178 | exactly when recording overflows, from any state in order |
| `Search.RecordGap` | wasmtime/examples/mpk.rs:163-178 | an accepted probe becomes the lower bound, a refused one ends growth; the gap doubles, or halves, rounded up after an accepted probe and down after a refused one |
| `Search.LastBuiltIs` | wasmtime/examples/mpk.rs:93-113 | the pool reported is the one probe that succeeded with none succeeding after it, or 0 and 0 |
| `Search.ExponentialSearch.RecordOutcome` | wasmtime/examples/mpk.rs:163-178 | the fields of the specification, or the panic exactly where 32-bit arithmetic fails |
| `Search.ProbeEngineSize` | wasmtime/examples/mpk.rs:93-113 | ends for every machine; a result is the latest success with its own measurement, one below a final failed probe; against a threshold T it is T after exactly `Probes(T)` attempts, and panics if and only if T is at least 2^32 - 1 |
| `HostBuf.Add64` | wasmtime/benches/compile_time_builtins.rs:170-171 | 64-bit addition modulo 2^64 |
| `HostBuf.WordRoundTrip` | wasmtime/benches/compile_time_builtins.rs:40-50 | a header word written least significant byte first is read back |
| `HostBuf.Store.constructor` | wasmtime/benches/compile_time_builtins.rs:63-72 | writing the header of an allocated buffer apart from it makes a store that both APIs can rely on, and leaves the buffer as it was |
| `HostBuf.IncreasedTwice` | wasmtime/benches/compile_time_builtins.rs:316-328 | increasing by j and then k is increasing by their sum, modulo 256 |
| `HostBuf.IncreasedZeros` | wasmtime/benches/compile_time_builtins.rs:316-328 | zeros end as the number of iterations modulo 256 |
| `HostBuf.Store.HostGet` | wasmtime/benches/compile_time_builtins.rs:101-107 | the byte of the slice, or an error out of bounds |
| `HostBuf.Store.HostSet` | wasmtime/benches/compile_time_builtins.rs:109-118 | stores the byte or fails; header and all other memory unchanged |
| `HostBuf.Store.HostLen` | wasmtime/benches/compile_time_builtins.rs:120-124 | the length of the slice |
| `HostBuf.Store.BoundsCheck` | wasmtime/benches/compile_time_builtins.rs:159-164 | traps if and only if the index is not below the length |
| `HostBuf.Store.WatGet` | wasmtime/benches/compile_time_builtins.rs:168-171 | the same result as the closure, for every 64-bit index |
| `HostBuf.Store.WatSet` | wasmtime/benches/compile_time_builtins.rs:175-179 | the same effect as the closure; header and all other memory unchanged |
| `HostBuf.Store.WatLen` | wasmtime/benches/compile_time_builtins.rs:182-184 | the same result as the closure |
| `HostBuf.Store.GuestMain` | wasmtime/benches/compile_time_builtins.rs:253-276 | ends for every buffer length, never traps, adds one to every byte and changes nothing else, with either API underneath |
| `HostBuf.Store.Bench` | wasmtime/benches/compile_time_builtins.rs:316-328 | `iters` calls add `iters` modulo 256 to every byte, with either API underneath |
| `AsyncPrinter.NextInv` | wasmtime/examples/async.cc:117-160 | what every step of either thread keeps |
| `AsyncPrinter.RunsOut` | wasmtime/examples/async.cc:262-287 | from every reachable state some interleaving reaches the end, a crash or a deadlock |
| `AsyncPrinter.OnePrintIsSafe` | wasmtime/examples/async.cc:117-287 | with one call to `print`, in every interleaving: no throw, no deadlock, the guest resumes only after the signal, the future is consumed only when valid and exactly once by the end, and the end stays reachable |
| `AsyncPrinter.EveryInterleavingEnds` | wasmtime/examples/async.cc:117-287 | no scheduling runs forever: every interleaving of any guest is at most 10 times its length plus 33 states, and with one call to `print`, one that cannot go on has finished |
| `AsyncPrinter.YieldsReported` | wasmtime/examples/async.cc:262-273 | at the end every yield of the guest has been reported, and at most one more |
| `AsyncPrinter.BothReported` | wasmtime/examples/async.cc:262-273 | both happen: a print that completes between the poll and the check is reported as a yield |
| `AsyncPrinter.SafeIffOnePrint` | wasmtime/examples/async.cc:117-287 | no crash and no deadlock is reachable if and only if the guest calls `print` exactly once |
| `Publish.BumpsIff` | wasmtime/scripts/publish.rs:419-435 | a bump panics exactly when the component it increases is the largest there is |
| `Publish.BumpMeaning` | wasmtime/scripts/publish.rs:419-435 | the new version is the next one after a patch bump, and otherwise the first that dependents of the old one do not accept, by section 11 of Semantic Versioning 2.0.0; dependents accept it exactly after a patch bump of a version other than 0.0 |
| `Publish.SectionIff` | wasmtime/scripts/publish.rs:326-330 | a line is in a dependency section if and only if the last header before it is for dependencies |
| `Publish.VersionLinesBumped` | wasmtime/scripts/publish.rs:318-324 | a version line is bumped if and only if it is outside dependency sections, in the manifest of a published crate, and gives its version |
| `Publish.UnpublishedIgnored` | wasmtime/scripts/publish.rs:332-345 | a dependency on no published crate is neither changed nor refused |
| `Publish.RewriteAt` | wasmtime/scripts/publish.rs:314-380 | one line out for every line in, each rewritten according to its section |
| `Publish.RewriteDepAbout` | wasmtime/scripts/publish.rs:332-375 | what happens to a line about a published crate, wherever that is in the list |
| `Publish.DependenciesNameNewVersions` | wasmtime/scripts/publish.rs:332-375 | in any manifest, a versioned dependency on a published crate ends up naming its new version if and only if it named the current one or that new one already; in the manifest of a published crate it always does, exactly unless that crate is public; whatever the order of the crates |
| `Publish.StaleLineKept` | wasmtime/scripts/publish.rs:346-348 | an unpublished crate that names an old version still names it after the bump |
| `Publish.PanicsIffRefused` | wasmtime/scripts/publish.rs:303-382 | the script panics if and only if one of the lines is refused |
| `Publish.RewriteDependency` | wasmtime/scripts/publish.rs:332-375 | the inner loop finds the line of the specification |
| `Publish.RewriteOneLine` | wasmtime/scripts/publish.rs:316-379 | one line and the section flag for the next |
| `Publish.BumpVersion` | wasmtime/scripts/publish.rs:303-382 | the whole manifest of the specification, or a panic |
| `Publish.RereadIs` | wasmtime/scripts/publish.rs:258-301 | the version that each rewritten manifest will be read with, wherever its version line is |
| `Publish.BumpConsistentIff` | wasmtime/scripts/publish.rs:258-382 | the versions read back are those the dependents now require if and only if every published crate is read from a line that was bumped: not inherited from an unpublished root, and not in a dependency section |
| `Publish.InheritedNotBumped` | wasmtime/scripts/publish.rs:258-382 | a published crate inheriting 1.0.0 from an unpublished root is read at 1.0.0 again, where its dependents require 2.0.0 |
| `Publish.RetainKeeps` | wasmtime/scripts/publish.rs:185-190 | what stays is an order-preserving subsequence; nothing is lost between what stays and the registry |
| `Publish.RetainSplits` | wasmtime/scripts/publish.rs:185-190 | a crate stays if and only if it is to be published and is not on the registry after the round |
| `Publish.RetainSorted` | wasmtime/scripts/publish.rs:185-190 | whatever fails, what stays is still sorted by dependencies |
| `Publish.FailureFreeEmpties` | wasmtime/scripts/publish.rs:185-190 | a round without transient failures publishes everything left |
| `Publish.RetainAll` | wasmtime/scripts/publish.rs:186-186 | one attempt per crate, in order |
| `Publish.PublishAll` | wasmtime/scripts/publish.rs:185-199 | one failure-free round among ten is enough, and success means every crate is out |
| `Publish.SortedByPosition` | wasmtime/scripts/publish.rs:159-164 | crates sorted by position in a topologically sorted list have their dependencies before them |
| `Shard.FillGeneric` | wasmtime/ci/build-test-matrix.js:260-266 | every third crate without a bucket of its own, for each generic bucket |
| `Shard.PushEntries` | wasmtime/ci/build-test-matrix.js:267-277 | one bucket per single crate, and one per sub entry of a split crate |
| `Shard.ExpandConfig` | wasmtime/ci/build-test-matrix.js:283-335 | one job per bucket, or per crate a configuration is restricted to |
| `Shard.ShardConfigs` | wasmtime/ci/build-test-matrix.js:252-338 | all jobs of all configurations, in order |
| `Shard.JobNamesEveryMember` | wasmtime/ci/build-test-matrix.js:288-322 | every job names each member exactly once and nothing else: as a package if it is in the bucket, and as excluded otherwise |
| `Shard.TestedAsOften` | wasmtime/ci/build-test-matrix.js:252-338 | every member is tested by exactly one job of an unrestricted configuration, or by one per bucket its entries make |
| `Shard.TestedWith` | wasmtime/ci/build-test-matrix.js:252-338 | the jobs that test a member have exactly the extra arguments that its entries give, in order, and none if it has no entries |
| `Shard.OnlyTests` | wasmtime/ci/build-test-matrix.js:288-305 | a configuration for one crate has one job, which tests that crate and excludes all others |
| `Shard.EachTests` | wasmtime/ci/build-test-matrix.js:288-305 | a configuration for several crates has one job for each, and tests a member as often as it is listed |
| `Shard.JobsOfEach` | wasmtime/ci/build-test-matrix.js:282-338 | every configuration gets exactly its own jobs |
| `Shard.DividesIff` | wasmtime/ci/build-test-matrix.js:224-228 | the jobs are disjoint and cover the workspace if and only if no member is split into several buckets or none |
| `Shard.SplitIsTestedTwice` | wasmtime/ci/build-test-matrix.js:224-228 | a crate split in two is tested by two jobs of one configuration |
| `Shard.EveryThirdSize` | wasmtime/ci/build-test-matrix.js:260-266 | the exact size of each generic bucket; they differ by at most one |
| `CTypes.TypeNameIsMeaning` | wasmtime-py/ci/cbindgen.py:201-279 | for every type tree the flag-driven recursion computes the compositional translation, failing on the same trees |
| `CTypes.ScalarKept` | wasmtime-py/ci/cbindgen.py:213-257 | every name translated specially keeps width, signedness and kind, and every other name is left as it is |
| `CTypes.FixedWidthNames` | wasmtime-py/ci/cbindgen.py:224-239 | a fixed-width integer becomes the ctypes class of the same name |
| `CTypes.NamesKeptApart` | wasmtime-py/ci/cbindgen.py:213-257 | different C names are translated differently, but for `void` and a type called `None` |
| `CTypes.AnnotatedScalars` | wasmtime-py/ci/cbindgen.py:213-251 | annotations name the Python type of booleans, floats and wide integers, and the ctypes class of the others |
| `CTypes.AnnotatedOthers` | wasmtime-py/ci/cbindgen.py:253-257 | callbacks are annotated as pointers, sizes and page counts as integers, and all else by name |
| `CTypes.Annotated` | wasmtime-py/ci/cbindgen.py:201-279 | every pointer and array is annotated as a pointer, and everything else that is not a name as in the plain output |
| `CTypes.DepthKept` | wasmtime-py/ci/cbindgen.py:201-279 | pointer and array depth is kept, but for the level absorbed by a function or by `void`, which becomes `c_void_p`; what is innermost is otherwise the translation of the innermost type |
| `CTypes.PointerToNoneIff` | wasmtime-py/ci/cbindgen.py:201-279 | a pointer to `None` comes out if and only if something translated points straight at a nameless type |
| `CTypes.AnonymousPointsToNone` | wasmtime-py/ci/cbindgen.py:201-279 | a pointer to an anonymous struct becomes a pointer to `None` |
| `CTypes.TypeNameFaithful` | wasmtime-py/ci/cbindgen.py:201-279 | both, about `type_name` itself with or without the pointer flag |

## Left out

- Values.Single: which doubles round to which single-precision number is not modelled; a float is named by the one it rounds to.
- Values.Runtime.LowerVal: a `Val` of a float kind that was given an integer payload by the bare constructor fails here, where ctypes converts the integer.
- Values.WrappedConvertsIff: is about payloads of the kind's own Python type, as the constructors of `Val` make them, in the same way.
- Values.DispatchAsExpected: in the same way.
- Values: one store and one slab; `Func` objects are identities; vector, `anyref` and exception kinds are one kind that always fails to convert; the native call is a list of events on the store, with what it raises or returns.
- `Pool.compare` in `examples/mpk.rs`, which is floating-point output.
- `Linker.define_module`: it enters WebAssembly without `enter_wasm`, so nothing about exceptions is claimed for it.
- Exceptions: one thread. A `Caller` is a flag that says whether it still has its context, not an object on the heap; what callbacks return is not modelled.
- Ownership.Managed.SetPtr: a pointer is taken to be set once per object, since the guard does not enforce it; a native constructor that fails is not modelled.
- Ownership.Bindings.InitFuncType: the two vectors are not objects of their own, so their storage, lost with the copies when an argument is closed, is not counted.
- Ownership: Python objects are identities in a map of wrappers; `Managed` is one wrapper's own methods on its fields.
- FreeListCode.FreeList.AllocImpl: ordered maps are finite maps with the queries of an ordered map; indices are unbounded integers with the 32-bit checks written out. Layouts and rounding of sizes happen before it.
- Publish: manifests are sequences of lines of five kinds, each about at most one crate, and a version occurs in a line only as a version; the text of TOML, the C header, `cargo`, `curl` and `git` are not modelled. Sorting itself is `sort_by_key`; what a sorted list gives is `SortedByPosition`.
- Shard.ExpandConfig: job names are not modelled, and the command line is its list of flags and extra arguments.
- CTypes.TypeNameFaithful: is about the plain output; what annotations are is in `Annotated`.
- HostBuf: the list variant of the guest, and the allocation and release of the buffer.
- AsyncPrinter: timing, and exceptions of the standard library other than those of promises and futures used twice or not valid.
- The start barrier of `benches/instantiation.rs`: that all workers are running before the measurement, and stop after it.
- Release selection in `ci/trigger-release-branch-ci.rs`: which branches are the latest three and the long-term ones.
- Slices of linear memory in `_memory.py`: index normalisation and copying.
- The rest of the runtime, the compiler, and the thin wrappers over native calls.
