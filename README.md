# Contiguous array buffer

A model of `_ContiguousArrayBuffer<T>` from the Swift standard library: the
growable, reference-counted contiguous buffer behind native arrays.

- **Storage** (`ArrayStorage.Storage`) is one allocation. Its header holds the
  live element count, the verbatim-bridging flag and a reference count. Its
  `slots` array has one slot per unit of capacity. Only slots `[0, count)` are
  live, and the capacity never changes after allocation.
- **The shared empty storage**: a storage whose `hasStorage` is false plays
  this role. It has no slots and a count of 0. Members that need it take it as
  the parameter `empty`, and callers pass the same object throughout. Buffers built with
  `max(count, minimumCapacity) == 0`, and buffers copied from an empty
  collection, refer to it. Other empty buffers may sit on real storage (for
  example one built with `count == 0` and a positive `minimumCapacity`).
- **The buffer handle** (`ArrayBuffer.Buffer`) is a value that refers to one
  storage, as the Swift struct does. Many handles may share a storage. The
  storage's reference count says how many handles and slices refer to it, and
  a handle is uniquely referenced when that count is 1.
- **Appending** (`ArrayAppend.Append`) works in place when the new count fits
  the capacity. Otherwise it allocates fresh storage of at least the new count,
  moves the old elements across, sets the old storage's count to 0, switches
  the handle to the new storage and then initialises the tail.
- **Bridging** converts every live element with an abstract `bridge` function
  into a new, independently owned heap buffer.

Calls into code outside this file become parameters:
- `grow: int -> int` stands for `_growArrayCapacity`, the growth policy.
- `verbatim: bool` stands for `_isBridgedVerbatimToObjectiveC(T.self)`.
- `initialCapacity` stands for the sequence's `_underestimateCount()`.
- `elementTypeIsU` and `isU` stand for the static and the dynamic `is U` type tests.
- `empty` is the runtime's statically initialised empty storage.

Debug-mode sanity checks (`_sanityCheck`) and release-mode preconditions
(`_precondition`) are both preconditions of the Dafny members.

The in-place path of `+=` does not check uniqueness, and neither does the
model. `ArrayAppend.AppendToRequestedBuffer` appends to a buffer that
`requestUniqueMutableBackingBuffer` granted and shows that the in-place path
is then taken on unshared storage.

A reallocating `+=` sets the old storage's count to 0 even when another handle
still refers to it (ContiguousArrayBuffer.swift:462-465). The model does the
same: `ArrayAppend.Append` promises `lhs.storage.count == 0` on that path.

The verbatim-bridging flag is a fact about the element type, fixed when a
storage is allocated (ContiguousArrayBuffer.swift:182). The model passes it as
the parameter `verbatim`. Members that allocate record it in the new storage,
and `ArrayAppend.Append` requires it to agree with the flag of the storage it
appends to. That check covers only that one storage: callers must pass one flag
per element type, and the model does not enforce this across separate
allocations.

## Model

| member | source | states |
|---|---|---|
| ArrayStorage.Storage.EmptySingleton | stdlib/core/ContiguousArrayBuffer.swift:15-59 | the shared empty storage has no slots and a count of 0 |
| ArrayStorage.Storage.GetNonVerbatimBridgedCount | stdlib/core/ContiguousArrayBuffer.swift:119-127 | the bridged count is the number of live elements (0 for the empty storage, lines 33-35); requires non-verbatim bridging for a real storage |
| ArrayStorage.Storage.GetNonVerbatimBridgedHeapBuffer | stdlib/core/ContiguousArrayBuffer.swift:129-147 | returns a fresh heap buffer whose header and capacity equal the count and whose slot i is `bridge` of element i; the empty storage yields an empty buffer (lines 37-42) |
| ArrayStorage.Bridged | stdlib/core/ContiguousArrayBuffer.swift:142-145 | reference definition of the conversion loop: same length, element i maps to `bridge` of element i |
| ArrayStorage.BridgeRoundTrip | stdlib/core/ContiguousArrayBuffer.swift:142-145 | converting and converting back with a left inverse gives the original elements in order |
| ArrayStorage.InitializeFrom | stdlib/core/ContiguousArrayBuffer.swift:455 | initialising memory from a collection writes exactly the slots `[at, at + n)` with the source in order and leaves every other slot unchanged |
| ArrayBuffer.Buffer.Count | stdlib/core/ContiguousArrayBuffer.swift:291-295 | the header count is the number of live elements |
| ArrayBuffer.Buffer.SetCount | stdlib/core/ContiguousArrayBuffer.swift:296-308 | requires `0 <= newValue <= capacity` and, on the empty storage, `newValue == 0`; then the count is `newValue`, and the empty storage is not written |
| ArrayBuffer.Buffer.Capacity | stdlib/core/ContiguousArrayBuffer.swift:323-326 | capacity is 0 without storage and never below the count |
| ArrayBuffer.Buffer.StartIndex | stdlib/core/ContiguousArrayBuffer.swift:489-494 | the start index equals the end index exactly when the buffer is empty |
| ArrayBuffer.Buffer.EndIndex | stdlib/core/ContiguousArrayBuffer.swift:495-502 | the end index is reachable from the start index and is the number of live elements |
| ArrayBuffer.Buffer.IsValidSubscript | stdlib/core/ContiguousArrayBuffer.swift:311-321 | requires storage; a subscript is valid iff it lies in `[startIndex, endIndex)`, and then it is within the capacity |
| ArrayBuffer.Buffer.Get | stdlib/core/ContiguousArrayBuffer.swift:271-276 | requires storage and a valid subscript; returns live element i |
| ArrayBuffer.Buffer.Set | stdlib/core/ContiguousArrayBuffer.swift:277-288 | requires `0 <= i < count`; slot i becomes the new value, every other slot and the count are unchanged |
| ArrayBuffer.Buffer.IsUniquelyReferenced | stdlib/core/ContiguousArrayBuffer.swift:358-364 | unique iff the storage's reference count is 1 |
| ArrayBuffer.Buffer.RequestUniqueMutableBackingBuffer | stdlib/core/ContiguousArrayBuffer.swift:237-244 | returns the same buffer iff it is uniquely referenced and its capacity is at least the minimum, None otherwise |
| ArrayBuffer.Buffer.Adopt | stdlib/core/ContiguousArrayBuffer.swift:232-235 | a copy of the handle refers to the same storage, which gains a reference, so neither copy is unique |
| ArrayBuffer.Buffer.UninitializedCopy | stdlib/core/ContiguousArrayBuffer.swift:328-345 | requires `0 <= start <= end <= count`; writes elements `[start, end)` to the target in order, returns `dst + (end - start)`, leaves the rest of the target and the source unchanged |
| ArrayBuffer.Buffer.SubRange | stdlib/core/ContiguousArrayBuffer.swift:347-356 | the slice shares the storage (a new reference), starts at `start` with length `end - start`, and for in-bounds ranges shows exactly elements `[start, end)` |
| ArrayBuffer.Buffer.StoresOnlyElementsOfType | stdlib/core/ContiguousArrayBuffer.swift:404-429 | given that every value of T is a U when T is U, true iff every live element is a U; the static test answers for real storage, and otherwise each element is tested |
| ArrayBuffer.MakeEmpty | stdlib/core/ContiguousArrayBuffer.swift:226-230 | the empty buffer refers to the shared empty storage, with count and capacity 0 |
| ArrayBuffer.Allocate | stdlib/core/ContiguousArrayBuffer.swift:176-187 | fresh, unshared storage whose header count is `count` and whose capacity is at least `max(count, minimumCapacity)` |
| ArrayBuffer.MakeBuffer | stdlib/core/ContiguousArrayBuffer.swift:167-188 | the shared empty storage when `max(count, minimumCapacity) == 0`; otherwise fresh, unshared storage with the requested count, the element type's verbatim flag, and capacity at least `max(count, minimumCapacity)` |
| ArrayAppend.Append | stdlib/core/ContiguousArrayBuffer.swift:444-469 | the elements become the old elements followed by `rhs`; in place (same storage) when the new count fits the capacity; otherwise fresh storage with the same verbatim flag and capacity at least the new count and at least `grow(oldCapacity)`, the old storage's count set to 0, its slots untouched and its reference released |
| ArrayAppend.AppendElement | stdlib/core/ContiguousArrayBuffer.swift:471-474 | appending one element is appending a one-element collection: the same contract as `Append` with one element (element order, both paths, both capacity bounds, the old storage's count, slots and reference) |
| ArrayAppend.AppendToRequestedBuffer | stdlib/core/ContiguousArrayBuffer.swift:237-244 | appending within `m` elements to a buffer granted by `requestUniqueMutableBackingBuffer(m)` keeps the same handle and storage, which stays unshared, and appends `rhs` in order |
| ArrayAppend.CopyCollectionToNativeArrayBuffer | stdlib/core/ContiguousArrayBuffer.swift:530-562 | an empty source gives the shared empty buffer; otherwise a fresh unshared buffer whose count is the source count and whose elements are the source in order |
| ArrayAppend.CopySequenceToNativeArrayBuffer | stdlib/core/ContiguousArrayBuffer.swift:512-528 | appending the source element by element yields a buffer whose elements are the source in order, on fresh unshared storage or on the shared empty storage |

## Left out

- Raw memory: `ManagedBufferPointer`, `_HeapBuffer` layout, `baseAddress`, `identity` and instance size are not modelled. Storage identity is object reference equality, and addresses are array indices.
- Slots at or past `count` hold arbitrary or stale values of `T`: fresh slots are arbitrary, and slots left behind by a lowered count or by a reallocating `+=` keep their old values. No contract reads them as elements.
- Storage allocation is exact: the model gives `max(count, minimumCapacity)` slots, while the runtime may round up to its allocation size. Contracts about storage capacity promise only "at least".
- `ArrayStorage.Storage.GetNonVerbatimBridgedHeapBuffer` allocates the heap buffer with exactly `count` slots, which its contract states. The runtime may round that allocation up too.
- `ArrayBuffer.Buffer.RequestUniqueMutableBackingBuffer` returns the handle value itself and counts no new reference. The caller uses the returned handle in place of its own, so the number of live handles does not change. `Adopt` and `SubRange` do create another handle, and each counts one.
- Reference counting covers the retains made by creating handles and slices. It also covers the release at the end of a reallocating `+=`. Other ARC traffic is not modelled, including a handle going out of scope elsewhere, `_fixLifetime`, `deinit` and the destruction of elements.
- Atomic reference-count updates and concurrent access are not modelled; the model is sequential.
- Uniqueness of the empty storage is not modelled. The runtime uses one type-erased object, `_swiftEmptyArrayStorage`, for every empty array of every element type (ContiguousArrayBuffer.swift:54-55). The model cannot stop a second `EmptySingleton` from being built; it only takes the empty storage as the parameter `empty`, so sharing holds by callers passing the same object.
- The verbatim flag is not tied to the element type. Every allocating member takes `verbatim` as a parameter, so two allocations for one element type can disagree if callers pass different flags; `ArrayAppend.Append` checks the flag only against the storage it appends to.
- Objective-C bridging is not modelled: `_asCocoaArray`, `_SwiftDeferredNSArray`, `_withVerbatimBridgedUnsafeBuffer` and `_ContiguousArrayStorage1`. The verbatim test and `_bridgeToObjectiveCUnconditional` become the parameters `verbatim` and `bridge`.
- `canStoreElementsOfDynamicType` and `staticElementType` are runtime type reflection. `StoresOnlyElementsOfType` takes the static test as a boolean parameter, and its `_isClassOrObjCExistential(U)` precondition is not modelled.
- `replace` is not modelled. It delegates to `_arrayNonSliceInPlaceReplace`, which is not part of this model.
- `_growArrayCapacity`, `_underestimateCount` and the internals of `_SliceBuffer` are not part of this model. Their growth properties (strictly growing, amortised O(1) append) are therefore not stated.
- Some trivial members are not modelled: `requestNativeBuffer`, `isMutable`, `isMutableAndUniquelyReferenced`, `owner`, `init(_ storage:)`, `===`/`!==`, `generate`, and the `withUnsafe*BufferPointer` closures.
- The subscript setter's swap, which exists to keep retains and releases in a particular order, is modelled as a plain slot assignment.
- `_expectEnd` in `_copyCollectionToNativeArrayBuffer` is not modelled. It checks that the collection's count matched its contents, and a Dafny sequence always satisfies that.
- Swift `Int` is 64-bit and its overflow traps. The model uses unbounded integers, so an overflow of `oldCount + count(rhs)` is not modelled.
- `ArrayBuffer.MakeBuffer` takes `count` as a `nat`. The source takes an `Int` but requires the caller to initialise `count` elements, so a negative count is meaningless.
