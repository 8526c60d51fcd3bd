/**
 * Appending to a buffer (the two `+=` operators) and building a buffer from a
 * collection or a sequence. The growth policy and the per-type verbatim
 * bridging fact are defined elsewhere in the runtime and arrive as parameters.
 */
module ArrayAppend {
  import opened Options
  import opened ArrayStorage
  import opened ArrayBuffer

  /** Appends `rhs` to `lhs` and returns the resulting handle (`lhs` is an
      inout parameter in the source). In place when the new count fits the
      capacity; otherwise the elements move to fresh storage of at least the
      new count, the old storage's count drops to 0, and the old storage loses
      the reference `lhs` held. The in-place path does not check uniqueness. */
  method Append<T(0)>(lhs: Buffer<T>, rhs: seq<T>, verbatim: bool, grow: int -> int)
    returns (res: Buffer<T>)
    requires lhs.Valid()
    requires lhs.storage.hasStorage ==> lhs.storage.verbatim == verbatim
    modifies lhs.storage, lhs.storage.slots
    ensures res.Valid() && lhs.storage.Valid()
    ensures res.Count() == old(lhs.Count()) + |rhs|
    ensures res.Elements() == old(lhs.Elements()) + rhs
    ensures old(lhs.Count()) + |rhs| <= old(lhs.Capacity()) ==>
      res == lhs && lhs.storage.refCount == old(lhs.storage.refCount)
    ensures old(lhs.Count()) + |rhs| > old(lhs.Capacity()) ==>
      fresh(res.storage) && fresh(res.storage.slots) && res.storage.hasStorage && res.storage.refCount == 1 &&
      res.storage.verbatim == verbatim &&
      res.Capacity() >= old(lhs.Count()) + |rhs| && res.Capacity() >= grow(old(lhs.Capacity())) &&
      lhs.storage.count == 0 && lhs.storage.refCount == old(lhs.storage.refCount) - 1 &&
      lhs.storage.slots[..] == old(lhs.storage.slots[..])
  {
    var oldCount := lhs.Count();
    var newCount := oldCount + |rhs|;
    ghost var oldElements := lhs.Elements();
    if newCount <= lhs.Capacity() {
      lhs.SetCount(newCount);
      InitializeFrom(lhs.storage.slots, oldCount, rhs);
      res := lhs;
      assert res.Elements() == lhs.storage.slots[..oldCount] + lhs.storage.slots[oldCount..newCount];
    } else {
      var newLhs := Allocate(newCount, grow(lhs.Capacity()), verbatim);
      if lhs.storage.hasStorage {
        InitializeFrom(newLhs.storage.slots, 0, lhs.storage.slots[..oldCount]);
        lhs.storage.count := 0;
      }
      // swap(&lhs, &newLHS): the result is the new storage
      res := newLhs;
      InitializeFrom(res.storage.slots, oldCount, rhs);
      // the swapped-out handle, now on the old storage, goes out of scope
      lhs.storage.refCount := lhs.storage.refCount - 1;
      assert res.Elements() == res.storage.slots[..oldCount] + res.storage.slots[oldCount..newCount];
    }
  }

  /** Appends the single element `x`. */
  method AppendElement<T(0)>(lhs: Buffer<T>, x: T, verbatim: bool, grow: int -> int)
    returns (res: Buffer<T>)
    requires lhs.Valid()
    requires lhs.storage.hasStorage ==> lhs.storage.verbatim == verbatim
    modifies lhs.storage, lhs.storage.slots
    ensures res.Valid() && lhs.storage.Valid()
    ensures res.Count() == old(lhs.Count()) + 1
    ensures res.Elements() == old(lhs.Elements()) + [x]
    ensures old(lhs.Count()) + 1 <= old(lhs.Capacity()) ==>
      res == lhs && lhs.storage.refCount == old(lhs.storage.refCount)
    ensures old(lhs.Count()) + 1 > old(lhs.Capacity()) ==>
      fresh(res.storage) && fresh(res.storage.slots) && res.storage.hasStorage && res.storage.refCount == 1 &&
      res.storage.verbatim == verbatim &&
      res.Capacity() >= old(lhs.Count()) + 1 && res.Capacity() >= grow(old(lhs.Capacity())) &&
      lhs.storage.count == 0 && lhs.storage.refCount == old(lhs.storage.refCount) - 1 &&
      lhs.storage.slots[..] == old(lhs.storage.slots[..])
  {
    res := Append(lhs, [x], verbatim, grow);
  }

  /** Appending to a buffer granted by `RequestUniqueMutableBackingBuffer(m)`,
      within `m` elements, takes the in-place path: the handle keeps its
      storage, which stays unshared, and no reallocation happens. */
  method AppendToRequestedBuffer<T(0)>(b: Buffer<T>, m: int, rhs: seq<T>, verbatim: bool, grow: int -> int)
    returns (res: Buffer<T>)
    requires b.Valid()
    requires b.storage.hasStorage ==> b.storage.verbatim == verbatim
    requires b.RequestUniqueMutableBackingBuffer(m) == Some(b)
    requires b.Count() + |rhs| <= m
    modifies b.storage, b.storage.slots
    ensures res == b && res.Valid() && res.IsUniquelyReferenced()
    ensures res.Elements() == old(b.Elements()) + rhs
  {
    res := Append(b, rhs, verbatim, grow);
  }

  /** A buffer holding the elements of a collection whose count is known:
      the shared empty storage for an empty source, otherwise fresh storage
      of exactly that count filled in order. */
  method CopyCollectionToNativeArrayBuffer<T(0)>(source: seq<T>, verbatim: bool, empty: Storage<T>)
    returns (result: Buffer<T>)
    requires empty.IsEmptySingleton()
    modifies empty`refCount
    ensures result.Valid() && result.Count() == |source| && result.Elements() == source
    ensures |source| == 0 ==>
      result.storage == empty && empty.refCount == old(empty.refCount) + 1
    ensures |source| > 0 ==>
      fresh(result.storage) && result.Capacity() >= |source| && result.storage.refCount == 1 &&
      result.storage.verbatim == verbatim && empty.refCount == old(empty.refCount)
  {
    var count := |source|;
    if count == 0 {
      result := MakeEmpty(empty);
      return;
    }
    result := Allocate(count, 0, verbatim);
    for i := 0 to count
      modifies result.storage.slots
      invariant forall k :: 0 <= k < i ==> result.storage.slots[k] == source[k]
    {
      result.storage.slots[i] := source[i];
    }
    assert result.Elements() == source;
  }

  /** A buffer holding the elements of a sequence whose length is not known up
      front: start from `initialCapacity` (the source's underestimate of its
      count) and append one element at a time. */
  method CopySequenceToNativeArrayBuffer<T(0)>(
    source: seq<T>, initialCapacity: int, verbatim: bool, grow: int -> int, empty: Storage<T>)
    returns (result: Buffer<T>)
    requires empty.IsEmptySingleton()
    modifies empty, empty.slots
    ensures empty.IsEmptySingleton()
    ensures result.Valid() && result.Elements() == source
    ensures result.storage.hasStorage ==> result.storage.verbatim == verbatim
    ensures result.storage != empty ==> fresh(result.storage) && result.storage.refCount == 1
    ensures empty.refCount == old(empty.refCount) + (if result.storage == empty then 1 else 0)
  {
    result := MakeBuffer(0, initialCapacity, verbatim, empty);
    for i := 0 to |source|
      invariant empty.IsEmptySingleton()
      invariant result.Valid() && result.Elements() == source[..i]
      invariant result.storage.hasStorage ==> result.storage.verbatim == verbatim
      invariant result.storage != empty ==>
        fresh(result.storage) && fresh(result.storage.slots) && result.storage.refCount == 1
      invariant empty.refCount == old(empty.refCount) + (if result.storage == empty then 1 else 0)
    {
      result := AppendElement(result, source[i], verbatim, grow);
      assert source[..i + 1] == source[..i] + [source[i]];
    }
    assert source[..|source|] == source;
  }
}
