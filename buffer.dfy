/**
 * The buffer handle: a value that refers to one Storage (possibly the shared
 * empty storage). Many handles may refer to the same storage; the storage's
 * reference count says how many, and a handle may mutate in place only when it
 * is the sole referrer.
 */
module ArrayBuffer {
  import opened Options
  import opened ArrayStorage

  datatype Buffer<T(0)> = Buffer(storage: Storage<T>) {

    /** A live handle: its storage is well formed and counts this handle. */
    ghost predicate Valid()
      reads storage
    {
      storage.Valid() && storage.refCount >= 1
    }

    /** The elements the handle denotes, in order. */
    ghost function Elements(): seq<T>
      reads storage, storage.slots
      requires storage.Valid()
    {
      storage.Elements()
    }

    /** How many elements the buffer stores (the header count). */
    function Count(): (n: nat)
      reads storage, storage.slots
      ensures storage.Valid() ==> n == |Elements()|
    {
      storage.count
    }

    /** How many elements the buffer can store without reallocation. */
    function Capacity(): (c: nat)
      reads storage
      ensures !storage.hasStorage ==> c == 0
      ensures storage.Valid() ==> storage.count <= c
    {
      if storage.hasStorage then storage.slots.Length else 0
    }

    /** The position of the first element; equal to the count (the end
        position) exactly when the buffer is empty. */
    function StartIndex(): (i: int)
      reads storage, storage.slots
      ensures storage.Valid() ==> (i == Count() <==> Elements() == [])
    {
      0
    }

    /** The past-the-end position: reachable from `StartIndex()` and just past
        the last live element. */
    function EndIndex(): (i: int)
      reads storage, storage.slots
      ensures storage.Valid() ==> StartIndex() <= i && i == |Elements()|
    {
      Count()
    }

    /** Whether `index` may be passed to the element subscript. Indexing the
        empty storage is a checked precondition failure. */
    function IsValidSubscript(index: int): (ok: bool)
      reads storage, storage.slots
      requires storage.hasStorage
      ensures ok <==> StartIndex() <= index < EndIndex()
      ensures storage.Valid() && ok ==> index < Capacity()
    {
      index >= 0 && index < storage.count
    }

    /** Subscript getter. */
    function Get(i: int): (x: T)
      reads storage, storage.slots
      requires Valid() && storage.hasStorage && IsValidSubscript(i)
      ensures x == Elements()[i]
    {
      storage.slots[i]
    }

    /** Subscript setter: replaces element `i` and nothing else. */
    method Set(i: int, newValue: T)
      requires Valid() && 0 <= i < Count()
      modifies storage.slots
      ensures Valid() && Count() == old(Count())
      ensures Elements() == old(Elements())[i := newValue]
      ensures storage.slots[..] == old(storage.slots[..])[i := newValue]
    {
      storage.slots[i] := newValue;
    }

    /** Count setter. It never grows past the capacity, and on the empty
        storage only the no-op `0` is allowed and nothing is written. */
    method SetCount(newValue: int)
      requires Valid()
      requires newValue >= 0
      requires newValue <= Capacity()
      requires storage.hasStorage || newValue == 0
      modifies storage`count
      ensures Valid() && Count() == newValue
      ensures Elements() == storage.slots[..newValue]
      ensures !storage.hasStorage ==> unchanged(storage)
    {
      if storage.hasStorage {
        storage.count := newValue;
      }
    }

    /** Whether this handle is the only reference to its storage. */
    function IsUniquelyReferenced(): (unique: bool)
      reads storage
      ensures unique <==> storage.refCount == 1
    {
      storage.refCount == 1
    }

    /** The handle itself when it may be mutated in place to hold at least
        `minimumCapacity` elements, None when the caller must copy. */
    function RequestUniqueMutableBackingBuffer(minimumCapacity: int): (r: Option<Buffer<T>>)
      reads storage
      ensures r.Some? <==> IsUniquelyReferenced() && Capacity() >= minimumCapacity
      ensures r.Some? ==> r.value == this
    {
      if IsUniquelyReferenced() && Capacity() >= minimumCapacity then Some(this) else None
    }

    /** A copy of the handle (adopting the storage of this buffer): both now
        refer to the same storage, so neither is unique. */
    method Adopt() returns (copy: Buffer<T>)
      requires Valid()
      modifies storage`refCount
      ensures copy == this && Valid()
      ensures storage.refCount == old(storage.refCount) + 1
      ensures !copy.IsUniquelyReferenced() && !IsUniquelyReferenced()
    {
      storage.refCount := storage.refCount + 1;
      copy := this;
    }

    /** Copies elements [start, end) into uninitialised memory of `target`
        starting at `dst`; returns the position past the last one written. */
    method UninitializedCopy(start: int, end: int, target: array<T>, dst: nat) returns (r: nat)
      requires Valid()
      requires 0 <= start <= end <= Count()
      requires dst + (end - start) <= target.Length
      requires target == storage.slots ==> Count() <= dst
      modifies target
      ensures r == dst + (end - start)
      ensures target[dst..r] == old(Elements())[start..end]
      ensures forall k :: 0 <= k < target.Length && !(dst <= k < r) ==> target[k] == old(target[k])
      ensures Valid() && Elements() == old(Elements())
    {
      var d := dst;
      var src := start;
      while src < end
        invariant start <= src <= end
        invariant d == dst + (src - start)
        invariant forall k :: dst <= k < d ==> target[k] == old(storage.slots[k - dst + start])
        invariant forall k :: 0 <= k < target.Length && !(dst <= k < d) ==> target[k] == old(target[k])
        invariant forall k :: 0 <= k < storage.count ==> storage.slots[k] == old(storage.slots[k])
      {
        target[d] := storage.slots[src];
        d, src := d + 1, src + 1;
      }
      r := d;
      assert target[dst..r] == old(Elements())[start..end];
      assert Elements() == old(Elements());
    }

    /** A slice of [start, end): a view that shares (and keeps alive) this
        storage rather than copying it. No bounds are checked. */
    method SubRange(start: int, end: int) returns (s: SliceBuffer<T>)
      requires Valid()
      modifies storage`refCount
      ensures Valid() && storage.refCount == old(storage.refCount) + 1
      ensures s.owner == storage && s.start == start && s.count == end - start
      ensures 0 <= start <= end <= Count() ==> s.InBounds() && s.Elements() == Elements()[start..end]
    {
      storage.refCount := storage.refCount + 1;
      s := SliceBuffer(storage, start, end - start);
    }

    /** The ghost reference predicate: every live element satisfies `p`. */
    ghost predicate AllElementsAre(p: T -> bool)
      reads storage, storage.slots
      requires storage.Valid()
    {
      forall k :: 0 <= k < |Elements()| ==> p(Elements()[k])
    }

    /** Whether the buffer holds only elements of type U. `elementTypeIsU`
        stands for the static test "T is U"; `isU` for the dynamic test on one
        element. When T is U every value of T is a U, which the second
        precondition states. The empty storage's static element type is never
        U, so it always takes the element-by-element path. */
    method StoresOnlyElementsOfType(elementTypeIsU: bool, isU: T -> bool) returns (r: bool)
      requires Valid()
      requires elementTypeIsU ==> forall x: T :: isU(x)
      ensures r <==> AllElementsAre(isU)
      ensures r <==> (storage.hasStorage && elementTypeIsU) || AllElementsAre(isU)
    {
      if storage.hasStorage && elementTypeIsU {
        return true;
      }
      for i := StartIndex() to EndIndex()
        invariant forall k :: 0 <= k < i ==> isU(Elements()[k])
      {
        if !isU(Get(i)) {
          return false;
        }
      }
      return true;
    }
  }

  /** A view of `count` elements of `owner` starting at slot `start`. */
  datatype SliceBuffer<T(0)> = SliceBuffer(owner: Storage<T>, start: int, count: int) {

    ghost predicate InBounds()
      reads owner
    {
      owner.Valid() && 0 <= start && 0 <= count && start + count <= owner.count
    }

    ghost function Elements(): seq<T>
      reads owner, owner.slots
      requires InBounds()
    {
      owner.slots[start..start + count]
    }
  }

  /** A handle on the shared empty storage. */
  method MakeEmpty<T(0)>(empty: Storage<T>) returns (b: Buffer<T>)
    requires empty.IsEmptySingleton()
    modifies empty`refCount
    ensures b.storage == empty && b.Valid()
    ensures empty.refCount == old(empty.refCount) + 1
    ensures b.Count() == 0 && b.Capacity() == 0 && b.Elements() == []
  {
    empty.refCount := empty.refCount + 1;
    b := Buffer(empty);
  }

  /** A handle on fresh storage for at least max(count, minimumCapacity)
      elements whose header count is `count` (slots not yet initialised). */
  method Allocate<T(0)>(count: nat, minimumCapacity: int, verbatim: bool) returns (b: Buffer<T>)
    requires Max(count, minimumCapacity) > 0
    ensures fresh(b.storage) && fresh(b.storage.slots) && b.Valid()
    ensures b.storage.hasStorage && b.storage.verbatim == verbatim && b.storage.refCount == 1
    ensures b.Count() == count && b.Capacity() >= Max(count, minimumCapacity)
  {
    var s := new Storage(count, Max(count, minimumCapacity), verbatim);
    b := Buffer(s);
  }

  /** `init(count:minimumCapacity:)`: the shared empty storage when nothing is
      requested, fresh storage otherwise. */
  method MakeBuffer<T(0)>(count: nat, minimumCapacity: int, verbatim: bool, empty: Storage<T>)
    returns (b: Buffer<T>)
    requires empty.IsEmptySingleton()
    modifies empty`refCount
    ensures b.Valid() && b.Count() == count
    ensures Max(count, minimumCapacity) == 0 ==>
      b.storage == empty && b.Capacity() == 0 && empty.refCount == old(empty.refCount) + 1
    ensures Max(count, minimumCapacity) != 0 ==>
      fresh(b.storage) && fresh(b.storage.slots) && b.storage.hasStorage && b.storage.verbatim == verbatim &&
      b.Capacity() >= Max(count, minimumCapacity) &&
      b.storage.refCount == 1 && empty.refCount == old(empty.refCount)
  {
    if Max(count, minimumCapacity) == 0 {
      b := MakeEmpty(empty);
    } else {
      b := Allocate(count, minimumCapacity, verbatim);
    }
  }
}
