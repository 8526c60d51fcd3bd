/**
 * The storage object behind a contiguous array buffer: one allocation holding a
 * header (the live element count and the verbatim-bridging flag) and a block of
 * element slots whose number is the capacity. Only slots [0, count) are live.
 *
 * A Storage whose `hasStorage` is false plays the shared empty-array storage:
 * it has no slots and its count is always 0. Callers pass the same such object
 * (the parameter `empty`) throughout.
 */
module ArrayStorage {

  /** Swift's `max` on two integers. */
  function Max(a: int, b: int): (m: int)
    ensures m >= a && m >= b && (m == a || m == b)
  {
    if a < b then b else a
  }

  class Storage<T(0)> {
    /** False only for the shared empty-array storage. */
    const hasStorage: bool
    /** Whether T is bridged verbatim to the foreign runtime (header flag, fixed at creation). */
    const verbatim: bool
    /** The element slots; their number is the capacity, which never changes. */
    const slots: array<T>
    /** Header: how many leading slots hold live elements. */
    var count: nat
    /** How many handles and slices currently reference this storage. */
    var refCount: nat

    ghost predicate Valid()
      reads this
    {
      count <= slots.Length && (!hasStorage ==> slots.Length == 0)
    }

    ghost predicate IsEmptySingleton()
      reads this
    {
      Valid() && !hasStorage
    }

    /** The live elements, in order. */
    ghost function Elements(): seq<T>
      reads this, slots
      requires Valid()
    {
      slots[..count]
    }

    /** The runtime's statically initialised empty-array storage. */
    constructor EmptySingleton()
      ensures IsEmptySingleton() && refCount == 0
    {
      hasStorage := false;
      verbatim := false;
      slots := new T[0];
      count := 0;
      refCount := 0;
    }

    /** A fresh allocation of `capacity` slots whose header says `count`; the
        allocating handle holds the one reference. */
    constructor (count: nat, capacity: nat, verbatim: bool)
      requires count <= capacity
      ensures Valid() && hasStorage && fresh(slots)
      ensures this.count == count && slots.Length == capacity
      ensures this.verbatim == verbatim && refCount == 1
    {
      hasStorage := true;
      this.verbatim := verbatim;
      slots := new T[capacity];
      this.count := count;
      refCount := 1;
    }

    /** The number of elements a non-verbatim bridge produces: the count of a
        real storage, 0 for the empty storage. */
    function GetNonVerbatimBridgedCount(): (n: nat)
      reads this, slots
      requires Valid()
      requires hasStorage ==> !verbatim
      ensures n == |Elements()|
    {
      if hasStorage then count else 0
    }

    /** Converts every live element with `bridge` into a new, independently
        owned heap buffer whose header and capacity are the element count. */
    method GetNonVerbatimBridgedHeapBuffer<U(0)>(bridge: T -> U) returns (h: HeapBuffer<U>)
      requires Valid()
      requires hasStorage ==> !verbatim
      ensures fresh(h) && fresh(h.slots)
      ensures h.value == GetNonVerbatimBridgedCount() && h.slots.Length == h.value
      ensures h.slots[..] == Bridged(Elements(), bridge)
    {
      if !hasStorage {
        h := new HeapBuffer(0, 0);
        return;
      }
      var n := count;
      h := new HeapBuffer(n, n);
      for i := 0 to n
        invariant h.value == n
        invariant forall k :: 0 <= k < i ==> h.slots[k] == bridge(slots[k])
      {
        h.slots[i] := bridge(slots[i]);
      }
      assert h.slots[..] == Bridged(Elements(), bridge);
    }
  }

  /** A foreign-runtime heap buffer: an integer header followed by element slots. */
  class HeapBuffer<U(0)> {
    var value: int
    const slots: array<U>

    constructor (value: int, capacity: nat)
      ensures this.value == value && slots.Length == capacity && fresh(slots)
    {
      this.value := value;
      slots := new U[capacity];
    }
  }

  /** Element-by-element conversion of a sequence: the reference definition of
      what non-verbatim bridging produces. */
  function Bridged<T, U>(s: seq<T>, bridge: T -> U): (r: seq<U>)
    ensures |r| == |s|
    ensures forall i :: 0 <= i < |s| ==> r[i] == bridge(s[i])
  {
    if s == [] then [] else [bridge(s[0])] + Bridged(s[1..], bridge)
  }

  /** Converting with `bridge` and back with a left inverse yields the original
      elements in order. */
  lemma BridgeRoundTrip<T, U>(s: seq<T>, bridge: T -> U, unbridge: U -> T)
    requires forall x :: unbridge(bridge(x)) == x
    ensures Bridged(Bridged(s, bridge), unbridge) == s
  {
  }

  /** Initialises `a[at .. at + |src|)` from `src` in order, leaving every other
      slot alone (the pointer operations `initializeFrom` and
      `moveInitializeFrom`). */
  method InitializeFrom<T>(a: array<T>, at: nat, src: seq<T>)
    requires at + |src| <= a.Length
    modifies a
    ensures a[at..at + |src|] == src
    ensures forall k :: 0 <= k < a.Length && !(at <= k < at + |src|) ==> a[k] == old(a[k])
  {
    for i := 0 to |src|
      invariant forall k :: 0 <= k < i ==> a[at + k] == src[k]
      invariant forall k :: 0 <= k < a.Length && !(at <= k < at + i) ==> a[k] == old(a[k])
    {
      a[at + i] := src[i];
    }
    assert a[at..at + |src|] == src;
  }
}
