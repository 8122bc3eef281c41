/** `SoVec<T, A>`: the container. Its one buffer slot holds either the
    inline store or a heap descriptor; every accessor dispatches on which
    one is active. */
module SoVecs {
  import opened Primitives
  import opened Layouts
  import StackBuffers
  import HeapBuffers

  /** The buffer slot as a tagged union instead of an overlay: `Inline` while
      the inline store is available, `Heap` once it holds a descriptor. */
  datatype SoVec =
    | Inline(stack: StackBuffers.StackBuffer)
    | Heap(heap: HeapBuffers.HeapBuffer)

  /** A pointer to the element storage: the inline data region inside the
      container itself, or the heap buffer's pointer. */
  datatype DataPtr = InlineData | HeapData(ptr: Ptr)

  /** `is_using_stack()`: whether the inline store is available. Exactly one
      of the two representations is active. */
  predicate IsUsingStack(v: SoVec)
    ensures IsUsingStack(v) <==> !v.Heap?
  {
    v.Inline?
  }

  /** `as_stack()`: debug-asserts that the inline store is active, and
      then the slot itself is the inline store. */
  function AsStack(v: SoVec): (s: StackBuffers.StackBuffer)
    requires IsUsingStack(v)
    ensures Inline(s) == v
  {
    v.stack
  }

  /** `as_mut_stack()`: a mutable borrow of the inline store, modelled as
      writing back whatever the borrower leaves in it. The slot stays in
      inline mode. */
  function AsMutStack(v: SoVec, s: StackBuffers.StackBuffer): (r: SoVec)
    requires IsUsingStack(v)
    ensures IsUsingStack(r) && AsStack(r) == s
  {
    Inline(s)
  }

  /** `as_heap()`: debug-asserts that the heap descriptor is active, and
      then the slot is read as that descriptor. */
  function AsHeap(v: SoVec): (h: HeapBuffers.HeapBuffer)
    requires !IsUsingStack(v)
    ensures Heap(h) == v
  {
    v.heap
  }

  /** `as_mut_heap()`: a mutable borrow of the descriptor overlaid on the
      slot. The slot stays in heap mode (the datatype's tag);
      `StackBuffers.OverlayKeepsLenByte` shows the overlay leaves the `len_`
      byte alone, and that this byte decides the mode is assumed. */
  function AsMutHeap(v: SoVec, h: HeapBuffers.HeapBuffer): (r: SoVec)
    requires !IsUsingStack(v)
    ensures !IsUsingStack(r) && AsHeap(r) == h
  {
    Heap(h)
  }

  /** Writing back what was borrowed leaves the slot as it was, and a
      second write-back replaces the first. */
  lemma BorrowWriteBack(v: SoVec, s: StackBuffers.StackBuffer, h: HeapBuffers.HeapBuffer)
    ensures IsUsingStack(v) ==> AsMutStack(v, AsStack(v)) == v
    ensures IsUsingStack(v) ==> AsMutStack(AsMutStack(v, s), AsStack(v)) == v
    ensures !IsUsingStack(v) ==> AsMutHeap(v, AsHeap(v)) == v
    ensures !IsUsingStack(v) ==> AsMutHeap(AsMutHeap(v, h), AsHeap(v)) == v
  {
  }

  /** `len()`: the inline length in inline mode, the descriptor's `len_`
      otherwise. */
  function Len(v: SoVec): (n: nat)
    ensures IsUsingStack(v) ==> n == StackBuffers.Len(AsStack(v)) && n < 0x100
    ensures !IsUsingStack(v) ==> n == HeapBuffers.Len(AsHeap(v))
  {
    if IsUsingStack(v) then StackBuffers.Len(AsStack(v)) else HeapBuffers.Len(AsHeap(v))
  }

  /** `capacity()`: in inline mode the constant `StackBuffer::<T>::capacity()`,
      which depends on neither the length nor the contents; otherwise the
      descriptor's `cap_`. */
  function Capacity(t: Target, e: Shape, v: SoVec): (r: Result<nat>)
    requires ValidTarget(t)
    ensures IsUsingStack(v) ==> r == StackBuffers.Capacity(t, e)
    ensures !IsUsingStack(v) ==> r == Ok(HeapBuffers.Capacity(AsHeap(v)))
  {
    if IsUsingStack(v) then StackBuffers.Capacity(t, e) else Ok(HeapBuffers.Capacity(AsHeap(v)))
  }

  /** The container invariant: the length never exceeds the capacity. */
  predicate LenWithinCapacity(t: Target, e: Shape, v: SoVec)
    requires ValidTarget(t)
  {
    Capacity(t, e, v).Ok? ==> Len(v) <= Capacity(t, e, v).value
  }

  /** The documented precondition of `set_len(new_len)`:
      `new_len <= capacity()`. */
  predicate CanSetLen(t: Target, e: Shape, v: SoVec, newLen: nat)
    requires ValidTarget(t)
  {
    Capacity(t, e, v).Ok? && newLen <= Capacity(t, e, v).value
  }

  /** `set_len(new_len)`: unsafe, forwarded to the active representation.
      Afterwards the length is `new_len`; the mode, the capacity and the
      data pointer are what they were, and the invariant holds. */
  function SetLen(t: Target, e: Shape, v: SoVec, newLen: nat): (r: SoVec)
    requires ValidTarget(t)
    requires CanSetLen(t, e, v, newLen)
    ensures Len(r) == newLen
    ensures IsUsingStack(r) == IsUsingStack(v)
    ensures Capacity(t, e, r) == Capacity(t, e, v)
    ensures AsPtr(r) == AsPtr(v)
    ensures LenWithinCapacity(t, e, r)
  {
    if IsUsingStack(v) then
      StackBuffers.CapacityFitsLenByte(t, e);
      AsMutStack(v, StackBuffers.SetLen(AsStack(v), newLen))
    else
      AsMutHeap(v, HeapBuffers.SetLen(AsHeap(v), newLen))
  }

  /** `as_ptr()`: the inline data region in inline mode, the descriptor's
      pointer otherwise. */
  function AsPtr(v: SoVec): (p: DataPtr)
    ensures p.InlineData? <==> IsUsingStack(v)
    ensures !IsUsingStack(v) ==> p == HeapData(HeapBuffers.AsPtr(AsHeap(v)))
  {
    if IsUsingStack(v) then InlineData else HeapData(HeapBuffers.AsPtr(AsHeap(v)))
  }

  /** `as_mut_ptr()`: the same pointer through the mutable accessors. */
  function AsMutPtr(v: SoVec): (p: DataPtr)
    ensures p == AsPtr(v)
  {
    if IsUsingStack(v) then InlineData else HeapData(HeapBuffers.AsMutPtr(AsHeap(v)))
  }

  /** Every accessor reads the same representation: in heap mode the
      length, the capacity and the pointer all come from one descriptor,
      and in inline mode the pointer is the inline region while the
      capacity is the inline constant, whatever the length. */
  lemma DispatchIsConsistent(t: Target, e: Shape, v: SoVec, w: SoVec)
    requires ValidTarget(t)
    ensures !IsUsingStack(v) ==>
      var h := AsHeap(v);
      && Len(v) == HeapBuffers.Len(h)
      && Capacity(t, e, v) == Ok(HeapBuffers.Capacity(h))
      && AsPtr(v) == AsMutPtr(v) == HeapData(HeapBuffers.AsPtr(h))
    ensures IsUsingStack(v) && IsUsingStack(w) ==>
      && Capacity(t, e, v) == Capacity(t, e, w)
      && AsPtr(v) == AsPtr(w) == InlineData
  {
  }

  /** `set_len` is idempotent in the sense that the last call wins, and
      setting the current length changes nothing. */
  lemma SetLenLastWins(t: Target, e: Shape, v: SoVec, m: nat, n: nat)
    requires ValidTarget(t)
    requires CanSetLen(t, e, v, m) && CanSetLen(t, e, v, n)
    ensures SetLen(t, e, SetLen(t, e, v, m), n) == SetLen(t, e, v, n)
    ensures LenWithinCapacity(t, e, v) && Capacity(t, e, v).Ok? ==> SetLen(t, e, v, Len(v)) == v
  {
  }
}
