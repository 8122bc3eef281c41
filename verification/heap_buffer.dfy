/** `HeapBuffer<T>`: the descriptor of a heap allocation, counted in
    elements of `T`. It knows nothing about the inline layout. */
module HeapBuffers {
  import opened Primitives
  import opened Layouts

  /** The fields `ptr`, `len_` and `cap_`. */
  datatype HeapBuffer = HeapBuffer(ptr: Ptr, len: nat, cap: nat)

  /** `len()`: the number of elements, the `len_` field and nothing else. */
  function Len(h: HeapBuffer): (n: nat)
    ensures HeapBuffer(h.ptr, n, h.cap) == h
  {
    h.len
  }

  /** `capacity()`: how many elements fit without reallocating, the
      `cap_` field and nothing else. */
  function Capacity(h: HeapBuffer): (c: nat)
    ensures HeapBuffer(h.ptr, h.len, c) == h
  {
    h.cap
  }

  /** `as_ptr()`: the buffer pointer, read through a shared reference; the
      `ptr` field and nothing else. */
  function AsPtr(h: HeapBuffer): (p: Ptr)
    ensures HeapBuffer(p, h.len, h.cap) == h
  {
    h.ptr
  }

  /** `as_mut_ptr()`: the buffer pointer, read through a mutable reference;
      reading it changes nothing. */
  function AsMutPtr(h: HeapBuffer): (p: Ptr)
    ensures p == AsPtr(h)
  {
    h.ptr
  }

  /** `set_len(new_len)`: unsafe, its caller guarantees
      `new_len <= capacity()` (checked by a debug assertion only). Every
      other observation of the descriptor is left as it was. */
  function SetLen(h: HeapBuffer, newLen: nat): (r: HeapBuffer)
    requires newLen <= Capacity(h)
    ensures Len(r) == newLen
    ensures Capacity(r) == Capacity(h)
    ensures AsPtr(r) == AsPtr(h)
  {
    h.(len := newLen)
  }

  /** The descriptor's length never exceeds its capacity. */
  predicate LenWithinCapacity(h: HeapBuffer)
  {
    Len(h) <= Capacity(h)
  }

  /** `set_len` under its documented precondition keeps the descriptor
      consistent, and a later `set_len` overrides an earlier one. */
  lemma SetLenKeepsConsistency(h: HeapBuffer, m: nat, n: nat)
    requires m <= Capacity(h) && n <= Capacity(h)
    ensures LenWithinCapacity(SetLen(h, m))
    ensures SetLen(SetLen(h, m), n) == SetLen(h, n)
    ensures LenWithinCapacity(h) ==> SetLen(h, Len(h)) == h
  {
  }

  /** `layout()`: the allocation backing `h` holds `cap_` elements of `e`.
      The multiplication `size_of::<T>() * cap_` is unchecked, so the
      caller must keep it within `usize`. */
  function Layout(t: Target, e: Shape, h: HeapBuffer): (l: Shape)
    requires e.size * Capacity(h) <= UsizeMax(t)
    ensures l.align == e.align
    ensures l.size <= UsizeMax(t)
    ensures e.size > 0 ==> l.size / e.size == Capacity(h) && l.size % e.size == 0
    ensures e.size == 0 ==> l.size == 0
  {
    var size := e.size * Capacity(h);
    if e.size > 0 then
      DivModUnique(size, e.size, Capacity(h), 0);
      Shape(size, e.align)
    else
      Shape(size, e.align)
  }

  /** The layout depends on the capacity only: changing the length never
      changes the layout that will be handed back to the allocator. */
  lemma LayoutIgnoresLen(t: Target, e: Shape, h: HeapBuffer, n: nat)
    requires n <= Capacity(h)
    requires e.size * Capacity(h) <= UsizeMax(t)
    ensures Layout(t, e, SetLen(h, n)) == Layout(t, e, h)
  {
  }

  /** The test-build `Drop`: dropping a descriptor that still owns memory
      (a non-null `ptr`) fails an assertion, so the owner must release the
      memory and null the pointer first. */
  function Drop(h: HeapBuffer): (r: Result<()>)
    ensures r.Ok? <==> AsPtr(h) == Null
    ensures r.Panic? ==> r.message == "assertion failed: self.ptr.is_null()"
  {
    if h.ptr == Null then Ok(()) else Panic("assertion failed: self.ptr.is_null()")
  }

  /** The three word-sized fields `ptr`, `len_`, `cap_`. `HeapBuffer` uses
      the default representation, whose layout Rust does not guarantee; the
      model assumes what rustc does for three identical fields: no padding,
      and the same layout as `#[repr(C)]` in any field order. */
  function DescriptorFields(t: Target): seq<Shape>
  {
    [Word(t), Word(t), Word(t)]
  }

  /** `size_of`/`align_of` of `HeapBuffer<T>`, for every sized `T`. */
  function DescriptorLayout(t: Target): StructLayout
    requires ValidTarget(t)
  {
    ReprC(DescriptorFields(t))
  }

  /** The `#[repr(C)]` placement of three words. */
  lemma PlaceWords(w: nat, a: nat)
    requires a >= 1 && AlignUp(w, a) == w && AlignUp(2 * w, a) == 2 * w
    ensures Place([Shape(w, a), Shape(w, a), Shape(w, a)], 0) == [0, w, 2 * w]
  {
    var f := Shape(w, a);
    PlaceCons(f, [], 2 * w);
    PlaceCons(f, [f], w);
    assert [f] + [f] == [f, f];
    assert AlignUp(0, a) == 0 by { DivModUnique(0, a, 0, 0); }
    PlaceCons(f, [f, f], 0);
    assert [f] + [f, f] == [f, f, f];
  }

  /** The alignment of three words is the word's. */
  lemma MaxAlignWords(w: nat, a: nat)
    requires a >= 1
    ensures AllAligned([Shape(w, a), Shape(w, a), Shape(w, a)])
    ensures MaxAlign([Shape(w, a), Shape(w, a), Shape(w, a)]) == a
  {
    var fs := [Shape(w, a), Shape(w, a), Shape(w, a)];
    assert fs[1..][1..] == fs[2..] && fs[2..][1..] == [];
    assert MaxAlign(fs[2..]) == a;
    assert MaxAlign(fs[1..]) == a;
  }

  lemma DescriptorOffsets(t: Target)
    requires ValidTarget(t)
    ensures Place(DescriptorFields(t), 0) == [0, t.word, 2 * t.word]
  {
    WordMultipleAligned(t, 1);
    WordMultipleAligned(t, 2);
    PlaceWords(t.word, t.wordAlign);
  }

  /** A descriptor is three words, word aligned, with no padding. */
  lemma DescriptorLayoutIs(t: Target)
    requires ValidTarget(t)
    ensures DescriptorLayout(t) == StructLayout([0, t.word, 2 * t.word], 3 * t.word, t.wordAlign)
  {
    DescriptorOffsets(t);
    MaxAlignWords(t.word, t.wordAlign);
    assert AlignUp(3 * t.word, t.wordAlign) == 3 * t.word by { WordMultipleAligned(t, 3); }
  }
}
