/** `StackBuffer<T>`: the inline store, a `#[repr(C)]` struct the size of a
    heap descriptor plus one word, whose last byte is the inline length. */
module StackBuffers {
  import opened Primitives
  import opened Layouts
  import HeapBuffers

  /** The inline store as the container sees it: its length, a `u8`.
      `is_available`, `len` and `set_len` are called by the container but
      not defined in this version of the crate, so no byte encoding of the
      mode is assumed. */
  datatype StackBuffer = StackBuffer(len: U8)

  function Len(s: StackBuffer): nat
  {
    s.len
  }

  function SetLen(s: StackBuffer, n: U8): StackBuffer
  {
    s.(len := n)
  }

  /** `Buffer1 = [u8; size_of::<HeapBuffer<u8>>() - 1]`. */
  function Buffer1(t: Target): (b: Shape)
    requires ValidTarget(t)
  {
    HeapBuffers.DescriptorLayoutIs(t);
    Shape(HeapBuffers.DescriptorLayout(t).size - 1, 1)
  }

  /** The fields `_buf0: usize`, `_buf1: Buffer1`, `len_: u8` and
      `_marker: PhantomData<T>`, in declaration order. The marker is
      zero-sized with alignment 1 whatever `T` is, so the layout does not
      depend on the element type. */
  function Fields(t: Target): seq<Shape>
    requires ValidTarget(t)
  {
    [Word(t), Buffer1(t), Shape(1, 1), Shape(0, 1)]
  }

  /** `size_of`/`align_of`/field offsets of `StackBuffer<T>`, for every `T`. */
  function Layout(t: Target): StructLayout
    requires ValidTarget(t)
  {
    ReprC(Fields(t))
  }

  /** The offset of the `len_` byte. */
  function LenOffset(t: Target): nat
    requires ValidTarget(t)
  {
    Layout(t).offsets[2]
  }

  /** The bytes available to inline elements:
      `size_of::<Buffer0>() + size_of::<Buffer1>()`. */
  function DataBytes(t: Target): nat
    requires ValidTarget(t)
  {
    Word(t).size + Buffer1(t).size
  }

  /** `StackBuffer::<T>::capacity()`, where `e` is the shape of `T`: the
      largest number of elements whose bytes fit in the data region. The
      division by `size_of::<T>()` panics for a zero-sized `T`. */
  function Capacity(t: Target, e: Shape): (r: Result<nat>)
    requires ValidTarget(t)
    ensures r.Panic? <==> e.size == 0
    ensures r.Ok? ==> r.value * e.size <= DataBytes(t) < (r.value + 1) * e.size
  {
    if e.size == 0 then Panic("attempt to divide by zero")
    else
      Ok(FitCount(DataBytes(t), e.size))
  }

  lemma Buffer1Is(t: Target)
    requires ValidTarget(t)
    ensures Buffer1(t) == Shape(3 * t.word - 1, 1)
  {
    HeapBuffers.DescriptorLayoutIs(t);
  }

  lemma FieldsAre(t: Target)
    requires ValidTarget(t)
    ensures Fields(t) == [Shape(t.word, t.wordAlign), Shape(3 * t.word - 1, 1), Shape(1, 1), Shape(0, 1)]
  {
    Buffer1Is(t);
  }

  /** The `#[repr(C)]` placement of a word, `3w - 1` bytes, one byte and a
      zero-sized marker. */
  lemma PlaceStackFields(w: nat, a: nat)
    requires w >= 1 && a >= 1 && AlignUp(w, a) == w
    ensures Place([Shape(w, a), Shape(3 * w - 1, 1), Shape(1, 1), Shape(0, 1)], 0) == [0, w, 4 * w - 1, 4 * w]
  {
    var f0, f1, f2, f3 := Shape(w, a), Shape(3 * w - 1, 1), Shape(1, 1), Shape(0, 1);
    PlaceCons(f3, [], 4 * w);
    PlaceCons(f2, [f3], 4 * w - 1);
    assert [f2] + [f3] == [f2, f3];
    PlaceCons(f1, [f2, f3], w);
    assert [f1] + [f2, f3] == [f1, f2, f3];
    assert AlignUp(0, a) == 0 by { DivModUnique(0, a, 0, 0); }
    PlaceCons(f0, [f1, f2, f3], 0);
    assert [f0] + [f1, f2, f3] == [f0, f1, f2, f3];
  }

  lemma StackOffsets(t: Target)
    requires ValidTarget(t)
    ensures Place(Fields(t), 0) == [0, t.word, 4 * t.word - 1, 4 * t.word]
  {
    FieldsAre(t);
    WordMultipleAligned(t, 1);
    PlaceStackFields(t.word, t.wordAlign);
  }

  /** Under `#[repr(C)]` the struct is four words, aligned as a word: the
      word `_buf0` at 0, `_buf1` right after it, the `len_` byte at
      `4W - 1` as the very last byte, and no padding anywhere. */
  lemma LayoutIs(t: Target)
    requires ValidTarget(t)
    ensures Layout(t) == StructLayout([0, t.word, 4 * t.word - 1, 4 * t.word], 4 * t.word, t.wordAlign)
  {
    StackOffsets(t);
    FieldsAre(t);
    MaxAlignStackFields(t.word, t.wordAlign);
    assert AlignUp(4 * t.word, t.wordAlign) == 4 * t.word by { WordMultipleAligned(t, 4); }
  }

  /** The alignment of the fields is the word's. */
  lemma MaxAlignStackFields(w: nat, a: nat)
    requires w >= 1 && a >= 1
    ensures AllAligned([Shape(w, a), Shape(3 * w - 1, 1), Shape(1, 1), Shape(0, 1)])
    ensures MaxAlign([Shape(w, a), Shape(3 * w - 1, 1), Shape(1, 1), Shape(0, 1)]) == a
  {
    var fs := [Shape(w, a), Shape(3 * w - 1, 1), Shape(1, 1), Shape(0, 1)];
    assert fs[1..][1..] == fs[2..] && fs[2..][1..] == fs[3..] && fs[3..][1..] == [];
    assert MaxAlign(fs[3..]) == 1;
    assert MaxAlign(fs[2..]) == 1;
    assert MaxAlign(fs[1..]) == 1;
  }

  /** The inline data region is everything in front of the `len_` byte:
      `4W - 1` bytes. */
  lemma DataRegionIs(t: Target)
    requires ValidTarget(t)
    ensures DataBytes(t) == 4 * t.word - 1
    ensures LenOffset(t) == DataBytes(t)
  {
    Buffer1Is(t);
    LayoutIs(t);
  }

  /** The `size` test: a `StackBuffer<T>` is one word larger than a
      `HeapBuffer<T>`; for `T = u8` and `T = usize` alike, as neither
      layout depends on `T`. */
  lemma SizeTest(t: Target)
    requires ValidTarget(t)
    ensures Layout(t).size == HeapBuffers.DescriptorLayout(t).size + Word(t).size
  {
    LayoutIs(t);
    HeapBuffers.DescriptorLayoutIs(t);
  }

  /** The `align` test: a descriptor may be placed wherever a
      `StackBuffer` is, as its alignment divides (so does not exceed) the
      `StackBuffer`'s. */
  lemma AlignTest(t: Target)
    requires ValidTarget(t)
    ensures HeapBuffers.DescriptorLayout(t).align <= Layout(t).align
    ensures Layout(t).align % HeapBuffers.DescriptorLayout(t).align == 0
  {
    LayoutIs(t);
    HeapBuffers.DescriptorLayoutIs(t);
  }

  /** The `capacity` test: for every element type that is not zero-sized,
      the capacity is `(size_of::<StackBuffer<u8>>() - size_of::<Len>()) / size_of::<T>()`. */
  lemma CapacityTest(t: Target, e: Shape)
    requires ValidTarget(t)
    requires e.size > 0
    ensures Capacity(t, e) == Ok((Layout(t).size - 1) / e.size)
  {
    LayoutIs(t);
    DataRegionIs(t);
  }

  lemma CapacityIs(t: Target, e: Shape)
    requires ValidTarget(t)
    requires e.size > 0
    ensures Capacity(t, e) == Ok((4 * t.word - 1) / e.size)
  {
    DataRegionIs(t);
  }

  /** The element types of the `capacity` test: `u8`, `usize`, `[u8; 3]`
      and `[u8; 1024]`; the last does not fit even once. */
  lemma CapacityTestCases(t: Target)
    requires ValidTarget(t)
    ensures Capacity(t, Shape(1, 1)) == Ok(4 * t.word - 1)
    ensures Capacity(t, Word(t)) == Ok(3)
    ensures Capacity(t, Shape(3, 1)) == Ok((4 * t.word - 1) / 3)
    ensures Capacity(t, Shape(1024, 1)) == Ok(0)
  {
    var w := t.word;
    CapacityIs(t, Shape(1, 1));
    CapacityIs(t, Word(t));
    assert (4 * w - 1) / w == 3 by { DivModUnique(4 * w - 1, w, 3, w - 1); }
    CapacityIs(t, Shape(3, 1));
    CapacityIs(t, Shape(1024, 1));
    assert (4 * w - 1) / 1024 == 0 by { DivModUnique(4 * w - 1, 1024, 0, 4 * w - 1); }
  }

  /** The inline elements end before the `len_` byte: writing any of the
      `capacity()` elements can never overwrite the inline length. */
  lemma ElementsFitBeforeLen(t: Target, e: Shape)
    requires ValidTarget(t)
    requires e.size > 0
    ensures Capacity(t, e).value * e.size <= LenOffset(t)
  {
    DataRegionIs(t);
  }

  /** However small `T` is, the capacity is at most `4W - 1`, so every
      length up to the capacity fits in the `u8` length field. */
  lemma CapacityFitsLenByte(t: Target, e: Shape)
    requires ValidTarget(t)
    requires e.size > 0
    ensures Capacity(t, e).value <= 4 * t.word - 1 < 0x100
  {
    DataRegionIs(t);
    MulMono(1, e.size, Capacity(t, e).value);
  }

  /** The overlay: a descriptor written at offset 0 of the slot occupies
      bytes `[0, 3W)`, which end before the `len_` byte, and it is
      suitably aligned there. */
  lemma OverlayMissesLen(t: Target)
    requires ValidTarget(t)
    ensures HeapBuffers.DescriptorLayout(t).size <= LenOffset(t)
    ensures LenOffset(t) < Layout(t).size
    ensures Layout(t).align % HeapBuffers.DescriptorLayout(t).align == 0
  {
    LayoutIs(t);
    HeapBuffers.DescriptorLayoutIs(t);
  }

  /** The bytes of the slot after the bytes of a descriptor are written at
      offset 0. */
  function Overlay(slot: seq<U8>, descriptor: seq<U8>): (r: seq<U8>)
    requires |descriptor| <= |slot|
    ensures |r| == |slot|
    ensures r[..|descriptor|] == descriptor
    ensures r[|descriptor|..] == slot[|descriptor|..]
  {
    descriptor + slot[|descriptor|..]
  }

  /** Whatever descriptor is written over the slot, the `len_` byte is
      what it was before. */
  lemma OverlayKeepsLenByte(t: Target, slot: seq<U8>, descriptor: seq<U8>)
    requires ValidTarget(t)
    requires |slot| == Layout(t).size
    requires |descriptor| == HeapBuffers.DescriptorLayout(t).size
    ensures |descriptor| <= LenOffset(t) < |slot|
    ensures Overlay(slot, descriptor)[LenOffset(t)] == slot[LenOffset(t)]
  {
    OverlayMissesLen(t);
    var r := Overlay(slot, descriptor);
    assert r[LenOffset(t)] == r[|descriptor|..][LenOffset(t) - |descriptor|];
  }
}
