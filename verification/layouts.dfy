/** Type layouts as rustc computes them: the size and alignment of a type,
    the word size of the target, and the field placement of a `#[repr(C)]`
    struct. */
module Layouts {

  /** The compilation target: `size_of::<usize>()` (the word size W, which
      is also the size of a thin pointer) and `align_of::<usize>()`. */
  datatype Target = Target(word: nat, wordAlign: nat)

  /** Rust targets have 16-, 32- or 64-bit pointers, and the alignment of
      `usize` is a power of two that divides its size. */
  predicate ValidTarget(t: Target)
  {
    && t.word in {2, 4, 8}
    && t.wordAlign in {1, 2, 4, 8}
    && t.word % t.wordAlign == 0
  }

  /** `size_of` and `align_of` of one type: an element type `T`, a struct
      field, or a `Layout` handed to an allocator. */
  datatype Shape = Shape(size: nat, align: nat)

  /** The shape of `usize`, and of any thin raw pointer. */
  function Word(t: Target): Shape
  {
    Shape(t.word, t.wordAlign)
  }

  function Pow2(n: nat): (r: nat)
    ensures r >= 1
  {
    if n == 0 then 1 else 2 * Pow2(n - 1)
  }

  /** `usize::MAX` on the target. */
  function UsizeMax(t: Target): nat
  {
    Pow2(8 * t.word) - 1
  }

  lemma MulMono(x: nat, y: nat, a: nat)
    requires x <= y
    ensures x * a <= y * a
  {
  }

  /** Euclidean division is determined by its quotient and remainder. */
  lemma DivModUnique(x: nat, a: nat, q: nat, m: nat)
    requires a >= 1 && m < a && x == q * a + m
    ensures x / a == q && x % a == m
  {
    var q' := x / a;
    if q' > q {
      MulMono(q + 1, q', a);
    } else if q' < q {
      MulMono(q' + 1, q, a);
    }
  }

  /** `x / a` is the largest count of `a`-sized items that fits in `x`. */
  lemma DivIsFloor(x: nat, a: nat, q: nat)
    requires a >= 1 && q == x / a
    ensures q * a <= x < (q + 1) * a
  {
    assert x == q * a + x % a;
    assert (q + 1) * a == q * a + a;
  }

  /** How many `a`-byte items fit in `x` bytes. */
  function FitCount(x: nat, a: nat): (n: nat)
    requires a >= 1
    ensures n * a <= x < (n + 1) * a
  {
    var q := x / a;
    DivIsFloor(x, a, q);
    q
  }

  /** The first offset at or after `x` that is a multiple of `a`: `x` plus
      the padding a `#[repr(C)]` struct inserts before a field of alignment `a`. */
  function AlignUp(x: nat, a: nat): (r: nat)
    requires a >= 1
    ensures r % a == 0
    ensures x <= r < x + a
  {
    if x % a == 0 then x
    else
      DivModUnique(x + (a - x % a), a, x / a + 1, 0);
      x + (a - x % a)
  }

  lemma MultipleIsAligned(k: nat, a: nat)
    requires a >= 1
    ensures AlignUp(k * a, a) == k * a
  {
    DivModUnique(k * a, a, k, 0);
  }

  /** Every multiple of the word size is suitably aligned for a word. */
  lemma WordMultipleAligned(t: Target, c: nat)
    requires ValidTarget(t)
    ensures AlignUp(c * t.word, t.wordAlign) == c * t.word
  {
    var a := t.wordAlign;
    var k := t.word / a;
    DivModUnique(t.word, a, k, 0);
    assert c * t.word == (c * k) * a;
    MultipleIsAligned(c * k, a);
  }

  predicate AllAligned(fields: seq<Shape>)
  {
    forall i :: 0 <= i < |fields| ==> fields[i].align >= 1
  }

  /** Field offsets of a `#[repr(C)]` struct whose first field may start at
      `start`: each field goes at the first offset after the previous
      field's end that its alignment allows. */
  function Place(fields: seq<Shape>, start: nat): (offsets: seq<nat>)
    requires AllAligned(fields)
    ensures |offsets| == |fields|
    decreases |fields|
  {
    if |fields| == 0 then []
    else
      var first := AlignUp(start, fields[0].align);
      [first] + Place(fields[1..], first + fields[0].size)
  }

  /** What `Place` promises: every field is aligned, no two fields overlap
      and they keep declaration order, and no field is preceded by more
      padding than its alignment forces. */
  ghost predicate SoundPlacement(fields: seq<Shape>, start: nat, offsets: seq<nat>)
    requires AllAligned(fields) && |offsets| == |fields|
  {
    && (forall i :: 0 <= i < |fields| ==>
          start <= offsets[i] && offsets[i] % fields[i].align == 0)
    && (forall i, j :: 0 <= i < j < |fields| ==>
          offsets[i] + fields[i].size <= offsets[j])
    && (|fields| > 0 ==> offsets[0] < start + fields[0].align)
    && (forall i :: 0 < i < |fields| ==>
          offsets[i] < offsets[i - 1] + fields[i - 1].size + fields[i].align)
  }

  lemma {:induction false} PlaceIsSound(fields: seq<Shape>, start: nat)
    requires AllAligned(fields)
    ensures SoundPlacement(fields, start, Place(fields, start))
    decreases |fields|
  {
    if |fields| > 0 {
      var first := AlignUp(start, fields[0].align);
      var rest := Place(fields[1..], first + fields[0].size);
      PlaceIsSound(fields[1..], first + fields[0].size);
      var offsets := Place(fields, start);
      assert offsets == [first] + rest;
      forall i | 0 < i < |fields|
        ensures offsets[i] == rest[i - 1]
      {
      }
    }
  }

  /** A field that starts at an offset its alignment already allows is
      placed there, with no padding in front of it. */
  lemma PlaceAt(fields: seq<Shape>, start: nat)
    requires AllAligned(fields) && |fields| > 0
    requires AlignUp(start, fields[0].align) == start
    ensures Place(fields, start) == [start] + Place(fields[1..], start + fields[0].size)
  {
  }

  /** `PlaceAt` for a field list written as its first field and the rest. */
  lemma PlaceCons(f: Shape, rest: seq<Shape>, start: nat)
    requires f.align >= 1 && AllAligned(rest)
    requires AlignUp(start, f.align) == start
    ensures AllAligned([f] + rest)
    ensures Place([f] + rest, start) == [start] + Place(rest, start + f.size)
  {
    var fs := [f] + rest;
    assert fs[0] == f && fs[1..] == rest;
    assert forall i :: 0 < i < |fs| ==> fs[i] == rest[i - 1];
    PlaceAt(fs, start);
  }

  /** The largest field alignment, and 1 for a struct without fields. */
  function MaxAlign(fields: seq<Shape>): (a: nat)
    requires AllAligned(fields)
    ensures a >= 1
    ensures forall i :: 0 <= i < |fields| ==> fields[i].align <= a
    ensures a == 1 || exists i :: 0 <= i < |fields| && fields[i].align == a
  {
    if |fields| == 0 then 1
    else
      var rest := MaxAlign(fields[1..]);
      if fields[0].align >= rest then fields[0].align else rest
  }

  datatype StructLayout = StructLayout(offsets: seq<nat>, size: nat, align: nat)

  /** The layout of a `#[repr(C)]` struct: fields in declaration order, the
      struct aligned as its most aligned field, and its size padded to a
      multiple of that alignment. */
  function ReprC(fields: seq<Shape>): (l: StructLayout)
    requires AllAligned(fields)
    ensures |l.offsets| == |fields|
  {
    var offsets := Place(fields, 0);
    var end := if |fields| == 0 then 0 else offsets[|fields| - 1] + fields[|fields| - 1].size;
    StructLayout(offsets, AlignUp(end, MaxAlign(fields)), MaxAlign(fields))
  }

  /** A `#[repr(C)]` struct's alignment is the largest of its fields' (1
      without fields), its size is a multiple of that alignment and is padded
      by less than one alignment past the last field, and every field lies
      inside it without overlapping another. */
  lemma ReprCIsSound(fields: seq<Shape>)
    requires AllAligned(fields)
    ensures var l := ReprC(fields);
      && l.align >= 1
      && (forall i :: 0 <= i < |fields| ==> fields[i].align <= l.align)
      && (l.align == 1 || exists i :: 0 <= i < |fields| && fields[i].align == l.align)
      && l.size % l.align == 0
      && (|fields| == 0 ==> l.size == 0)
      && (|fields| > 0 ==> l.size < l.offsets[|fields| - 1] + fields[|fields| - 1].size + l.align)
      && (forall i :: 0 <= i < |fields| ==> l.offsets[i] % fields[i].align == 0)
      && (forall i :: 0 <= i < |fields| ==> l.offsets[i] + fields[i].size <= l.size)
      && (forall i, j :: 0 <= i < j < |fields| ==> l.offsets[i] + fields[i].size <= l.offsets[j])
  {
    PlaceIsSound(fields, 0);
  }
}
