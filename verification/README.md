# mouse-sovec: a Dafny model of the small-optimised vector's core

`SoVec<T, A>` is a vector that keeps its elements inside its own footprint
(the *inline store*, `StackBuffer<T>`) and only uses a heap allocation (a
`HeapBuffer<T>` descriptor of pointer, length and capacity) when the inline
store is not enough. The two representations share one slot: the descriptor
is written over the first bytes of the inline store, and the last byte of the
slot is the inline length field `len_`, which the descriptor never covers.

This project models that core:

- `primitives.dfy` (`Primitives`): bytes, opaque raw pointers, and a
  `Result` for code that panics.
- `layouts.dfy` (`Layouts`): the target's word size `W` and word alignment,
  the shape (size, alignment) of a type, and the `#[repr(C)]` field-placement
  rule, with its soundness proved once for any list of fields.
- `heap_buffer.dfy` (`HeapBuffers`): the descriptor, its accessors, the
  unchecked `set_len`, the `layout()` of its allocation, its test-build
  `Drop`, and its three-word layout.
- `stack_buffer.dfy` (`StackBuffers`): the `#[repr(C)]` layout of
  `StackBuffer<T>` computed from `HeapBuffer<u8>`'s size, the inline
  capacity, the crate's `size`/`align`/`capacity` tests, and the overlay
  argument: a descriptor at offset 0 ends before the `len_` byte.
- `so_vec.rs`'s dispatch layer as `so_vec.dfy` (`SoVecs`): the slot as a
  tagged union `Inline | Heap` instead of a pointer cast, and `len`,
  `set_len`, `capacity`, `as_ptr`, `as_mut_ptr` with the mode-checked
  accessors they go through.
- `allocator.dfy` (`TestAllocators`): the test allocator's counter as a
  sequential state machine with panics as outcomes, and the balance argument
  over any sequence of calls.

The word size is a parameter (`Target`): `W` is 2, 4 or 8 bytes and
`align_of::<usize>()` is a power of two dividing it. Unsafe functions'
documented preconditions (`set_len`'s `new_len <= capacity()`, the accessors'
debug assertions on the mode) are `requires` clauses; panics are values
(`Result.Panic`, `Outcome.Panicked`) carrying the panic payload as Rust 1.73
and later format it.

`SoVec` calls `StackBuffer::is_available`, `len`, `set_len`, `as_ptr` and
`as_mut_ptr`, but none of them is defined anywhere in this version of the
crate (only `StackBuffer::capacity` is, `src/stack_buffer.rs:48-53`); the
model keeps the mode as the datatype's tag and the inline length as a `u8`. Growing, pushing, popping, reserving, truncating, shrinking and
destroying the container do not exist in this version of the code.

## Model

| member | source | states |
|---|---|---|
| `Layouts.PlaceIsSound` | src/stack_buffer.rs:40-46 | `#[repr(C)]` placement puts each field at an offset its alignment allows, in declaration order, with no two fields overlapping and no more padding before a field than its alignment forces |
| `Layouts.ReprCIsSound` | src/stack_buffer.rs:40-46 | a `#[repr(C)]` struct is aligned exactly as its most aligned field (1 without fields), its size is a multiple of its alignment and pads the last field by less than one alignment (0 for no fields), and every field lies inside it without overlap |
| `HeapBuffers.Len` | src/heap_buffer.rs:42-45 | `len()` is the `len_` field: together with the pointer and the capacity it makes up the whole descriptor (its effect is pinned down by `HeapBuffers.SetLen`) |
| `HeapBuffers.Capacity` | src/heap_buffer.rs:59-62 | `capacity()` is the `cap_` field, with no other state involved (`HeapBuffers.SetLen` shows `set_len` never changes it) |
| `HeapBuffers.AsPtr` | src/heap_buffer.rs:64-67 | `as_ptr()` is the `ptr` field (`HeapBuffers.AsMutPtr` shows the mutable accessor returns the same pointer) |
| `HeapBuffers.AsMutPtr` | src/heap_buffer.rs:64-72 | `as_mut_ptr` returns the same pointer as `as_ptr` |
| `HeapBuffers.SetLen` | src/heap_buffer.rs:47-57 | under the safety precondition `new_len <= capacity()`, afterwards `len()` is `new_len` while `capacity()` and the pointer are unchanged |
| `HeapBuffers.SetLenKeepsConsistency` | src/heap_buffer.rs:54-57 | `set_len` keeps `len <= cap`, the last `set_len` wins, and setting the current length changes nothing |
| `HeapBuffers.Layout` | src/heap_buffer.rs:74-80 | provided `size_of::<T>() * cap_` fits in `usize`, the layout has `T`'s alignment and a size from which the capacity is recovered exactly (size / `size_of::<T>()` = `cap_`, no remainder); zero for a zero-sized `T` |
| `HeapBuffers.LayoutIgnoresLen` | src/heap_buffer.rs:75-80 | the layout depends on the capacity only: changing the length never changes it |
| `HeapBuffers.Drop` | src/heap_buffer.rs:83-88 | in test builds dropping a descriptor succeeds exactly when its pointer is null, and otherwise fails the `is_null` assertion |
| `HeapBuffers.DescriptorLayoutIs` | src/heap_buffer.rs:35-39 | a `HeapBuffer<T>` is three words at offsets 0, `W`, `2W`, size `3W`, aligned as a word, for every sized `T` |
| `StackBuffers.Capacity` | src/stack_buffer.rs:49-52 | `capacity()` is the largest `n` with `n * size_of::<T>()` within the data bytes `size_of::<Buffer0>() + size_of::<Buffer1>()`; it panics (division by zero) exactly for a zero-sized `T` |
| `StackBuffers.LayoutIs` | src/stack_buffer.rs:36-46 | `StackBuffer<T>` is `_buf0` at 0, `_buf1` (`3W - 1` bytes) at `W`, `len_` at `4W - 1`, the marker at `4W`; size `4W`, aligned as a word, whatever `T` is |
| `StackBuffers.DataRegionIs` | src/stack_buffer.rs:36-52 | the inline data region is `4W - 1` bytes and ends exactly where the `len_` byte begins |
| `StackBuffers.SizeTest` | src/stack_buffer.rs:60-70 | `size_of::<StackBuffer<T>>()` is `size_of::<HeapBuffer<T>>()` plus one word, for `T = u8` and `T = usize` alike |
| `StackBuffers.AlignTest` | src/stack_buffer.rs:72-76 | `HeapBuffer`'s alignment is at most, and divides, `StackBuffer`'s |
| `StackBuffers.CapacityTest` | src/stack_buffer.rs:78-87 | for every non-zero-sized `T`, `capacity()` is `(size_of::<StackBuffer<u8>>() - size_of::<Len>()) / size_of::<T>()` |
| `StackBuffers.CapacityTestCases` | src/stack_buffer.rs:78-100 | the element types of the crate's `capacity` test, `u8`, `usize`, `[u8; 3]`, `[u8; 1024]` get capacities `4W - 1`, 3, `(4W - 1) / 3` and 0 |
| `StackBuffers.ElementsFitBeforeLen` | src/stack_buffer.rs:40-52 | `capacity()` elements end at or before the `len_` byte, so storing them never overwrites the inline length |
| `StackBuffers.CapacityFitsLenByte` | src/stack_buffer.rs:36-52 | the inline capacity is at most `4W - 1`, below 256, so every inline length up to it fits in the `u8` `len_` field |
| `StackBuffers.OverlayMissesLen` | src/stack_buffer.rs:36-46 | a descriptor overlaid at offset 0 occupies `[0, 3W)`, which ends before the `len_` byte at `4W - 1` inside the slot, and the slot is aligned for it |
| `StackBuffers.OverlayKeepsLenByte` | src/so_vec.rs:141-148 | writing any descriptor's bytes over the slot through `as_mut_heap` leaves the `len_` byte (offset `4W - 1`) as it was |
| `SoVecs.IsUsingStack` | src/so_vec.rs:114-118 | exactly one representation is active: the inline store when it holds, the heap descriptor otherwise; every accessor dispatches on it (`SoVecs.DispatchIsConsistent`) |
| `SoVecs.AsStack` | src/so_vec.rs:120-124 | only reachable in inline mode (the debug assertion), and returns the slot itself as the inline store |
| `SoVecs.AsMutStack` | src/so_vec.rs:126-130 | only reachable in inline mode; what the borrower leaves is what the slot then holds, still in inline mode |
| `SoVecs.AsHeap` | src/so_vec.rs:132-139 | only reachable in heap mode, and reads the slot as the descriptor it holds |
| `SoVecs.AsMutHeap` | src/so_vec.rs:141-148 | only reachable in heap mode; what the borrower leaves is the slot's descriptor, still in heap mode |
| `SoVecs.BorrowWriteBack` | src/so_vec.rs:126-148 | a property of the model's write-back encoding of a mutable borrow (not a statement of the source): writing back what was borrowed leaves the slot unchanged, and a later write-back replaces an earlier one |
| `SoVecs.Len` | src/so_vec.rs:55-62 | `len()` is the inline length (below 256) in inline mode and the descriptor's `len_` in heap mode |
| `SoVecs.Capacity` | src/so_vec.rs:79-86 | `capacity()` is the inline constant `StackBuffer::<T>::capacity()` in inline mode and the descriptor's `cap_` in heap mode |
| `SoVecs.SetLen` | src/so_vec.rs:64-77 | under `new_len <= capacity()`, afterwards `len()` is `new_len`, the mode, the capacity and the data pointer are unchanged, and `len() <= capacity()` holds |
| `SoVecs.AsPtr` | src/so_vec.rs:88-99 | `as_ptr` points into the inline region exactly in inline mode, and is the descriptor's pointer in heap mode |
| `SoVecs.AsMutPtr` | src/so_vec.rs:101-112 | `as_mut_ptr` returns the same pointer as `as_ptr` |
| `SoVecs.DispatchIsConsistent` | src/so_vec.rs:55-112 | in heap mode `len`, `capacity`, `as_ptr` and `as_mut_ptr` all read one descriptor; in inline mode the capacity and pointer are the same for every length |
| `SoVecs.SetLenLastWins` | src/so_vec.rs:71-77 | the last `set_len` wins, and setting the current length changes nothing |
| `TestAllocators.Wrap` | src/allocator.rs:38-48 | the counter is an `i64` that wraps around modulo 2^64, and values in range are kept as they are |
| `TestAllocators.Alloc` | src/allocator.rs:43-52 | `alloc` returns the system allocator's pointer, counting one more allocation when it is non-null and leaving the counter alone when it is null |
| `TestAllocators.Dealloc` | src/allocator.rs:54-65 | `dealloc` of a null pointer fails the assertion with the counter untouched; otherwise the counter drops by one, and the call panics ("too many times") when the value before was not positive |
| `TestAllocators.Drop` | src/allocator.rs:68-74 | dropping the allocator panics ("Memory Leak!") exactly when the counter is not zero |
| `TestAllocators.RunBalance` | src/allocator.rs:43-64 | from `start` outstanding allocations, a sequence of calls runs without panicking exactly when no `dealloc` gets a null pointer and no prefix gives back more than was granted; then the counter is `start` + granted − returned, never negative |
| `TestAllocators.LeakCheckIsExact` | src/allocator.rs:43-74 | after a non-panicking run from zero, the leak check passes exactly when every granted allocation was given back |

## Left out

- The pointer reinterpretation in `as_heap`/`as_mut_heap` is replaced by the `SoVec` datatype; the overlay is modelled through byte offsets (`StackBuffers.OverlayMissesLen`, `StackBuffers.OverlayKeepsLenByte`).
- `StackBuffer::is_available`, `as_ptr` and `as_mut_ptr` are called by `so_vec.rs` but not defined anywhere in this version of the crate (only `StackBuffer::capacity` is, `src/stack_buffer.rs:48-53`): the model takes the mode as the datatype's tag and the inline data pointer as an opaque `InlineData`. No sentinel encoding is assumed. `StackBuffer::len` and `set_len` are likewise undefined in the crate; the model gives them meaning abstractly through `StackBuffers.Len`/`SetLen` over a `u8` length.
- Pointer values, memory contents, element drop glue and Rust's `Layout` validity rules: pointers are only null or non-null.
- The `alloc: A` field of `SoVec` is never used in this code and is not modelled.
- Growth, push, pop, truncate, shrink, releasing a heap buffer and destroying the container do not exist in this version of the code.
- The `System` allocator is an oracle: its answer to `alloc` is a parameter, and `System::dealloc` has no observable effect here. Atomic memory orderings are not modelled; the counter is sequential.
- `src/lib.rs` holds only module declarations and documentation.
- The alignment of an inline element is not modelled: `StackBuffer<T>` is aligned as a word whatever `T` is (`StackBuffers.LayoutIs`), and whether `StackBuffer::as_ptr` would cope with an element type more aligned than `usize` is open, as that method is not defined in this version of the crate.
- `StackBuffers.OverlayKeepsLenByte`: proves only that the `len_` byte survives the overlay. The bytes `[3W, 4W - 1)` of `_buf1` survive too, and `is_available` is not defined anywhere in this version of the crate, so which bytes decide the mode is unknown and the link between the `len_` byte and the mode (the datatype's tag) is an assumption.
- `HeapBuffers.DescriptorLayoutIs`: `HeapBuffer` has the default representation, so three words with no padding is what rustc does rather than what Rust guarantees; the model assumes it, as the crate's own `size` test does.
- `HeapBuffers.Layout`: requires `size_of::<T>() * cap_` to fit in `usize`, because the source multiplies unchecked; the stricter `isize` bound of `Layout::from_size_align_unchecked` is not modelled.
- `TestAllocators.RunBalance`: requires fewer than `i64::MAX` calls beyond the starting count, so it does not cover the counter wrapping around (which `Alloc` and `Dealloc` do model).
- `TestAllocators.LeakCheckIsExact`: same bound as `TestAllocators.RunBalance`.
- `SoVecs.SetLen`: in inline mode with a zero-sized `T`, `capacity()` panics, so no `new_len` meets the precondition and the model offers no `set_len` there.
