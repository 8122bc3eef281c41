/** `TestAllocator`: a test-only wrapper around the system allocator that
    counts the allocations still outstanding and panics on a leak or an
    unmatched `dealloc`. The system allocator is an oracle whose answer (a
    null or non-null pointer) is a parameter; the atomic counter is a plain
    sequential `i64`. */
module TestAllocators {
  import opened Primitives

  const I64_MIN: int := -0x8000_0000_0000_0000
  const I64_MAX: int := 0x7fff_ffff_ffff_ffff

  type I64 = x: int | I64_MIN <= x <= I64_MAX

  /** Two's-complement wrap-around into `i64`, as the atomic `fetch_add`
      and `fetch_sub` do on overflow. */
  function Wrap(x: int): (r: I64)
    ensures (r - x) % 0x1_0000_0000_0000_0000 == 0
    ensures I64_MIN <= x <= I64_MAX ==> r == x
  {
    (x - I64_MIN) % 0x1_0000_0000_0000_0000 + I64_MIN
  }

  /** The allocator's only state, the field `count`. */
  datatype TestAllocator = TestAllocator(count: I64)

  /** The state after a call: it returned normally, or it panicked with the
      given message, leaving the allocator in the given state. */
  datatype Outcome = Done(alloc: TestAllocator) | Panicked(message: string, alloc: TestAllocator)

  /** `alloc`: forwards to the system allocator, whose answer is `sys`, and
      counts the allocation when it succeeded. */
  function Alloc(a: TestAllocator, sys: Ptr): (r: (TestAllocator, Ptr))
    ensures r.1 == sys
    ensures sys.NonNull? ==> r.0.count == Wrap(a.count + 1)
    ensures sys.Null? ==> r.0 == a
  {
    if sys != Null then (TestAllocator(Wrap(a.count + 1)), sys) else (a, sys)
  }

  /** The payload of the failed `assert_eq!(false, ptr.is_null())`, as Rust
      1.73 and later format it. */
  const NullDeallocMessage: string := "assertion `left == right` failed\n  left: false\n right: true"

  /** `dealloc`: a null pointer fails the assertion before anything else
      happens. Otherwise the counter is decremented first, and the call
      panics if the value before the decrement was not positive, without
      reaching the system allocator. */
  function Dealloc(a: TestAllocator, p: Ptr): (r: Outcome)
    ensures p.Null? ==> r == Panicked(NullDeallocMessage, a)
    ensures p.NonNull? && a.count <= 0 ==>
      r == Panicked("Calls dealloc() too many times", TestAllocator(Wrap(a.count - 1)))
    ensures p.NonNull? && a.count > 0 ==> r == Done(TestAllocator(a.count - 1))
  {
    if p == Null then Panicked(NullDeallocMessage, a)
    else
      var before := a.count;
      var after := TestAllocator(Wrap(before - 1));
      if before <= 0 then Panicked("Calls dealloc() too many times", after) else Done(after)
  }

  /** `Drop`: panics unless every allocation was given back. */
  function Drop(a: TestAllocator): (r: Result<()>)
    ensures r.Ok? <==> a.count == 0
    ensures r.Panic? ==> r.message == "Memory Leak!"
  {
    if a.count != 0 then Panic("Memory Leak!") else Ok(())
  }

  /** One call into the allocator: `alloc` with the system allocator's
      answer, or `dealloc` of a pointer. */
  datatype Call = AllocCall(sys: Ptr) | DeallocCall(ptr: Ptr)

  function Step(a: TestAllocator, c: Call): Outcome
  {
    match c
    case AllocCall(sys) => Done(Alloc(a, sys).0)
    case DeallocCall(p) => Dealloc(a, p)
  }

  /** A sequence of calls, stopping at the first panic. */
  function Run(a: TestAllocator, calls: seq<Call>): Outcome
    decreases |calls|
  {
    if |calls| == 0 then Done(a)
    else
      match Run(a, calls[..|calls| - 1])
      case Panicked(m, b) => Panicked(m, b)
      case Done(b) => Step(b, calls[|calls| - 1])
  }

  /** How many `alloc` calls got memory from the system allocator. */
  function Granted(calls: seq<Call>): (n: nat)
    ensures n <= |calls|
    decreases |calls|
  {
    if |calls| == 0 then 0
    else
      var last := calls[|calls| - 1];
      Granted(calls[..|calls| - 1]) + if last.AllocCall? && last.sys.NonNull? then 1 else 0
  }

  /** How many `dealloc` calls were made. */
  function Returned(calls: seq<Call>): (n: nat)
    ensures n <= |calls|
    decreases |calls|
  {
    if |calls| == 0 then 0
    else Returned(calls[..|calls| - 1]) + if calls[|calls| - 1].DeallocCall? then 1 else 0
  }

  /** No `dealloc` is handed a null pointer. */
  predicate NoNullDealloc(calls: seq<Call>)
  {
    forall i :: 0 <= i < |calls| && calls[i].DeallocCall? ==> calls[i].ptr.NonNull?
  }

  /** Starting from `start` outstanding allocations, no prefix of the calls
      gives back more than was handed out. */
  predicate NeverOverReturned(start: nat, calls: seq<Call>)
  {
    forall k :: 0 <= k <= |calls| ==> Returned(calls[..k]) <= start + Granted(calls[..k])
  }

  lemma NoNullDeallocSnoc(calls: seq<Call>)
    requires |calls| > 0
    ensures NoNullDealloc(calls) <==>
      NoNullDealloc(calls[..|calls| - 1]) && (calls[|calls| - 1].DeallocCall? ==> calls[|calls| - 1].ptr.NonNull?)
  {
  }

  lemma PrefixOfPrefix(calls: seq<Call>, k: nat)
    requires k < |calls|
    ensures calls[..|calls| - 1][..k] == calls[..k]
  {
  }

  lemma NeverOverReturnedSnoc(start: nat, calls: seq<Call>)
    requires |calls| > 0
    ensures NeverOverReturned(start, calls) <==>
      NeverOverReturned(start, calls[..|calls| - 1]) && Returned(calls) <= start + Granted(calls)
  {
    var n := |calls|;
    var prefix := calls[..n - 1];
    if NeverOverReturned(start, calls) {
      assert calls[..n] == calls;
      forall k | 0 <= k <= |prefix|
        ensures Returned(prefix[..k]) <= start + Granted(prefix[..k])
      {
        PrefixOfPrefix(calls, k);
      }
    }
    if NeverOverReturned(start, prefix) && Returned(calls) <= start + Granted(calls) {
      forall k | 0 <= k <= n
        ensures Returned(calls[..k]) <= start + Granted(calls[..k])
      {
        if k < n {
          PrefixOfPrefix(calls, k);
        } else {
          assert calls[..k] == calls;
        }
      }
    }
  }

  /** The balance argument. As long as fewer than `i64::MAX` calls are made
      (so the counter cannot wrap), a run from `start` outstanding
      allocations panics exactly when some `dealloc` gets a null pointer or
      one `dealloc` too many; and a run that does not panic ends with the
      counter at `start` plus the granted allocations minus the
      deallocations, never negative. */
  lemma {:induction false} RunBalance(start: nat, calls: seq<Call>)
    requires start + |calls| <= I64_MAX
    ensures Run(TestAllocator(start), calls).Done? <==>
      NoNullDealloc(calls) && NeverOverReturned(start, calls)
    ensures Run(TestAllocator(start), calls).Done? ==>
      Run(TestAllocator(start), calls).alloc.count == start + Granted(calls) - Returned(calls) >= 0
    decreases |calls|
  {
    if |calls| > 0 {
      var n := |calls|;
      var prefix := calls[..n - 1];
      var last := calls[n - 1];
      RunBalance(start, prefix);
      NoNullDeallocSnoc(calls);
      NeverOverReturnedSnoc(start, calls);
    }
  }

  /** The leak check: after a run from a fresh allocator that did not
      panic, dropping the allocator panics exactly when some granted
      allocation was never given back. */
  lemma LeakCheckIsExact(calls: seq<Call>)
    requires |calls| <= I64_MAX
    requires Run(TestAllocator(0), calls).Done?
    ensures Drop(Run(TestAllocator(0), calls).alloc).Ok? <==> Granted(calls) == Returned(calls)
  {
    RunBalance(0, calls);
  }
}
