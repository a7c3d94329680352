/**
 * One channel's slot of the instance registry, as a value: whether an
 * instance is stored and how many acquisitions it has outstanding. The
 * documented release rule and the rule the source implements are both given,
 * so that they can be compared.
 */
module Lifecycle {
  import opened Types

  /** A registry slot: an instance is stored (the pointer is non-NULL) and its reference count. */
  datatype Slot = Slot(stored: bool, count: nat)

  const Empty := Slot(false, 0)

  /** The registry keeps an instance exactly while someone holds it. */
  predicate Consistent(s: Slot)
  {
    s.stored <==> s.count > 0
  }

  /** The outcome of an acquisition: the new slot, whether a handle was returned, whether one was built. */
  datatype Acquired = Acquired(slot: Slot, granted: bool, constructed: bool)

  /**
   * GetInstance on a valid channel: a stored instance is reused without being
   * rebuilt; otherwise one is built, and stored only if its construction
   * succeeds (`configured`). The count rises by one exactly when a handle is
   * returned.
   */
  function Acquire(s: Slot, configured: bool): (r: Acquired)
    ensures r.granted <==> s.stored || configured
    ensures r.constructed <==> !s.stored && configured
    ensures r.granted ==> r.slot == Slot(true, s.count + 1)
    ensures !r.granted ==> r.slot == s
  {
    if s.stored then Acquired(Slot(true, s.count + 1), true, false)
    else if configured then Acquired(Slot(true, s.count + 1), true, true)
    else Acquired(s, false, false)
  }

  /** The outcome of a release: the new slot and whether the instance was torn down. */
  datatype Released = Released(slot: Slot, teardown: bool)

  /**
   * ReleaseInstance as documented: the count goes down by one but never below
   * zero, and the instance is torn down and its slot cleared exactly when the
   * count reaches zero.
   */
  function Release(s: Slot): (r: Released)
    ensures s.count == 0 ==> r == Released(s, false)
    ensures s.count > 0 ==> r.slot.count == s.count - 1
    ensures r.teardown <==> s.count == 1
    ensures r.teardown ==> r.slot == Empty
    ensures !r.teardown ==> r.slot.stored == s.stored
  {
    if s.count == 0 then Released(s, false)
    else if s.count == 1 then Released(Empty, true)
    else Released(Slot(s.stored, s.count - 1), false)
  }

  lemma AcquireKeepsConsistent(s: Slot, configured: bool)
    requires Consistent(s)
    ensures Consistent(Acquire(s, configured).slot)
  {
  }

  lemma ReleaseKeepsConsistent(s: Slot)
    requires Consistent(s)
    ensures Consistent(Release(s).slot)
  {
  }

  /** `n` acquisitions in a row on a channel whose construction succeeds. */
  function AcquireTimes(s: Slot, n: nat): Slot
    decreases n
  {
    if n == 0 then s else AcquireTimes(Acquire(s, true).slot, n - 1)
  }

  /** The slot after `n` releases in a row. */
  function ReleaseTimes(s: Slot, n: nat): Slot
    decreases n
  {
    if n == 0 then s else ReleaseTimes(Release(s).slot, n - 1)
  }

  /** How many of `n` releases in a row tear the instance down. */
  function Teardowns(s: Slot, n: nat): nat
    decreases n
  {
    if n == 0 then 0 else (if Release(s).teardown then 1 else 0) + Teardowns(Release(s).slot, n - 1)
  }

  lemma {:induction false} AcquireTimesCounts(s: Slot, n: nat)
    ensures AcquireTimes(s, n) == if n == 0 then s else Slot(true, s.count + n)
    decreases n
  {
    if n > 0 {
      AcquireTimesCounts(Acquire(s, true).slot, n - 1);
    }
  }

  /**
   * Releasing j of the k outstanding acquisitions: the instance stays while
   * any remain, and exactly one teardown happens, on the k-th release.
   */
  lemma {:induction false} ReleaseTimesCounts(k: nat, j: nat)
    requires 1 <= j <= k
    ensures ReleaseTimes(Slot(true, k), j) == if j == k then Empty else Slot(true, k - j)
    ensures Teardowns(Slot(true, k), j) == if j == k then 1 else 0
    decreases j
  {
    if j > 1 {
      ReleaseTimesCounts(k - 1, j - 1);
    }
  }

  /** Releases beyond the last one change nothing: no underflow, no second teardown. */
  lemma {:induction false} ExtraReleasesAreNoOps(n: nat)
    ensures ReleaseTimes(Empty, n) == Empty
    ensures Teardowns(Empty, n) == 0
    decreases n
  {
    if n > 0 {
      ExtraReleasesAreNoOps(n - 1);
    }
  }

  /**
   * From an empty slot, n >= 1 acquisitions followed by n releases leave the
   * slot empty again (so the next acquisition rebuilds the instance) with
   * exactly one teardown, whatever further releases follow.
   */
  lemma BalancedUse(n: nat, extra: nat)
    requires n >= 1
    ensures AcquireTimes(Empty, n) == Slot(true, n)
    ensures ReleaseTimes(AcquireTimes(Empty, n), n) == Empty
    ensures Teardowns(AcquireTimes(Empty, n), n) == 1
    ensures ReleaseTimes(Empty, extra) == Empty && Teardowns(Empty, extra) == 0
  {
    AcquireTimesCounts(Empty, n);
    ReleaseTimesCounts(n, n);
    ExtraReleasesAreNoOps(extra);
  }

  // ---------------------------------------------------------------------
  // ReleaseInstance as the source writes it (PiSPI.cpp, lines 54-58), on a
  // 32-bit counter.

  /** A slot with the source's uint32_t counter. */
  datatype RawSlot = RawSlot(stored: bool, count: u32)

  /** The outcome of the source's release: the new slot and whether `delete this` ran. */
  datatype RawReleased = RawReleased(slot: RawSlot, deleted: bool)

  /**
   * The slot is cleared first, whatever the count. The guard of the decrement
   * compares the counter array's address with 0, which always holds, so the
   * decrement always runs and wraps around at zero. The object is deleted
   * when the decremented count is NOT zero.
   */
  function ReleaseAsWritten(s: RawSlot): (r: RawReleased)
    ensures !r.slot.stored
    ensures s.count > 0 ==> r.slot.count == s.count - 1
    ensures s.count == 0 ==> r.slot.count == 0xFFFF_FFFF
    ensures r.deleted <==> s.count != 1
  {
    var count: u32 := (s.count - 1) % 0x1_0000_0000;
    RawReleased(RawSlot(false, count), count != 0)
  }

  /**
   * Two holders, one release: the source deletes the shared instance and
   * forgets it while the other holder still uses it; the documented rule
   * keeps it stored with one holder.
   */
  lemma ReleaseAsWrittenDeletesSharedInstance()
    ensures ReleaseAsWritten(RawSlot(true, 2)) == RawReleased(RawSlot(false, 1), true)
    ensures Release(Slot(true, 2)) == Released(Slot(true, 1), false)
  {
  }

  /**
   * The last holder releases: the source forgets the instance and that
   * release does not delete it, so its device stays open and the next
   * acquisition opens a second one; the documented rule tears it down.
   */
  lemma ReleaseAsWrittenLeaksLastInstance()
    ensures ReleaseAsWritten(RawSlot(true, 1)) == RawReleased(RawSlot(false, 0), false)
    ensures Release(Slot(true, 1)) == Released(Empty, true)
  {
  }

  /**
   * A release with nothing outstanding (a further release of the handle the
   * previous lemma leaked): the source deletes that leaked object and leaves
   * the counter at 4294967295, which the next GetInstance increment wraps
   * back to 0; the documented rule changes nothing.
   */
  lemma ReleaseAsWrittenUnderflows()
    ensures ReleaseAsWritten(RawSlot(false, 0)) == RawReleased(RawSlot(false, 0xFFFF_FFFF), true)
    ensures Release(Empty) == Released(Empty, false)
  {
  }
}
