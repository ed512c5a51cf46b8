/** `struct sched_attr`, the record handed to `sched_setattr`, and its
    field-by-field initialisation in `main`. */
module SchedAttr {
  import CArith

  /** The policy number of the deadline scheduling class. */
  const SCHED_DEADLINE: int := 6
  const NSEC_PER_MSEC: int := 1_000_000

  /** The fields of `struct sched_attr` apart from its `size` (a layout concern). */
  datatype SchedAttr = SchedAttr(
    policy: int,      // uint32_t sched_policy
    flags: int,       // uint64_t sched_flags
    nice: int,        // int32_t sched_nice (normal and batch classes)
    priority: int,    // uint32_t sched_priority (FIFO and round-robin classes)
    runtime: int,     // uint64_t sched_runtime, nanoseconds
    deadline: int,    // uint64_t sched_deadline, nanoseconds
    period: int       // uint64_t sched_period, nanoseconds
  )

  /** Every field holds a value of its C type. */
  predicate WellTyped(a: SchedAttr) {
    CArith.InUint32(a.policy) && CArith.InUint64(a.flags) && CArith.InInt32(a.nice) &&
    CArith.InUint32(a.priority) && CArith.InUint64(a.runtime) &&
    CArith.InUint64(a.deadline) && CArith.InUint64(a.period)
  }

  /** The ordering a deadline request needs to be admitted: a positive
      runtime no longer than the deadline, which is no longer than the period. */
  predicate Admissible(a: SchedAttr) {
    0 < a.runtime <= a.deadline <= a.period
  }

  /** The products `ms * 1000000` are computed in `int`, where overflow is undefined. */
  predicate ProductsFitInt(runtimeMs: int, deadlineMs: int, periodMs: int) {
    CArith.InInt32(runtimeMs * NSEC_PER_MSEC) &&
    CArith.InInt32(deadlineMs * NSEC_PER_MSEC) &&
    CArith.InInt32(periodMs * NSEC_PER_MSEC)
  }

  /** The assignments that set up `attr` in `main`. `uninit` is whatever the
      uninitialised local held: every field is overwritten, so the result does
      not depend on it. The chained assignment stores the period's value into
      the deadline as well, so the deadline argument only survives when it
      equals the period. */
  method InitAttr(uninit: SchedAttr, runtimeMs: int, deadlineMs: int, periodMs: int)
    returns (attr: SchedAttr)
    requires ProductsFitInt(runtimeMs, deadlineMs, periodMs)
    ensures WellTyped(attr)
    ensures attr.policy == SCHED_DEADLINE && attr.flags == 0 && attr.nice == 0 && attr.priority == 0
    ensures attr.runtime == CArith.ToU64(runtimeMs * NSEC_PER_MSEC)
    ensures attr.deadline == attr.period == CArith.ToU64(periodMs * NSEC_PER_MSEC)
    ensures 0 <= deadlineMs && 0 <= periodMs ==>
              (attr.deadline == deadlineMs * NSEC_PER_MSEC <==> deadlineMs == periodMs)
    ensures 0 <= runtimeMs && 0 <= periodMs ==>
              (Admissible(attr) <==> 0 < runtimeMs <= periodMs)
  {
    attr := uninit;
    attr := attr.(policy := SCHED_DEADLINE);
    attr := attr.(flags := 0);
    attr := attr.(nice := 0);
    attr := attr.(priority := 0);
    attr := attr.(runtime := CArith.ToU64(runtimeMs * NSEC_PER_MSEC));
    attr := attr.(deadline := CArith.ToU64(deadlineMs * NSEC_PER_MSEC));
    // `period = deadline = period_ms * 1000000`: the inner assignment runs
    // first, and its value (the stored field) is then stored into the period
    attr := attr.(deadline := CArith.ToU64(periodMs * NSEC_PER_MSEC));
    attr := attr.(period := attr.deadline);
  }

  /** The request `main` builds from its constants: 4 ms of runtime, a 10 ms
      deadline that the chained assignment discards, and a 1000 ms period. */
  method MainAttr(uninit: SchedAttr) returns (attr: SchedAttr)
    ensures WellTyped(attr) && Admissible(attr)
    ensures attr.policy == SCHED_DEADLINE && attr.flags == 0 && attr.nice == 0 && attr.priority == 0
    ensures attr.runtime == 4_000_000
    ensures attr.deadline == attr.period == 1_000_000_000
    ensures attr.deadline != 10 * NSEC_PER_MSEC
  {
    var runtimeMs, deadlineMs, periodMs := 4, 10, 1000;
    MainProductsFitInt();
    attr := InitAttr(uninit, runtimeMs, deadlineMs, periodMs);
  }

  /** The constants' products stay below 2^31, so no `int` multiplication overflows. */
  lemma MainProductsFitInt()
    ensures ProductsFitInt(4, 10, 1000)
  {
  }
}
