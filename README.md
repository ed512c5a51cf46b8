# SCHED_DEADLINE wake-up test, modelled in Dafny

The program puts its own thread into Linux's deadline scheduling class
(policy 6, `SCHED_DEADLINE`). It asks for 4 ms of runtime in every period of
1000 ms. Then it loops: it reads the monotonic clock, subtracts the previous
reading, prints the difference in milliseconds, and yields the processor.

The model covers the sequential logic of `main.c`:

- `TimeSpec` is a `struct timespec` reading plus `time_diff`. The borrow
  from the seconds field is proved exact. On clock readings its result is
  normalised, and it is the canonical form of the elapsed nanoseconds.
- `SchedAttr` is `struct sched_attr` (main.c:37-53) and the field-by-field
  set-up in `main`. The chained assignment
  `attr.sched_period = attr.sched_deadline = period_ms * 1000000` is kept
  as written. So the deadline takes the period's value, and the 10 ms
  deadline assigned one line earlier is lost (`InitAttr`, `MainAttr`).
- `Wakeup` is the measurement loop, run over a finite sequence of readings,
  and the millisecond/remainder split of each printed difference. The
  deltas add up to the span from the first reading to the last.
- `Program` is the control flow of `main`. If `sched_setattr` fails the
  program exits with status 1 and never enters the loop.
- `CArith` is the C semantics the model needs. It has the ranges of the
  fixed-width fields, conversion into an unsigned 64-bit field
  (reduction modulo 2^64), and the truncating `/` and `%` of C99.

Integers are mathematical. Where a C width matters it appears as a range
predicate. The product `ms * 1000000` is computed in `int`, and signed
overflow is undefined, so `InitAttr` requires that each product fits an
`int`. `MainAttr` meets this with the constants 4, 10 and 1000.

Two consequences of the code that the model keeps:

- Line 110 stores the period's value into the deadline as well, so
  deadline and period are one value (`InitAttr`, `MainAttr`).
- The borrow case (6 s, 100 ns) − (5 s, 900 ns) gives 0 s, 999_999_200 ns
  (`TimeDiffExamples`).

## Model

| member | source | states |
|---|---|---|
| CArith.ToU64 | main.c:108-110 | storing an `int` value into a `uint64_t` field gives a value in [0, 2^64) congruent to it modulo 2^64, and leaves values already in range unchanged |
| CArith.Div | main.c:125 | C `/` by a positive divisor: for a non-negative dividend it agrees with Euclidean division |
| CArith.Rem | main.c:126 | C `%` by a positive divisor: for a non-negative dividend it agrees with the Euclidean remainder |
| CArith.DivRemRules | main.c:125-126 | the C99 rules for `/` and `%` with a positive divisor: `(a/b)*b + a%b == a`; the quotient is truncated toward zero (`(a/b)*b` lies between 0 and a); the remainder is smaller than the divisor in magnitude and never has the opposite sign to the dividend |
| TimeSpec.TimeDiff | main.c:69-82 | the result of `time_diff` spans exactly the elapsed nanoseconds (stop − start) for any fields, and is normalised (0 ≤ nsec < 10^9) when both readings are |
| TimeSpec.TimeDiffNoBorrow | main.c:78-81 | if stop.nsec ≥ start.nsec, the fields are subtracted one by one |
| TimeSpec.TimeDiffBorrow | main.c:74-77 | if stop.nsec < start.nsec, one second is borrowed: (stop.sec − start.sec − 1, stop.nsec − start.nsec + 10^9) |
| TimeSpec.TimeDiffIsCanonical | main.c:69-82 | on normalised readings the result equals the normalised form (Euclidean quotient and remainder by 10^9) of the elapsed nanoseconds, in either order of the readings |
| TimeSpec.TimeDiffNonNegative | main.c:74-81 | on normalised readings the result's seconds field is ≥ 0 if and only if stop is not earlier than start |
| TimeSpec.BorrowNeedsSecond | main.c:74-77 | discharges the assumption commented at the borrow: with normalised readings in order, a borrow implies stop.sec − start.sec ≥ 1 |
| TimeSpec.TimeDiffIdentity | main.c:74-81 | a reading minus itself gives (0, 0) |
| TimeSpec.TimeDiffExamples | main.c:74-81 | worked cases: (5,500)−(5,100) = (0,400); (6,100)−(5,900) = (0,999999200); (6,100)−(5,999999900) = (0,200); (10,50)−(7,999999000) = (2,1050) |
| TimeSpec.TimeDiffFitsLong | main.c:76-80 | for normalised readings with seconds in [0, 2^63), no subtraction overflows a 64-bit `time_t`/`long`, and both result fields fit |
| SchedAttr.InitAttr | main.c:102-110 | after the assignments: policy 6, flags, nice and priority 0, runtime = runtime_ms·10^6 stored as `uint64_t`, deadline = period = period_ms·10^6. The result does not depend on the uninitialised contents. For non-negative arguments, the deadline keeps deadline_ms·10^6 if and only if deadline_ms = period_ms, and the request is admissible (0 < runtime ≤ deadline ≤ period) if and only if 0 < runtime_ms ≤ period_ms |
| SchedAttr.MainAttr | main.c:98-110 | with the constants 4, 10 and 1000: policy 6, zero flags, nice and priority, runtime 4000000, deadline = period = 1000000000 (not 10000000), every field in its C type's range, and 0 < runtime ≤ deadline ≤ period |
| SchedAttr.MainProductsFitInt | main.c:98-110 | the `int` products 4·10^6, 10·10^6 and 1000·10^6 all lie in the range of a 32-bit `int`, so they are below 2^31 |
| Wakeup.Display | main.c:124-126 | for nsec ≥ 0, the printed pair (ms, rem) has 0 ≤ rem < 10^6 and ms·10^6 + rem equals the delta in nanoseconds |
| Wakeup.DisplayIsCanonical | main.c:124-126 | for nsec ≥ 0, the printed pair is the Euclidean quotient and remainder of the delta's nanoseconds by 10^6 |
| Wakeup.Deltas | main.c:121-127 | the loop yields one delta per reading taken in it |
| Wakeup.Reports | main.c:124-126 | one printed pair per delta |
| Wakeup.DeltasAt | main.c:121-127 | the k-th delta of the loop is the k-th reading minus the reading before it (the one taken before the loop when k = 0), because `last = now` ends every iteration |
| Wakeup.ReportsAt | main.c:124-126 | the k-th printed pair is the millisecond/remainder split of the k-th delta |
| Wakeup.SumTelescopes | main.c:121-129 | the deltas of successive readings sum, in nanoseconds, to the last reading minus the first |
| Wakeup.MeasureLoop | main.c:119-129 | a finite run of the loop returns the deltas of successive readings, the printed pair of each, and `last` equal to the latest reading. The deltas sum to last − first |
| Wakeup.DeltasNonNegative | main.c:121-127 | on normalised, non-decreasing readings every delta of the loop is normalised with a seconds field ≥ 0 |
| Wakeup.MonotonicReports | main.c:121-126 | on normalised, non-decreasing readings every printed millisecond count is ≥ 0 and every remainder is in [0, 10^6) |
| Program.RunMain | main.c:84-129 | the request submitted is the admissible 4 ms / 1000 ms / 1000 ms deadline request with zero flags, nice and priority. The run exits, with status 1, if and only if `sched_setattr` returns a negative value. Otherwise it never exits, and the loop yields, for each reading, the split of its difference from the previous reading, and `last` ends as the latest reading |

## Left out

- `sched_setattr`, `sched_getattr`, `gettid` and `sched_yield` (main.c:32-33, 55-67, 96, 128) are system calls. The kernel decides whether they succeed and whether a request is admitted. `RunMain` takes the return value of `sched_setattr` as a parameter.
- `clock_gettime(CLOCK_MONOTONIC, ...)` (main.c:119, 122) is the kernel's clock. Its readings are parameters. `MonotonicReadings` states what the clock guarantees of them.
- `printf` and `perror` output (main.c:95-96, 115, 124) is not modelled. Only the two integer arguments of the per-iteration `printf` are modelled, not the `%ld.%06ld` rendering.
- The `size` field of `struct sched_attr`, set at main.c:103, is a struct-layout concern and is not modelled.
- The loop `while (1)` is unbounded and ends only on a signal. The model runs it over a finite sequence of readings. Real-time behaviour and jitter depend on the scheduler and are not modelled.
- Display: does not model overflow of the `long` product `diff.tv_sec * 1000`. Seconds are unbounded integers there, because an uptime-sized delta is far from the limit.
- CArith.Div: defined only for positive divisors, the only ones the program uses (the constant 1000000).
- CArith.Rem: defined only for positive divisors, for the same reason.
