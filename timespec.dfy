/** A `struct timespec` reading of the monotonic clock and `time_diff`, which
    subtracts one reading from another with a borrow from the seconds field. */
module TimeSpec {
  import CArith

  const NSEC_PER_SEC: int := 1_000_000_000

  /** The two fields of `struct timespec`: `tv_sec` and `tv_nsec`. */
  datatype Timespec = Timespec(sec: int, nsec: int)

  /** The nanosecond field holds less than one second, as every clock reading does. */
  predicate Normalized(t: Timespec) {
    0 <= t.nsec < NSEC_PER_SEC
  }

  /** The instant or duration a timespec stands for, in nanoseconds. */
  function TotalNs(t: Timespec): int {
    t.sec * NSEC_PER_SEC + t.nsec
  }

  /** The normalised timespec of a nanosecond count: an independent reference
      for what a subtraction of two readings must produce. */
  function FromNs(n: int): (t: Timespec)
    ensures Normalized(t)
    ensures TotalNs(t) == n
  {
    Timespec(n / NSEC_PER_SEC, n % NSEC_PER_SEC)
  }

  /** A normalised timespec is determined by its nanosecond count. */
  lemma FromNsOfTotal(t: Timespec)
    requires Normalized(t)
    ensures FromNs(TotalNs(t)) == t
  {
  }

  /** `time_diff(diff, stop, start)`: the result written through `diff`.
      The subtraction is exact for any fields, and it keeps readings normalised. */
  function TimeDiff(stop: Timespec, start: Timespec): (diff: Timespec)
    ensures TotalNs(diff) == TotalNs(stop) - TotalNs(start)
    ensures Normalized(stop) && Normalized(start) ==> Normalized(diff)
  {
    if stop.nsec < start.nsec then
      // the seconds difference is assumed non-zero here (see BorrowNeedsSecond)
      Timespec(stop.sec - start.sec - 1, stop.nsec - start.nsec + NSEC_PER_SEC)
    else
      Timespec(stop.sec - start.sec, stop.nsec - start.nsec)
  }

  /** Without a borrow the fields are subtracted one by one. */
  lemma TimeDiffNoBorrow(stop: Timespec, start: Timespec)
    requires stop.nsec >= start.nsec
    ensures TimeDiff(stop, start) == Timespec(stop.sec - start.sec, stop.nsec - start.nsec)
  {
  }

  /** With a borrow one second moves into the nanosecond field. */
  lemma TimeDiffBorrow(stop: Timespec, start: Timespec)
    requires stop.nsec < start.nsec
    ensures TimeDiff(stop, start) == Timespec(stop.sec - start.sec - 1, stop.nsec - start.nsec + NSEC_PER_SEC)
  {
  }

  /** On clock readings, `time_diff` yields exactly the normalised form of the
      elapsed nanoseconds, whatever the order of the readings. */
  lemma TimeDiffIsCanonical(stop: Timespec, start: Timespec)
    requires Normalized(stop) && Normalized(start)
    ensures TimeDiff(stop, start) == FromNs(TotalNs(stop) - TotalNs(start))
  {
    FromNsOfTotal(TimeDiff(stop, start));
  }

  /** The seconds field of the result is non-negative exactly when the
      readings are in non-decreasing order. */
  lemma TimeDiffNonNegative(stop: Timespec, start: Timespec)
    requires Normalized(stop) && Normalized(start)
    ensures TimeDiff(stop, start).sec >= 0 <==> TotalNs(start) <= TotalNs(stop)
  {
  }

  /** The assumption written at the borrow: when the later reading's
      nanosecond field is smaller, at least one whole second lies between
      the seconds fields, so the result's seconds field does not go negative. */
  lemma BorrowNeedsSecond(stop: Timespec, start: Timespec)
    requires Normalized(stop) && Normalized(start)
    requires TotalNs(start) <= TotalNs(stop)
    requires stop.nsec < start.nsec
    ensures stop.sec - start.sec >= 1
  {
  }

  /** A reading subtracted from itself is zero; the borrow condition is false
      by irreflexivity, so the branch without a borrow is taken. */
  lemma TimeDiffIdentity(t: Timespec)
    ensures TimeDiff(t, t) == Timespec(0, 0)
  {
  }

  /** Worked cases: no borrow, a borrow, and a borrow across several seconds. */
  lemma TimeDiffExamples()
    ensures TimeDiff(Timespec(5, 500), Timespec(5, 100)) == Timespec(0, 400)
    ensures TimeDiff(Timespec(6, 100), Timespec(5, 900)) == Timespec(0, 999_999_200)
    ensures TimeDiff(Timespec(6, 100), Timespec(5, 999_999_900)) == Timespec(0, 200)
    ensures TimeDiff(Timespec(10, 50), Timespec(7, 999_999_000)) == Timespec(2, 1050)
  {
  }

  /** With `time_t` and `long` fields, two readings whose seconds fit `time_t`
      and are non-negative give a result whose fields fit as well: neither
      subtraction nor the added second overflows. */
  lemma TimeDiffFitsLong(stop: Timespec, start: Timespec)
    requires Normalized(stop) && Normalized(start)
    requires 0 <= stop.sec <= CArith.INT64_MAX && 0 <= start.sec <= CArith.INT64_MAX
    ensures CArith.InInt64(stop.sec - start.sec) && CArith.InInt64(stop.sec - start.sec - 1)
    ensures CArith.InInt64(TimeDiff(stop, start).sec) && CArith.InInt64(TimeDiff(stop, start).nsec)
  {
  }
}
