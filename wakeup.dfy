/** The measurement loop of `main`: each clock reading is subtracted from the
    previous one, the difference is split into the two numbers that are
    printed, and the reading becomes the previous one. */
module Wakeup {
  import CArith
  import opened TimeSpec

  const NSEC_PER_MSEC: int := 1_000_000
  const MSEC_PER_SEC: int := 1000

  /** The two integers printed per wake-up: whole milliseconds, and the
      nanoseconds left over within the last millisecond. */
  datatype Report = Report(ms: int, rem: int)

  /** The two printed arguments: the seconds scaled to milliseconds plus the
      whole milliseconds of the nanosecond field, and the nanoseconds left
      over, computed with C's truncating division and remainder. */
  function Display(d: Timespec): (r: Report)
    ensures d.nsec >= 0 ==> 0 <= r.rem < NSEC_PER_MSEC
    ensures d.nsec >= 0 ==> r.ms * NSEC_PER_MSEC + r.rem == TotalNs(d)
  {
    Report(d.sec * MSEC_PER_SEC + CArith.Div(d.nsec, NSEC_PER_MSEC), CArith.Rem(d.nsec, NSEC_PER_MSEC))
  }

  /** The split is Euclidean division of the whole duration by one millisecond. */
  lemma DisplayIsCanonical(d: Timespec)
    requires d.nsec >= 0
    ensures Display(d) == Report(TotalNs(d) / NSEC_PER_MSEC, TotalNs(d) % NSEC_PER_MSEC)
  {
  }

  /** The reading the k-th reading is measured against: the one taken before
      the loop for the first iteration, the one taken just before otherwise. */
  function Prev(first: Timespec, samples: seq<Timespec>, k: nat): Timespec
    requires k < |samples|
  {
    if k == 0 then first else samples[k - 1]
  }

  /** The reading held in `last` after all iterations. */
  function Last(first: Timespec, samples: seq<Timespec>): Timespec {
    if samples == [] then first else samples[|samples| - 1]
  }

  /** The readings are clock readings, and the clock never runs backward. */
  predicate MonotonicReadings(first: Timespec, samples: seq<Timespec>) {
    Normalized(first) &&
    (forall k :: 0 <= k < |samples| ==> Normalized(samples[k])) &&
    (forall k :: 0 <= k < |samples| ==> TotalNs(Prev(first, samples, k)) <= TotalNs(samples[k]))
  }

  /** The total length of a sequence of durations, in nanoseconds. */
  function SumNs(ds: seq<Timespec>): int {
    if ds == [] then 0 else SumNs(ds[..|ds| - 1]) + TotalNs(ds[|ds| - 1])
  }

  /** The deltas the loop computes: each reading minus the one before it. */
  function Deltas(first: Timespec, samples: seq<Timespec>): (ds: seq<Timespec>)
    ensures |ds| == |samples|
  {
    if samples == [] then []
    else
      var init := samples[..|samples| - 1];
      Deltas(first, init) + [TimeDiff(samples[|samples| - 1], Last(first, init))]
  }

  /** The pairs the loop prints: the split of each delta. */
  function Reports(ds: seq<Timespec>): (rs: seq<Report>)
    ensures |rs| == |ds|
  {
    if ds == [] then [] else Reports(ds[..|ds| - 1]) + [Display(ds[|ds| - 1])]
  }

  /** The k-th delta is the k-th reading measured against the one before it. */
  lemma {:induction false} DeltasAt(first: Timespec, samples: seq<Timespec>, k: nat)
    requires k < |samples|
    ensures Deltas(first, samples)[k] == TimeDiff(samples[k], Prev(first, samples, k))
  {
    var n := |samples| - 1;
    var init := samples[..n];
    if k < n {
      DeltasAt(first, init, k);
      assert Prev(first, init, k) == Prev(first, samples, k);
    } else {
      assert Last(first, init) == Prev(first, samples, k);
    }
  }

  /** The k-th printed pair is the split of the k-th delta. */
  lemma {:induction false} ReportsAt(ds: seq<Timespec>, k: nat)
    requires k < |ds|
    ensures Reports(ds)[k] == Display(ds[k])
  {
    if k < |ds| - 1 {
      ReportsAt(ds[..|ds| - 1], k);
    }
  }

  /** Differences of successive readings add up to the span from the first
      reading to the last: nothing is lost or counted twice. */
  lemma {:induction false} SumTelescopes(first: Timespec, samples: seq<Timespec>)
    ensures SumNs(Deltas(first, samples)) == TotalNs(Last(first, samples)) - TotalNs(first)
  {
    if samples != [] {
      var init := samples[..|samples| - 1];
      var ds := Deltas(first, samples);
      assert ds[..|ds| - 1] == Deltas(first, init);
      SumTelescopes(first, init);
    }
  }

  /** On successive clock readings every delta is a normalised, non-negative duration. */
  lemma DeltasNonNegative(first: Timespec, samples: seq<Timespec>, k: nat)
    requires MonotonicReadings(first, samples)
    requires k < |samples|
    ensures Normalized(Deltas(first, samples)[k]) && Deltas(first, samples)[k].sec >= 0
  {
    DeltasAt(first, samples, k);
    TimeDiffNonNegative(samples[k], Prev(first, samples, k));
  }

  /** On successive clock readings every printed pair is a non-negative
      millisecond count and a remainder below one millisecond. */
  lemma MonotonicReports(first: Timespec, samples: seq<Timespec>, k: nat)
    requires MonotonicReadings(first, samples)
    requires k < |samples|
    ensures 0 <= Reports(Deltas(first, samples))[k].ms
    ensures 0 <= Reports(Deltas(first, samples))[k].rem < NSEC_PER_MSEC
  {
    DeltasNonNegative(first, samples, k);
    ReportsAt(Deltas(first, samples), k);
  }

  /** A finite run of the loop over `samples`, starting from the reading
      `first` taken before it. It returns the delta and the printed pair of
      each iteration, and the final value of `last`; the deltas add up to
      the time between the first reading and the last. */
  method MeasureLoop(first: Timespec, samples: seq<Timespec>)
    returns (deltas: seq<Timespec>, reports: seq<Report>, last: Timespec)
    ensures deltas == Deltas(first, samples)
    ensures reports == Reports(deltas)
    ensures last == Last(first, samples)
    ensures SumNs(deltas) == TotalNs(last) - TotalNs(first)
  {
    deltas, reports, last := [], [], first;
    var i := 0;
    while i < |samples|
      invariant 0 <= i <= |samples|
      invariant last == Last(first, samples[..i])
      invariant deltas == Deltas(first, samples[..i])
      invariant reports == Reports(deltas)
    {
      var now := samples[i];
      var diff := TimeDiff(now, last);
      assert samples[..i + 1][..i] == samples[..i];
      deltas := deltas + [diff];
      reports := reports + [Display(diff)];
      assert deltas[..i] == deltas[..|deltas| - 1];
      last := now;
      i := i + 1;
    }
    assert samples[..i] == samples;
    SumTelescopes(first, samples);
  }
}
