/** The control flow of `main`: build the request, submit it, and on success
    measure the wake-ups. The kernel's answer to `sched_setattr` and the clock
    readings are parameters, since both come from outside the program. */
module Program {
  import opened TimeSpec
  import SchedAttr
  import opened Wakeup

  /** How a run ends: with exit status 1 when the request is refused, or in
      the measurement loop, of which a finite prefix is observed. */
  datatype Outcome =
    | Exited(status: int)
    | Measuring(reports: seq<Report>, last: Timespec)

  /** `main` up to a finite number of loop iterations. `setattrResult` is the
      value `sched_setattr` returns for the submitted request; `first` is the
      reading taken before the loop and `samples` those taken in it. */
  method RunMain(uninit: SchedAttr.SchedAttr, setattrResult: int, first: Timespec, samples: seq<Timespec>)
    returns (submitted: SchedAttr.SchedAttr, outcome: Outcome)
    ensures SchedAttr.WellTyped(submitted) && SchedAttr.Admissible(submitted)
    ensures submitted.policy == SchedAttr.SCHED_DEADLINE
    ensures submitted.flags == 0 && submitted.nice == 0 && submitted.priority == 0
    ensures submitted.runtime == 4_000_000 && submitted.deadline == submitted.period == 1_000_000_000
    ensures setattrResult < 0 <==> outcome == Exited(1)
    ensures outcome.Exited? <==> setattrResult < 0
    ensures outcome.Measuring? ==>
              outcome.reports == Reports(Deltas(first, samples)) && outcome.last == Last(first, samples)
  {
    submitted := SchedAttr.MainAttr(uninit);
    var ret := setattrResult;
    if ret < 0 {
      outcome := Exited(1);
      return;
    }
    var deltas, reports, last := MeasureLoop(first, samples);
    outcome := Measuring(reports, last);
  }
}
