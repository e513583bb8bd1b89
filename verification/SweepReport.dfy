/** The scan worker's report of a sweep and the controller's position, together. */
module SweepReport {
  import MotionControl
  import ScanMachine

  /** What the worker tells the controller at the end of its sampling loop, `pulses` having reached the motor. */
  function Report(d: ScanMachine.Daemon, pulses: nat): MotionControl.Event
    requires d.pc.SweepFinishCall?
  {
    MotionControl.SweepFinish(!d.pc.aborted, pulses)
  }

  /** For a sweep from a trusted position, whatever happens while the worker samples: the report it then makes honours
      the controller's contract, and leaves the tracked position right, if and only if the sweep was not cut without the
      worker seeing a stop. That a sweep is cut means that its motor is short of steps. */
  lemma ReportKeepsTrustIff(w: MotionControl.World, d: ScanMachine.Daemon,
                            es: seq<ScanMachine.Event>, pulses: nat, sqrt: real -> real)
    requires MotionControl.Inv(w) && w.flight.Sweeping? && pulses <= w.flight.plan.steps
    requires d.job.store.WellSized() && d.pc.SweepUnderWay() && !d.cut && ScanMachine.SweepRun(d, es)
    requires ScanMachine.After(d, es).cut <==> pulses < w.flight.plan.steps
    ensures ScanMachine.After(d, es).pc.SweepFinishCall?
    ensures var e := Report(ScanMachine.After(d, es), pulses);
            var misled := ScanMachine.CutDuring(d, es) && !ScanMachine.SawStop(d, es);
            && MotionControl.Possible(w, e)
            && (MotionControl.Honest(w, e) <==> !misled)
            && (MotionControl.Trusted(MotionControl.Step(w, e, sqrt)) <==> !misled)
  {
    ScanMachine.SweepOutcome(d, es);
    hide ScanMachine.After, ScanMachine.SawStop, ScanMachine.CutDuring;
  }
}
