/** The safety supervisor: a fault latch that keeps its first cause, and the host watchdog. Times are in
    milliseconds; a tick reads the heartbeat and acts on it atomically. */
module Watchdog {

  datatype FaultCode = NoFault | EStop | HostWatchdog | MotionAbort | LidarFault

  const TICK_MS: int := 100

  datatype Supervisor = Supervisor(fault: FaultCode, lastHeartbeat: int, watchdogMs: int)

  datatype Event =
    | Heartbeat(now: int)
    | Tick(now: int, busy: bool)
    | Trigger(now: int, code: FaultCode)
    | Clear(now: int)

  function TriggerFault(s: Supervisor, code: FaultCode): Supervisor {
    if s.fault != NoFault then s else s.(fault := code)
  }

  function Step(s: Supervisor, e: Event): Supervisor {
    match e
    case Heartbeat(now) => s.(lastHeartbeat := now)
    case Tick(now, busy) =>
      if s.fault != NoFault || !busy then s
      else if now - s.lastHeartbeat > s.watchdogMs then TriggerFault(s, HostWatchdog)
      else s
    case Trigger(_, code) => TriggerFault(s, code)
    case Clear(now) => s.(fault := NoFault, lastHeartbeat := now)
  }

  function Run(s: Supervisor, es: seq<Event>): Supervisor
    decreases |es|
  {
    if es == [] then s else Run(Step(s, es[0]), es[1..])
  }

  class SafetySupervisor {
    const watchdogMs: int
    var faultCode: FaultCode
    var faultReason: string
    var lastHeartbeat: int
    var motionEnabled: bool
    var motionAborts: nat  // how often the motion in flight has been aborted

    constructor (watchdogMs: int, now: int)
      ensures View() == Supervisor(NoFault, now, watchdogMs)
    {
      this.watchdogMs := watchdogMs;
      faultCode, faultReason, lastHeartbeat, motionEnabled, motionAborts := NoFault, "", now, true, 0;
    }

    function View(): Supervisor
      reads this
    {
      Supervisor(faultCode, lastHeartbeat, watchdogMs)
    }

    method OnHeartbeat(now: int)
      modifies this`lastHeartbeat
      ensures View() == Step(old(View()), Heartbeat(now))
    {
      lastHeartbeat := now;
    }

    /** The first fault wins; it alone aborts the motion in flight and disables the motors. */
    method OnTrigger(code: FaultCode, reason: string)
      modifies this`faultCode, this`faultReason, this`motionEnabled, this`motionAborts
      ensures View() == TriggerFault(old(View()), code)
      ensures old(faultCode) != NoFault ==>
                faultReason == old(faultReason) && motionEnabled == old(motionEnabled)
                && motionAborts == old(motionAborts)
      ensures old(faultCode) == NoFault ==>
                faultReason == reason && !motionEnabled && motionAborts == old(motionAborts) + 1
    {
      if faultCode != NoFault {
        return;
      }
      faultCode := code;
      faultReason := reason;
      motionAborts := motionAborts + 1;
      motionEnabled := false;
    }

    method OnClear(now: int)
      modifies this`faultCode, this`faultReason, this`lastHeartbeat
      ensures View() == Step(old(View()), Clear(now)) && faultReason == ""
    {
      faultCode := NoFault;
      faultReason := "";
      lastHeartbeat := now;
    }

    /** One turn of the supervisor loop. */
    method OnTick(now: int, motionBusy: bool)
      modifies this`faultCode, this`faultReason, this`motionEnabled, this`motionAborts
      ensures View() == Step(old(View()), Tick(now, motionBusy))
      ensures faultCode != old(faultCode) ==> !motionEnabled
      ensures motionAborts == old(motionAborts) + if faultCode != old(faultCode) then 1 else 0
    {
      if faultCode != NoFault {
        return;
      }
      if !motionBusy {
        return;
      }
      if now - lastHeartbeat > watchdogMs {
        OnTrigger(HostWatchdog, "no host heartbeat");
      }
    }
  }

  /** Until it is cleared, a latched fault keeps its first cause. */
  lemma {:induction false} FirstCauseKept(s: Supervisor, es: seq<Event>)
    requires s.fault != NoFault
    requires forall k :: 0 <= k < |es| ==> !es[k].Clear?
    ensures Run(s, es).fault == s.fault
    decreases |es|
  {
    if es != [] {
      assert !es[0].Clear?;
      FirstCauseKept(Step(s, es[0]), es[1..]);
    }
  }

  /** A stretch in which motion runs continuously, the host says nothing and nobody clears: ticks are at
      most TICK_MS apart, the previous one having been at `previous`. Other faults may be triggered. */
  ghost predicate SilentMotion(es: seq<Event>, previous: int) {
    if es == [] then true
    else
      match es[0]
      case Tick(now, busy) => busy && previous <= now <= previous + TICK_MS && SilentMotion(es[1..], now)
      case Trigger(_, code) => code != NoFault && SilentMotion(es[1..], previous)
      case _ => false
  }

  function LastTick(es: seq<Event>, previous: int): int {
    if es == [] then previous
    else LastTick(es[1..], if es[0].Tick? then es[0].now else previous)
  }

  /** Continuous motion without a heartbeat latches a fault no later than one tick after the watchdog
      period: by the event that does it, no tick later than that has happened. */
  lemma {:induction false} SilenceIsCaught(s: Supervisor, es: seq<Event>, previous: int) returns (k: nat)
    requires s.fault == NoFault && previous <= s.lastHeartbeat + s.watchdogMs
    requires SilentMotion(es, previous)
    requires LastTick(es, previous) > s.lastHeartbeat + s.watchdogMs
    ensures 0 < k <= |es| && Run(s, es[..k]).fault != NoFault
    ensures LastTick(es[..k], previous) <= s.lastHeartbeat + s.watchdogMs + TICK_MS
    ensures Run(s, es).fault == Run(s, es[..k]).fault
    ensures (forall j :: 0 <= j < |es| ==> es[j].Tick?) ==> Run(s, es).fault == HostWatchdog
    decreases |es|
  {
    var t := Step(s, es[0]);
    var p := if es[0].Tick? then es[0].now else previous;
    if t.fault != NoFault {
      k := 1;
      assert es[..1][1..] == [] && es[..1][0] == es[0];
      assert Run(s, es[..1]) == Run(t, es[..1][1..]) == t;
      assert LastTick(es[..1], previous) == LastTick(es[..1][1..], p) == p;
      SilentNeverClears(es[1..], p);
      FirstCauseKept(t, es[1..]);
    } else {
      var j := SilenceIsCaught(t, es[1..], p);
      k := j + 1;
      assert es[..k][1..] == es[1..][..j];
    }
  }

  lemma {:induction false} SilentNeverClears(es: seq<Event>, previous: int)
    requires SilentMotion(es, previous)
    ensures forall k :: 0 <= k < |es| ==> !es[k].Clear?
  {
    if es != [] {
      SilentNeverClears(es[1..], if es[0].Tick? then es[0].now else previous);
      assert forall k :: 0 < k < |es| ==> es[k] == es[1..][k - 1];
    }
  }

  /** Event times never go back, starting no earlier than `from` and ending by `end`. */
  ghost predicate Ordered(es: seq<Event>, from: int, end: int) {
    if es == [] then from <= end else from <= es[0].now && Ordered(es[1..], es[0].now, end)
  }

  /** From the heartbeat at `last` to the end of observation, no gap between heartbeats exceeds `limit`.
      Clearing a fault counts as a heartbeat. */
  ghost predicate GapsWithin(es: seq<Event>, last: int, end: int, limit: int) {
    if es == [] then end - last <= limit
    else if es[0].Heartbeat? || es[0].Clear? then
      es[0].now - last <= limit && GapsWithin(es[1..], es[0].now, end, limit)
    else GapsWithin(es[1..], last, end, limit)
  }

  lemma {:induction false} NextHeartbeatIsNear(es: seq<Event>, now: int, last: int, end: int, limit: int)
    requires Ordered(es, now, end) && GapsWithin(es, last, end, limit)
    ensures now - last <= limit
  {
    if es != [] && !es[0].Heartbeat? && !es[0].Clear? {
      NextHeartbeatIsNear(es[1..], es[0].now, last, end, limit);
    }
  }

  /** The watchdog never trips while heartbeats keep coming: unless something else triggers it, there is no
      host-watchdog fault at the end of such a run, however the ticks fall and whatever the motors do. */
  lemma {:induction false} NoFalseTrip(s: Supervisor, es: seq<Event>, from: int, end: int)
    requires s.fault != HostWatchdog
    requires Ordered(es, from, end) && GapsWithin(es, s.lastHeartbeat, end, s.watchdogMs)
    requires forall k :: 0 <= k < |es| && es[k].Trigger? ==> es[k].code != HostWatchdog
    ensures Run(s, es).fault != HostWatchdog
    decreases |es|
  {
    if es != [] {
      if es[0].Tick? {
        NextHeartbeatIsNear(es[1..], es[0].now, s.lastHeartbeat, end, s.watchdogMs);
      }
      assert es[0].Trigger? ==> es[0].code != HostWatchdog;
      NoFalseTrip(Step(s, es[0]), es[1..], es[0].now, end);
    }
  }

  /** Whatever is triggered first is the cause on record, from any state without a fault, and through any later events
      until it is cleared. */
  lemma FirstCauseWins(s: Supervisor, now: int, code: FaultCode, es: seq<Event>)
    requires s.fault == NoFault && code != NoFault
    requires forall k :: 0 <= k < |es| ==> !es[k].Clear?
    ensures Run(s, [Trigger(now, code)] + es).fault == code
  {
    assert ([Trigger(now, code)] + es)[1..] == es;
    FirstCauseKept(Step(s, Trigger(now, code)), es);
  }

  /** Clearing re-arms the watchdog: the fault is gone, the silence so far is forgiven, and from then on silent motion
      is caught again as at the start. */
  lemma ClearRearms(s: Supervisor, now: int, es: seq<Event>)
    requires s.watchdogMs >= 0 && SilentMotion(es, now)
    requires forall j :: 0 <= j < |es| ==> es[j].Tick?
    ensures var end := Run(s, [Clear(now)] + es);
            end.fault == if LastTick(es, now) > now + s.watchdogMs then HostWatchdog else NoFault
  {
    assert ([Clear(now)] + es)[1..] == es;
    var t := Step(s, Clear(now));
    if LastTick(es, now) > now + s.watchdogMs {
      var k := SilenceIsCaught(t, es, now);
    } else {
      NotYet(t, es, now);
    }
  }

  lemma {:induction false} NotYet(s: Supervisor, es: seq<Event>, previous: int)
    requires s.fault == NoFault && SilentMotion(es, previous)
    requires LastTick(es, previous) <= s.lastHeartbeat + s.watchdogMs
    requires forall j :: 0 <= j < |es| ==> es[j].Tick?
    ensures Run(s, es) == s
    decreases |es|
  {
    if es != [] {
      assert es[0].Tick?;
      LastTickIsLate(es[1..], es[0].now);
      NotYet(Step(s, es[0]), es[1..], es[0].now);
    }
  }

  lemma {:induction false} LastTickIsLate(es: seq<Event>, previous: int)
    requires SilentMotion(es, previous)
    ensures LastTick(es, previous) >= previous
  {
    if es != [] {
      LastTickIsLate(es[1..], if es[0].Tick? then es[0].now else previous);
    }
  }
}
