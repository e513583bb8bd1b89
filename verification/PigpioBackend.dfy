/** The last stage: cutting the record list into pigpio waves and chaining them, and who owns the waves. */
module PigpioBackend {
  import opened Arithmetic
  import opened Timeline
  import opened Waveform

  const WAVE_MAX_PULSES: nat := 11500
  const MAX_WAVE_CHUNKS: nat := 8

  /** The records of the waves `ids`, in chain order. */
  function ChainOf(loaded: map<int, seq<GpioPulse>>, ids: seq<int>): seq<GpioPulse>
    requires forall id :: id in ids ==> id in loaded
  {
    if ids == [] then []
    else
      var last := ids[|ids| - 1];
      assert last in ids;
      ChainOf(loaded, ids[..|ids| - 1]) + loaded[last]
  }

  lemma {:induction false} ChainFrame(a: map<int, seq<GpioPulse>>, b: map<int, seq<GpioPulse>>, ids: seq<int>)
    requires forall id :: id in ids ==> id in a && id in b && a[id] == b[id]
    ensures ChainOf(a, ids) == ChainOf(b, ids)
  {
    if ids != [] {
      assert ids[|ids| - 1] in ids;
      ChainFrame(a, b, ids[..|ids| - 1]);
    }
  }

  /** The loaded waves are exactly `ids`, each held once. */
  ghost predicate Holds(loaded: map<int, seq<GpioPulse>>, ids: seq<int>) {
    && (forall id :: id in loaded <==> id in ids)
    && (forall i, j :: 0 <= i < j < |ids| ==> ids[i] != ids[j])
  }

  ghost predicate SmallWaves(loaded: map<int, seq<GpioPulse>>) {
    forall id :: id in loaded ==> 0 < |loaded[id]| <= WAVE_MAX_PULSES
  }

  lemma HoldOneMore(loaded: map<int, seq<GpioPulse>>, ids: seq<int>, id: int, chunk: seq<GpioPulse>)
    requires Holds(loaded, ids) && id !in loaded
    ensures Holds(loaded[id := chunk], ids + [id])
    ensures ChainOf(loaded[id := chunk], ids + [id]) == ChainOf(loaded, ids) + chunk
    ensures SmallWaves(loaded) && 0 < |chunk| <= WAVE_MAX_PULSES ==> SmallWaves(loaded[id := chunk])
  {
    ChainFrame(loaded, loaded[id := chunk], ids);
    assert (ids + [id])[..|ids|] == ids;
  }

  // ---------------------------------------------------------------- how far a transmission gets

  /** One turn of the finishing loop's sleep: how many records the DMA engine sends meanwhile, and whether
      another thread then calls AbortMotion. */
  datatype Turn = Turn(progress: nat, abort: bool)

  /** How many of `total` records are out when the loop ends, `sent` being out when it starts: the transmitter
      goes on through the turns until an abort stops it, and drains when no more turns disturb it. */
  function SentBy(total: nat, sent: nat, turns: seq<Turn>): (n: nat)
    requires sent <= total
    ensures sent <= n <= total
    decreases |turns|
  {
    if turns == [] then total
    else
      var now := Min(total, sent + turns[0].progress);
      if turns[0].abort then now else SentBy(total, now, turns[1..])
  }

  /** Some abort comes while fewer than `n` records are out. */
  ghost predicate AbortBefore(n: int, turns: seq<Turn>)
    decreases |turns|
  {
    && turns != []
    && ((turns[0].abort && turns[0].progress < n) || AbortBefore(n - turns[0].progress, turns[1..]))
  }

  /** The first `n` records get out if and only if no abort comes before they have. */
  lemma {:induction false} SentAtLeastIff(total: nat, sent: nat, turns: seq<Turn>, n: nat)
    requires sent <= total && n <= total
    ensures SentBy(total, sent, turns) >= n <==> !AbortBefore(n - sent, turns)
    decreases |turns|
  {
    if turns != [] {
      var now := Min(total, sent + turns[0].progress);
      NothingBeforeZero(n - sent - turns[0].progress, turns[1..]);
      NothingBeforeZero(n - now, turns[1..]);
      SentAtLeastIff(total, now, turns[1..], n);
    }
  }

  lemma {:induction false} NothingBeforeZero(n: int, turns: seq<Turn>)
    ensures n <= 0 ==> !AbortBefore(n, turns)
    decreases |turns|
  {
    if turns != [] {
      NothingBeforeZero(n - turns[0].progress, turns[1..]);
    }
  }

  /** The library calls that can be refused. */
  datatype WaveCall = AddGeneric | Create | Chain

  /** The pigpio library: loaded waves by id, records added but not yet made into a wave, and the
      transmitter: the chain handed to it, how many of its records are out, and whether it is still at work.
      `chains` counts the chains it has accepted. Every call that can fail fails nondeterministically, and `refusals`
      records those that did. */
  class Pigpio {
    var loaded: map<int, seq<GpioPulse>>
    var pending: seq<GpioPulse>
    var transmitted: seq<GpioPulse>
    var sent: nat
    var txBusy: bool
    ghost var chains: nat
    ghost var refusals: seq<WaveCall>

    ghost predicate TxValid()
      reads this
    {
      sent <= |transmitted| && (txBusy ==> sent < |transmitted|)
    }

    constructor ()
      ensures loaded == map[] && pending == [] && transmitted == [] && sent == 0 && !txBusy && chains == 0
      ensures refusals == []
    {
      loaded, pending, transmitted, sent, txBusy, chains, refusals := map[], [], [], 0, false, 0, [];
    }

    method WaveClear()
      modifies this`loaded, this`pending
      ensures loaded == map[] && pending == []
    {
      loaded, pending := map[], [];
    }

    method WaveAddGeneric(records: seq<GpioPulse>) returns (ok: bool)
      modifies this`pending, this`refusals
      ensures pending == if ok then old(pending) + records else old(pending)
      ensures refusals == old(refusals) + if ok then [] else [AddGeneric]
    {
      ok := *;
      if ok {
        pending := pending + records;
      } else {
        refusals := refusals + [AddGeneric];
      }
    }

    /** Negative when the control blocks are exhausted; otherwise an id not in use. */
    method WaveCreate() returns (id: int)
      modifies this`loaded, this`pending, this`refusals
      ensures refusals == old(refusals) + if id < 0 then [Create] else []
      ensures id < 0 ==> loaded == old(loaded) && pending == old(pending)
      ensures id >= 0 ==> id !in old(loaded) && loaded == old(loaded)[id := old(pending)] && pending == []
    {
      id := *;
      if id < 0 || id in loaded {
        refusals := refusals + [Create];
        return -1;
      }
      loaded, pending := loaded[id := pending], [];
    }

    method WaveDelete(id: int)
      modifies this`loaded
      ensures loaded == old(loaded) - {id}
    {
      loaded := loaded - {id};
    }

    method WaveChain(ids: seq<int>) returns (ok: bool)
      requires forall id :: id in ids ==> id in loaded
      modifies this`transmitted, this`sent, this`txBusy, this`chains, this`refusals
      ensures refusals == old(refusals) + if ok then [] else [Chain]
      ensures ok ==> transmitted == ChainOf(loaded, ids) && sent == 0 && (txBusy <==> transmitted != [])
                     && chains == old(chains) + 1
      ensures !ok ==> transmitted == old(transmitted) && sent == old(sent)
                      && txBusy == old(txBusy) && chains == old(chains)
    {
      ok := *;
      if ok {
        transmitted := ChainOf(loaded, ids);
        sent := 0;
        txBusy := transmitted != [];
        chains := chains + 1;
      } else {
        refusals := refusals + [Chain];
      }
    }

    /** Time passes: up to `n` more records go out. */
    method Advance(n: nat)
      requires TxValid() && txBusy
      modifies this`sent, this`txBusy
      ensures TxValid() && sent == Min(|transmitted|, old(sent) + n) && (txBusy <==> sent < |transmitted|)
    {
      sent := Min(|transmitted|, sent + n);
      txBusy := sent < |transmitted|;
    }

    /** Freezes the transmission where it is. */
    method WaveTxStop()
      modifies this`txBusy
      ensures !txBusy
    {
      txBusy := false;
    }
  }

  datatype Failure =
    | None
    | NotInitialized
    | WaveformTooLarge(total: nat)
    | OutOfWaveMemory(chunk: nat, chunks: nat, total: nat)
    | ChainFailed

  /** What the error of a launch of `total` records says: exactly which call was refused, or that the list is longer
      than the waves there may be can hold. Without either, the launch succeeds. */
  ghost predicate Explained(failure: Failure, before: seq<WaveCall>, after: seq<WaveCall>, total: nat) {
    match failure
    case None => after == before && total <= MAX_WAVE_CHUNKS * WAVE_MAX_PULSES
    case NotInitialized => after == before
    case WaveformTooLarge(n) =>
      n == total && (after == before + [AddGeneric] || (after == before && total > MAX_WAVE_CHUNKS * WAVE_MAX_PULSES))
    case OutOfWaveMemory(chunk, chunks, n) =>
      && n == total && after == before + [Create]
      && 1 <= chunk <= chunks && (chunks - 1) * WAVE_MAX_PULSES < total <= chunks * WAVE_MAX_PULSES
    case ChainFailed => after == before + [Chain]
  }

  class PigpioGpioBackend {
    const driver: Pigpio
    const pins: StepPins
    var initialized: bool
    var busy: bool
    var abortRequested: bool
    var activeWaveIds: seq<int>
    var yawForward: bool    // last direction written to each DIR pin
    var pitchForward: bool

    /** No wave is leaked: the loaded waves are exactly the active ones, each owned once; and a busy
        transmitter has records left. */
    ghost predicate Valid()
      reads this, driver
    {
      Holds(driver.loaded, activeWaveIds) && driver.TxValid() && (driver.txBusy ==> initialized)
    }

    constructor (driver: Pigpio, pins: StepPins)
      requires driver.loaded == map[] && driver.TxValid()
      ensures Valid() && this.driver == driver && this.pins == pins && activeWaveIds == []
    {
      this.driver, this.pins := driver, pins;
      initialized, busy, abortRequested, activeWaveIds := true, false, false, [];
      yawForward, pitchForward := false, false;
    }

    method DeleteWaves(ids: seq<int>)
      modifies driver`loaded
      ensures driver.loaded == old(driver.loaded) - (set id | id in ids)
      ensures Holds(old(driver.loaded), ids) ==> driver.loaded == map[]
    {
      for i := 0 to |ids|
        invariant driver.loaded == old(driver.loaded) - (set id | id in ids[..i])
      {
        driver.WaveDelete(ids[i]);
        assert ids[..i + 1] == ids[..i] + [ids[i]];
      }
      assert ids[..|ids|] == ids;
      if Holds(old(driver.loaded), ids) {
        assert forall id :: id !in driver.loaded;
      }
    }

    /** Deletes what an earlier waveform left behind and forgets earlier aborts. */
    method Reap()
      requires Valid()
      modifies this`activeWaveIds, this`abortRequested, this`busy, driver`loaded
      ensures Valid() && activeWaveIds == [] && driver.loaded == map[] && !abortRequested && !busy
    {
      DeleteWaves(activeWaveIds);
      activeWaveIds := [];
      abortRequested := false;
      busy := false;
    }

    /** One pass of the chunk loop: queue the records, then turn them into a wave. On either failure
        every wave created so far is deleted. */
    method LoadOne(chunk: seq<GpioPulse>, ids: seq<int>, total: nat) returns (id: int, failure: Failure)
      requires driver.pending == [] && 0 < |chunk| <= WAVE_MAX_PULSES
      requires Holds(driver.loaded, ids) && SmallWaves(driver.loaded)
      requires WAVE_MAX_PULSES * |ids| + |chunk| <= total
      modifies driver`loaded, driver`pending, driver`refusals
      ensures failure == None ==> driver.refusals == old(driver.refusals)
      ensures failure != None && |ids| < MAX_WAVE_CHUNKS ==>
                && driver.refusals != old(driver.refusals)
                && Explained(failure, old(driver.refusals), driver.refusals, total)
      ensures failure != None && |ids| >= MAX_WAVE_CHUNKS ==>
                failure == WaveformTooLarge(total)
                && (driver.refusals == old(driver.refusals) || driver.refusals == old(driver.refusals) + [AddGeneric])
      ensures failure != NotInitialized && failure != ChainFailed
      ensures failure != None ==> driver.loaded == map[]
      ensures failure == None ==>
                && |ids| < MAX_WAVE_CHUNKS && driver.pending == []
                && Holds(driver.loaded, ids + [id]) && SmallWaves(driver.loaded)
                && ChainOf(driver.loaded, ids + [id]) == ChainOf(old(driver.loaded), ids) + chunk
    {
      var added := driver.WaveAddGeneric(chunk);
      assert added ==> driver.pending == chunk;
      if !added || |ids| >= MAX_WAVE_CHUNKS {
        DeleteWaves(ids);
        return -1, WaveformTooLarge(total);
      }
      id := driver.WaveCreate();
      if id < 0 {
        DeleteWaves(ids);
        ChunksNeeded(|ids|, total);
        return id, OutOfWaveMemory(|ids| + 1, (total + WAVE_MAX_PULSES - 1) / WAVE_MAX_PULSES, total);
      }
      assert driver.loaded == old(driver.loaded)[id := chunk];
      HoldOneMore(old(driver.loaded), ids, id, chunk);
      failure := None;
    }

    /** The chunk number in the error is within the number of chunks. */
    lemma ChunksNeeded(loaded: nat, total: nat)
      requires WAVE_MAX_PULSES * loaded < total
      ensures var chunks := (total + WAVE_MAX_PULSES - 1) / WAVE_MAX_PULSES;
              loaded + 1 <= chunks && (chunks - 1) * WAVE_MAX_PULSES < total <= chunks * WAVE_MAX_PULSES
    {
    }

    /** Loads `recs` as a list of waves, or loads nothing. */
    method LoadChunks(recs: seq<GpioPulse>) returns (ids: seq<int>, failure: Failure)
      modifies driver`loaded, driver`pending, driver`refusals
      ensures failure != NotInitialized && failure != ChainFailed
      ensures Explained(failure, old(driver.refusals), driver.refusals, |recs|)
      ensures failure != None ==> driver.loaded == map[] && ids == []
      ensures failure == None ==>
                && |ids| <= MAX_WAVE_CHUNKS
                && Holds(driver.loaded, ids) && SmallWaves(driver.loaded)
                && ChainOf(driver.loaded, ids) == recs
    {
      driver.WaveClear();
      ids := [];
      var total := |recs|;
      var off, end := 0, 0;
      while off < total
        invariant off == WAVE_MAX_PULSES * |ids| && |ids| <= MAX_WAVE_CHUNKS
        invariant end == (if off < total then off else total)
        invariant driver.pending == [] && driver.refusals == old(driver.refusals)
        invariant Holds(driver.loaded, ids) && SmallWaves(driver.loaded)
        invariant ChainOf(driver.loaded, ids) == recs[..end]
      {
        end := if total - off < WAVE_MAX_PULSES then total else off + WAVE_MAX_PULSES;
        var id: int;
        id, failure := LoadOne(recs[off..end], ids, total);
        if failure != None {
          return [], failure;
        }
        assert recs[..off] + recs[off..end] == recs[..end];
        ids := ids + [id];
        off := off + WAVE_MAX_PULSES;
      }
      assert recs[..total] == recs;
      failure := None;
    }

    /** Launches a waveform. Success leaves the whole record list, cut into at most 8 waves of at most
        11500 records, loaded and handed to the transmitter; every failure leaves no wave loaded. */
    method StartMotionWaveform(plan: WaveformPlan) returns (failure: Failure, ghost events: seq<Timed<Edge>>)
      requires Valid()
      modifies this, driver
      ensures Valid() && initialized == old(initialized)
      ensures failure == NotInitialized <==> !initialized
      ensures failure == NotInitialized ==> activeWaveIds == old(activeWaveIds) && driver.loaded == old(driver.loaded)
      ensures initialized ==> !abortRequested && Coalesced(pins.RawEvents(plan.pulses), events)
      ensures initialized && plan.pulses != [] ==> yawForward == plan.yawForward && pitchForward == plan.pitchForward
      ensures failure != None && initialized ==> activeWaveIds == [] && driver.loaded == map[] && !busy
      ensures failure == None ==>
                && |activeWaveIds| <= MAX_WAVE_CHUNKS
                && SmallWaves(driver.loaded)
                && ChainOf(driver.loaded, activeWaveIds) == Records(events)
                && (events != [] ==> busy && driver.transmitted == Records(events) && driver.sent == 0 && driver.txBusy)
                && (events == [] ==> !busy && activeWaveIds == [])
      ensures failure != None || events == [] ==>
                && driver.transmitted == old(driver.transmitted) && driver.sent == old(driver.sent)
                && driver.txBusy == old(driver.txBusy)
      ensures driver.chains == old(driver.chains) + if failure == None && events != [] then 1 else 0
      ensures Explained(failure, old(driver.refusals), driver.refusals, |events|)
    {
      events := [];
      if !initialized {
        failure := NotInitialized;
        return;
      }
      Reap();
      if plan.pulses == [] {
        return None, [];
      }
      yawForward, pitchForward := plan.yawForward, plan.pitchForward;
      var built := BuildEvents(pins, plan.pulses);
      events := built;
      if built == [] {
        failure := None;
        return;
      }
      var recs := EventsToPigpioPulses(built);
      hide ChainOf, SmallWaves, Holds, Coalesced, Explained, StepPins.RawEvents;
      failure := Transmit(recs);
    }

    /** The second half of a launch: load the records as waves and hand the chain to the transmitter. */
    method Transmit(recs: seq<GpioPulse>) returns (failure: Failure)
      requires Valid() && initialized && recs != [] && activeWaveIds == [] && !busy
      modifies this`busy, this`activeWaveIds, driver
      ensures Valid() && failure != NotInitialized
      ensures failure != None ==>
                && activeWaveIds == [] && driver.loaded == map[] && !busy
                && driver.transmitted == old(driver.transmitted) && driver.sent == old(driver.sent)
                && driver.txBusy == old(driver.txBusy)
                && driver.chains == old(driver.chains)
      ensures failure == None ==>
                && busy && |activeWaveIds| <= MAX_WAVE_CHUNKS && SmallWaves(driver.loaded)
                && ChainOf(driver.loaded, activeWaveIds) == recs
                && driver.transmitted == recs && driver.sent == 0 && driver.txBusy
                && driver.chains == old(driver.chains) + 1
      ensures Explained(failure, old(driver.refusals), driver.refusals, |recs|)
    {
      var ids: seq<int>;
      ids, failure := LoadChunks(recs);
      if failure != None {
        return;
      }
      busy := true;
      var chained := driver.WaveChain(ids);
      if !chained {
        busy := false;
        DeleteWaves(ids);
        failure := ChainFailed;
        return;
      }
      activeWaveIds := ids;
    }

    /** Waits for the transmitter, or stops it when an abort is asked for, then frees every wave. `turns` is what
        goes on meanwhile; it decides how many records are out in the end. */
    method FinishMotionWaveform(turns: seq<Turn>)
      requires Valid()
      modifies this, driver
      ensures Valid() && initialized == old(initialized)
      ensures activeWaveIds == [] && driver.loaded == map[] && !busy
      ensures !driver.txBusy && driver.transmitted == old(driver.transmitted) && driver.chains == old(driver.chains)
      ensures driver.refusals == old(driver.refusals)
      ensures driver.sent == if !old(driver.txBusy) || old(abortRequested) then old(driver.sent)
                             else SentBy(|driver.transmitted|, old(driver.sent), turns)
    {
      var rest := turns;
      while driver.txBusy
        invariant Valid() && activeWaveIds == old(activeWaveIds) && initialized == old(initialized)
        invariant driver.transmitted == old(driver.transmitted) && driver.chains == old(driver.chains)
        invariant driver.refusals == old(driver.refusals)
        invariant driver.txBusy ==> old(driver.txBusy) && abortRequested == old(abortRequested)
        invariant (if old(driver.txBusy) && !old(abortRequested) then
                       SentBy(|driver.transmitted|, old(driver.sent), turns)
                   else old(driver.sent))
                  == if driver.txBusy && !abortRequested then SentBy(|driver.transmitted|, driver.sent, rest)
                     else driver.sent
        decreases |rest| + if driver.txBusy then 1 else 0
      {
        if abortRequested {
          driver.WaveTxStop();
          break;
        }
        if rest == [] {
          driver.Advance(|driver.transmitted|);
        } else {
          driver.Advance(rest[0].progress);
          if rest[0].abort {
            AbortMotion();  // on another thread
          }
          rest := rest[1..];
        }
      }
      DeleteWaves(activeWaveIds);
      activeWaveIds := [];
      busy := false;
    }

    method IsMotionBusy() returns (b: bool)
      ensures b == (initialized && driver.txBusy)
    {
      b := initialized && driver.txBusy;
    }

    /** Stops the transmitter where it is. */
    method AbortMotion()
      requires Valid()
      modifies this`abortRequested, driver`txBusy
      ensures Valid()
      ensures initialized ==> abortRequested && !driver.txBusy
      ensures !initialized ==> abortRequested == old(abortRequested) && driver.txBusy == old(driver.txBusy)
    {
      if !initialized {
        return;
      }
      abortRequested := true;
      if driver.txBusy {
        driver.WaveTxStop();
      }
    }

    /** Blocking form. No wave survives it; and it reports success for every waveform it has launched, however
        early an abort stopped it: what got out is decided by `turns` alone. */
    method RunMotionWaveform(plan: WaveformPlan, turns: seq<Turn>)
      returns (failure: Failure, ghost events: seq<Timed<Edge>>)
      requires Valid()
      modifies this, driver
      ensures Valid() && initialized == old(initialized)
      ensures initialized ==> activeWaveIds == [] && driver.loaded == map[] && !busy
      ensures failure == NotInitialized <==> !initialized
      ensures initialized ==> Coalesced(pins.RawEvents(plan.pulses), events)
      ensures driver.chains == old(driver.chains) + if failure == None && events != [] then 1 else 0
      ensures failure == None && events != [] ==>
                driver.transmitted == Records(events) && driver.sent == SentBy(|events|, 0, turns)
      ensures Explained(failure, old(driver.refusals), driver.refusals, |events|)
      ensures failure == None ==> !driver.txBusy
      ensures failure != None ==>
                && driver.transmitted == old(driver.transmitted) && driver.sent == old(driver.sent)
                && driver.txBusy == old(driver.txBusy)
      ensures failure == None && events == [] && !old(driver.txBusy) ==> driver.sent == old(driver.sent)
    {
      failure, events := StartMotionWaveform(plan);
      if failure != None {
        return;
      }
      FinishMotionWaveform(turns);
    }
  }
}
