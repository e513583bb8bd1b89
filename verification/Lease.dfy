/** The operator lease, as the two Go services run it.

    Every operation carries the clock readings it makes, in order: `t1` when it drops an expired lease
    before deciding, `t2` when it computes a new expiry, `t3` when it drops expired leases once more on the
    way out. User names are taken as already trimmed. */
module Lease {
  import opened Options

  /** 120 seconds, in nanoseconds. */
  const LEASE_NS: int := 120 * 1000000000

  datatype Lease = Lease(owner: string, expiry: Option<int>)

  const Unclaimed := Lease("", None)

  /** `Command.body` is what happens after the lease check: whether the command itself succeeded. */
  datatype Kind =
    | Acquire
    | Release
    | Command(empty: bool, connect: bool, body: bool)
    | UpdateMotionConfig
    | Look

  datatype Op = Op(kind: Kind, user: string, t1: int, t2: int, t3: int)
  {
    /** The operations that ask for the lease. */
    predicate Gated() {
      || kind.Acquire? || kind.Release? || kind.UpdateMotionConfig?
      || (kind.Command? && !kind.empty && !kind.connect)
    }
    predicate ClockOk() { t1 <= t2 <= t3 }
  }

  // ---------------------------------------------------------------- the shared object

  function ClearExpired(l: Lease, now: int): Lease {
    if l.expiry.Some? && l.expiry.value <= now then Unclaimed else l
  }

  /** What the lease check of an operation decides. */
  function Decide(l: Lease, op: Op): bool {
    if op.user == "" then false
    else
      var c := ClearExpired(l, op.t1);
      if op.kind.Acquire? then c.owner == "" || c.owner == op.user else c.owner == op.user
  }

  /** The lease after the check alone: an accepted operation renews, a rejected one only tidies up. Acquiring
      without a name returns before looking at the clock. */
  function Check(l: Lease, op: Op): Lease {
    if op.kind.Acquire? && op.user == "" then l
    else if Decide(l, op) then Lease(op.user, Some(op.t2 + LEASE_NS))
    else ClearExpired(l, op.t1)
  }

  /** The lease as both services hold it; each method decides, and leaves the fields, as the functions above say. */
  class LeaseHolder {
    var controlOwner: string
    var controlLeaseExpiry: Option<int>

    function View(): Lease
      reads this
    {
      Lease(controlOwner, controlLeaseExpiry)
    }

    constructor ()
      ensures View() == Unclaimed
    {
      controlOwner, controlLeaseExpiry := "", None;
    }

    method ClearExpiredLease(now: int)
      modifies this
      ensures View() == ClearExpired(old(View()), now)
    {
      if controlLeaseExpiry == None {
        return;
      }
      if !(controlLeaseExpiry.value > now) {
        controlOwner := "";
        controlLeaseExpiry := None;
      }
    }

    method RequireControl(op: Op) returns (ok: bool)
      requires !op.kind.Acquire?
      modifies this
      ensures ok == Decide(old(View()), op) && View() == Check(old(View()), op)
    {
      ClearExpiredLease(op.t1);
      if op.user == "" {
        return false;
      }
      if controlOwner != op.user {
        return false;
      }
      controlLeaseExpiry := Some(op.t2 + LEASE_NS);
      ok := true;
    }

    method AcquireControl(op: Op) returns (ok: bool)
      requires op.kind.Acquire?
      modifies this
      ensures ok == Decide(old(View()), op) && View() == Check(old(View()), op)
    {
      if op.user == "" {
        return false;
      }
      ClearExpiredLease(op.t1);
      if controlOwner != "" && controlOwner != op.user {
        return false;
      }
      controlOwner := op.user;
      controlLeaseExpiry := Some(op.t2 + LEASE_NS);
      ok := true;
    }
  }

  // ---------------------------------------------------------------- the two services

  /** The in-process simulator: any command that runs to the end tidies up again, even `connect`. */
  function SimStep(l: Lease, op: Op): Lease {
    match op.kind
    case Acquire => var c := Check(l, op); if Decide(l, op) then ClearExpired(c, op.t3) else c
    case Release => if Decide(l, op) then Unclaimed else Check(l, op)
    case Command(empty, connect, body) =>
      if empty then l
      else if connect then ClearExpired(l, op.t3)
      else
        var c := Check(l, op);
        if Decide(l, op) && body then ClearExpired(c, op.t3) else c
    case UpdateMotionConfig => Check(l, op)
    case Look => ClearExpired(l, op.t3)
  }

  /** The hardware-backed service: commands go to the daemon and leave the lease alone afterwards. */
  function EdgeStep(l: Lease, op: Op): Lease {
    match op.kind
    case Acquire => var c := Check(l, op); if Decide(l, op) then ClearExpired(c, op.t3) else c
    case Release => if Decide(l, op) then Unclaimed else Check(l, op)
    case Command(empty, connect, _) => if empty || connect then l else Check(l, op)
    case UpdateMotionConfig => Check(l, op)
    case Look => ClearExpired(l, op.t3)
  }

  // ---------------------------------------------------------------- the eager lease

  /** Who really holds control at `now`: nobody, from the instant the lease runs out. */
  function OwnerAt(l: Lease, now: int): string {
    if l.expiry.Some? && l.expiry.value > now then l.owner else ""
  }

  /** The specification: decisions look only at who holds control at that instant. */
  predicate EagerAccepts(l: Lease, op: Op) {
    var owner := OwnerAt(l, op.t1);
    op.user != "" && (owner == op.user || (op.kind.Acquire? && owner == ""))
  }

  function EagerStep(l: Lease, op: Op): Lease {
    if !op.Gated() || !EagerAccepts(l, op) then l
    else if op.kind.Release? then Unclaimed
    else Lease(op.user, Some(op.t2 + LEASE_NS))
  }

  ghost predicate WellFormed(l: Lease) { l.owner == "" <==> l.expiry.None? }

  /** From `now` on, the two leases name the same holder at every instant. */
  ghost predicate SameHolder(a: Lease, b: Lease, now: int) {
    forall t :: t >= now ==> OwnerAt(a, t) == OwnerAt(b, t)
  }

  lemma ClearingIsInvisible(l: Lease, now: int)
    requires WellFormed(l)
    ensures WellFormed(ClearExpired(l, now)) && SameHolder(l, ClearExpired(l, now), now)
  {
  }

  lemma DecisionIsEager(l: Lease, e: Lease, op: Op)
    requires WellFormed(l) && SameHolder(l, e, op.t1)
    ensures Decide(l, op) == EagerAccepts(e, op)
  {
    assert OwnerAt(l, op.t1) == OwnerAt(e, op.t1);
  }

  /** Either service keeps naming the eager holder. */
  lemma ServicesFollowEager(l: Lease, e: Lease, op: Op)
    requires WellFormed(l) && WellFormed(e) && op.ClockOk() && SameHolder(l, e, op.t1)
    ensures WellFormed(SimStep(l, op)) && WellFormed(EdgeStep(l, op)) && WellFormed(EagerStep(e, op))
    ensures SameHolder(SimStep(l, op), EagerStep(e, op), op.t3)
    ensures SameHolder(EdgeStep(l, op), EagerStep(e, op), op.t3)
  {
    DecisionIsEager(l, e, op);
    ClearingIsInvisible(l, op.t1);
    ClearingIsInvisible(l, op.t3);
    ClearingIsInvisible(Check(l, op), op.t3);
    if op.kind.Look? || (op.kind.Command? && (op.kind.empty || op.kind.connect)) || !EagerAccepts(e, op) {
      forall t | t >= op.t3 ensures OwnerAt(SimStep(l, op), t) == OwnerAt(EagerStep(e, op), t)
                                    && OwnerAt(EdgeStep(l, op), t) == OwnerAt(EagerStep(e, op), t) {
        assert OwnerAt(l, t) == OwnerAt(e, t);
      }
    }
  }

  // ---------------------------------------------------------------- traces

  /** Clock readings never go back, within an operation or between operations. */
  ghost predicate Clocked(ops: seq<Op>, now: int)
    decreases |ops|
  {
    if ops == [] then true
    else ops[0].ClockOk() && now <= ops[0].t1 && Clocked(ops[1..], ops[0].t3)
  }

  function SimDecisions(l: Lease, ops: seq<Op>): (r: seq<bool>)
    ensures |r| == |ops|
    decreases |ops|
  {
    if ops == [] then [] else [ops[0].Gated() && Decide(l, ops[0])] + SimDecisions(SimStep(l, ops[0]), ops[1..])
  }

  function EdgeDecisions(l: Lease, ops: seq<Op>): (r: seq<bool>)
    ensures |r| == |ops|
    decreases |ops|
  {
    if ops == [] then [] else [ops[0].Gated() && Decide(l, ops[0])] + EdgeDecisions(EdgeStep(l, ops[0]), ops[1..])
  }

  function EagerDecisions(l: Lease, ops: seq<Op>): (r: seq<bool>)
    ensures |r| == |ops|
    decreases |ops|
  {
    if ops == [] then []
    else [ops[0].Gated() && EagerAccepts(l, ops[0])] + EagerDecisions(EagerStep(l, ops[0]), ops[1..])
  }

  lemma {:induction false} DecisionsFromSameHolder(s: Lease, d: Lease, e: Lease, ops: seq<Op>, now: int)
    requires WellFormed(s) && WellFormed(d) && WellFormed(e) && Clocked(ops, now)
    requires SameHolder(s, e, now) && SameHolder(d, e, now)
    ensures SimDecisions(s, ops) == EagerDecisions(e, ops) == EdgeDecisions(d, ops)
    decreases |ops|
  {
    if ops != [] {
      var op := ops[0];
      DecisionIsEager(s, e, op);
      DecisionIsEager(d, e, op);
      ServicesFollowEager(s, e, op);
      ServicesFollowEager(d, e, op);
      DecisionsFromSameHolder(SimStep(s, op), EdgeStep(d, op), EagerStep(e, op), ops[1..], op.t3);
    }
  }

  /** Lazy expiry decides like an eager lease, and the two services agree on every decision of every trace. */
  lemma ServicesAgree(ops: seq<Op>, now: int)
    requires Clocked(ops, now)
    ensures SimDecisions(Unclaimed, ops) == EagerDecisions(Unclaimed, ops) == EdgeDecisions(Unclaimed, ops)
  {
    DecisionsFromSameHolder(Unclaimed, Unclaimed, Unclaimed, ops, now);
  }

  // ---------------------------------------------------------------- exclusivity

  function StateAt(l: Lease, ops: seq<Op>, n: nat): Lease
    requires n <= |ops|
  {
    if n == 0 then l else EagerStep(StateAt(l, ops, n - 1), ops[n - 1])
  }

  lemma {:induction false} StateAtTail(l: Lease, ops: seq<Op>, n: nat)
    requires 0 < n <= |ops|
    ensures StateAt(l, ops, n) == StateAt(EagerStep(l, ops[0]), ops[1..], n - 1)
  {
    if n > 1 {
      StateAtTail(l, ops, n - 1);
    }
  }

  lemma {:induction false} DecisionAt(l: Lease, ops: seq<Op>, n: nat)
    requires n < |ops|
    ensures EagerDecisions(l, ops)[n] == (ops[n].Gated() && EagerAccepts(StateAt(l, ops, n), ops[n]))
    decreases n
  {
    if n > 0 {
      DecisionAt(EagerStep(l, ops[0]), ops[1..], n - 1);
      StateAtTail(l, ops, n);
    }
  }

  lemma {:induction false} ClockMonotone(ops: seq<Op>, now: int, m: nat, n: nat)
    requires Clocked(ops, now) && m <= n < |ops|
    ensures now <= ops[m].t1 <= ops[n].t1
    decreases n
  {
    if m > 0 {
      ClockMonotone(ops[1..], ops[0].t3, m - 1, n - 1);
    } else if n > 0 {
      ClockMonotone(ops[1..], ops[0].t3, 0, n - 1);
    }
  }

  /** Operation `k` is an accepted action of `user`. */
  predicate Acted(l: Lease, ops: seq<Op>, k: nat, user: string)
    requires k < |ops|
  {
    EagerDecisions(l, ops)[k] && ops[k].user == user
  }

  lemma {:induction false} LastAct(l: Lease, ops: seq<Op>, user: string, i: nat, j: nat) returns (k: nat)
    requires i < j <= |ops| && Acted(l, ops, i, user)
    ensures i <= k < j && Acted(l, ops, k, user)
    ensures forall m :: k < m < j ==> !Acted(l, ops, m, user)
    decreases j
  {
    if Acted(l, ops, j - 1, user) {
      k := j - 1;
    } else {
      k := LastAct(l, ops, user, i, j - 1);
    }
  }

  /** After an accepted action of `u` that is not a release, and until `u` acts again, the lease is `u`'s for
      as long as the clock stays short of its expiry. */
  lemma {:induction false} LeaseHolds(l: Lease, ops: seq<Op>, now: int, u: string, k: nat, m: nat, j: nat)
    requires Clocked(ops, now) && k < m <= j < |ops|
    requires Acted(l, ops, k, u) && !ops[k].kind.Release?
    requires forall i :: k < i < j ==> !Acted(l, ops, i, u)
    requires ops[j].t1 < ops[k].t2 + LEASE_NS
    ensures u != "" && StateAt(l, ops, m) == Lease(u, Some(ops[k].t2 + LEASE_NS))
    decreases m
  {
    DecisionAt(l, ops, k);
    if m > k + 1 {
      LeaseHolds(l, ops, now, u, k, m - 1, j);
      ClockMonotone(ops, now, m - 1, j);
      DecisionAt(l, ops, m - 1);
      assert !Acted(l, ops, m - 1, u);
    }
  }

  /** Lease exclusivity, for the decisions of the simulator and so (`ServicesAgree`) of both services. If an
      action of u is accepted and later one of v, a different user, then in between u released, or the
      lease period passed with no accepted action of u. */
  lemma Exclusivity(ops: seq<Op>, now: int, i: nat, j: nat) returns (k: nat)
    requires Clocked(ops, now) && i < j < |ops| && ops[i].user != ops[j].user
    requires SimDecisions(Unclaimed, ops)[i] && SimDecisions(Unclaimed, ops)[j]
    ensures i <= k < j && SimDecisions(Unclaimed, ops)[k] && ops[k].user == ops[i].user
    ensures ops[k].kind.Release? ||
            (&& ops[j].t1 >= ops[k].t2 + LEASE_NS
             && forall m :: k < m < j ==> !(SimDecisions(Unclaimed, ops)[m] && ops[m].user == ops[i].user))
  {
    ServicesAgree(ops, now);
    var u := ops[i].user;
    k := LastAct(Unclaimed, ops, u, i, j);
    if !ops[k].kind.Release? && ops[j].t1 < ops[k].t2 + LEASE_NS {
      LeaseHolds(Unclaimed, ops, now, u, k, j, j);
      DecisionAt(Unclaimed, ops, j);
    }
    forall m | k < m < j ensures !(SimDecisions(Unclaimed, ops)[m] && ops[m].user == u) {
      assert !Acted(Unclaimed, ops, m, u);
    }
  }

  // ---------------------------------------------------------------- exactly who is let in

  /** What the lease is before operation `n`: what the last accepted operation `k` before it has made of it, or
      unclaimed when there is none. */
  lemma {:induction false} LastAcceptedDecides(ops: seq<Op>, n: nat) returns (k: int)
    requires n <= |ops|
    ensures -1 <= k < n && (k >= 0 ==> EagerDecisions(Unclaimed, ops)[k])
    ensures forall m :: k < m < n ==> !EagerDecisions(Unclaimed, ops)[m]
    ensures StateAt(Unclaimed, ops, n) ==
            if k < 0 || ops[k].kind.Release? then Unclaimed else Lease(ops[k].user, Some(ops[k].t2 + LEASE_NS))
    ensures k >= 0 ==> ops[k].user != ""
  {
    if n == 0 {
      k := -1;
    } else {
      DecisionAt(Unclaimed, ops, n - 1);
      if EagerDecisions(Unclaimed, ops)[n - 1] {
        k := n - 1;
      } else {
        k := LastAcceptedDecides(ops, n - 1);
      }
    }
  }

  /** `u` holds the lease when operation `j` comes: the last accepted operation before it was `u`'s, was no release, and
      is less than 120 seconds old. */
  ghost predicate HeldBy(ops: seq<Op>, j: nat, u: string)
    requires j < |ops|
  {
    exists k :: 0 <= k < j && SimDecisions(Unclaimed, ops)[k] && ops[k].user == u && !ops[k].kind.Release?
                && ops[j].t1 < ops[k].t2 + 120000000000
                && forall m :: k < m < j ==> !SimDecisions(Unclaimed, ops)[m]
  }

  /** Exactly who is let in, for both services and every trace: an operation that asks for the lease is accepted if and
      only if its user is named and holds the lease, or acquires it while nobody does. */
  lemma AcceptedIff(ops: seq<Op>, now: int, j: nat)
    requires Clocked(ops, now) && j < |ops|
    ensures SimDecisions(Unclaimed, ops)[j]
            <==> ops[j].Gated() && ops[j].user != ""
                 && (HeldBy(ops, j, ops[j].user) || (ops[j].kind.Acquire? && forall u :: !HeldBy(ops, j, u)))
  {
    ServicesAgree(ops, now);
    DecisionAt(Unclaimed, ops, j);
    var k := LastAcceptedDecides(ops, j);
    var state := StateAt(Unclaimed, ops, j);
    if state != Unclaimed && ops[j].t1 < ops[k].t2 + LEASE_NS {
      assert HeldBy(ops, j, ops[k].user);
    }
    forall u | HeldBy(ops, j, u) ensures u == OwnerAt(state, ops[j].t1) != "" {
      var i :| 0 <= i < j && SimDecisions(Unclaimed, ops)[i] && ops[i].user == u && !ops[i].kind.Release?
               && ops[j].t1 < ops[i].t2 + 120000000000 && forall m :: i < m < j ==> !SimDecisions(Unclaimed, ops)[m];
      assert i == k;
    }
  }
}
