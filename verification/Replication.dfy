/** Incremental replication of the scan grid to any number of browser clients.

    A client polls on a timer without waiting for the previous answer, so several polls of one client may
    be in flight; requests and responses of one client are processed in order, and any of them may be lost.
    `base`, `origin` and `snap` are history: the server state a client last copied, the copy its cursor was
    taken from, and the server state a response was computed from. */
module Replication {
  import opened Options
  import opened Timeline
  import opened ScanGrid

  // ---------------------------------------------------------------- the client

  datatype Client = Client(grid: Option<seq<real>>, w: nat, h: nat, generation: nat, since: nat)

  const FreshClient := Client(None, 0, 0, 0, 0)

  /** The typed-array stores `grid[idx[k]] = val[k]` for k in order; out-of-range stores are ignored. */
  function Overlay(cells: seq<real>, idx: seq<nat>, val: seq<real>): (r: seq<real>)
    requires |idx| == |val|
    ensures |r| == |cells|
  {
    if idx == [] then cells
    else
      var n := |idx| - 1;
      var r := Overlay(cells, idx[..n], val[..n]);
      if idx[n] < |r| then r[idx[n] := val[n]] else r
  }

  function ApplyUpdate(c: Client, gu: GridUpdate): Client
    requires |gu.idx| == |gu.val|
  {
    if gu.generation != c.generation || gu.width != c.w || gu.height != c.h || c.grid.None? then
      Client(Some(Overlay(Fill(gu.width * gu.height, -1.0), gu.idx, gu.val)),
             gu.width, gu.height, gu.generation, gu.version)
    else if gu.full then
      c.(grid := Some(Overlay(Fill(|c.grid.value|, -1.0), gu.idx, gu.val)), since := gu.version)
    else
      c.(grid := Some(Overlay(c.grid.value, gu.idx, gu.val)), since := gu.version)
  }

  /** The browser's state: a typed array, null until the first update, and the cursor fields. */
  class GridClient {
    var grid: array?<real>
    var gridW: nat
    var gridH: nat
    var gridGeneration: nat
    var gridSince: nat

    function View(): Client
      reads this, grid
    {
      Client(if grid == null then None else Some(grid[..]), gridW, gridH, gridGeneration, gridSince)
    }

    constructor ()
      ensures View() == FreshClient
    {
      grid, gridW, gridH, gridGeneration, gridSince := null, 0, 0, 0, 0;
    }

    method StoreCells(cells: array<real>, gu: GridUpdate)
      requires |gu.idx| == |gu.val|
      modifies cells
      ensures cells[..] == Overlay(old(cells[..]), gu.idx, gu.val)
    {
      for k := 0 to |gu.idx|
        invariant cells[..] == Overlay(old(cells[..]), gu.idx[..k], gu.val[..k])
      {
        assert gu.idx[..k + 1][..k] == gu.idx[..k] && gu.val[..k + 1][..k] == gu.val[..k];
        if gu.idx[k] < cells.Length {
          cells[gu.idx[k]] := gu.val[k];
        }
      }
      assert gu.idx[..|gu.idx|] == gu.idx && gu.val[..|gu.idx|] == gu.val;
    }

    method ApplyGridUpdate(gu: GridUpdate)
      requires |gu.idx| == |gu.val|
      modifies this, grid
      ensures View() == ApplyUpdate(old(View()), gu)
    {
      var sizeChanged := gu.width != gridW || gu.height != gridH;
      if gu.generation != gridGeneration || sizeChanged || grid == null {
        gridGeneration := gu.generation;
        gridW := gu.width;
        gridH := gu.height;
        var cells := new real[gu.width * gu.height](_ => -1.0);
        assert cells[..] == Fill(gu.width * gu.height, -1.0);
        StoreCells(cells, gu);
        grid := cells;
        gridSince := gu.version;
        return;
      }
      if gu.full {
        forall i | 0 <= i < grid.Length {
          grid[i] := -1.0;
        }
        assert grid[..] == Fill(grid.Length, -1.0);
        StoreCells(grid, gu);
        gridSince := gu.version;
        return;
      }
      StoreCells(grid, gu);
      gridSince := gu.version;
    }
  }

  // ---------------------------------------------------------------- one application

  /** The client's copy, size, generation and version are those of `s`. */
  ghost predicate Mirrors(c: Client, s: Store) {
    c == Client(Some(s.cells), s.w, s.h, s.generation, s.version)
  }

  lemma {:induction false} OverlayAt(cells: seq<real>, idx: seq<nat>, val: seq<real>, i: nat)
    requires |idx| == |val| && Ascending(idx) && i < |cells|
    ensures i !in idx ==> Overlay(cells, idx, val)[i] == cells[i]
    ensures forall k :: 0 <= k < |idx| && idx[k] == i ==> Overlay(cells, idx, val)[i] == val[k]
  {
    if idx != [] {
      var n := |idx| - 1;
      OverlayAt(cells, idx[..n], val[..n], i);
      assert idx == idx[..n] + [idx[n]];
    }
  }

  /** Overlaying the update of `snap` on `cells` gives `snap`'s cells, provided the unshipped cells agree already. */
  lemma OverlayGivesSnapshot(cells: seq<real>, snap: Store, since: nat, gen: nat, gu: GridUpdate)
    requires snap.Good() && IsUpdate(snap, since, gen, gu) && |cells| == |snap.cells|
    requires forall i :: 0 <= i < |cells| && !Ships(snap, since, gu.full, i) ==> cells[i] == snap.cells[i]
    ensures Overlay(cells, gu.idx, gu.val) == snap.cells
  {
    var r := Overlay(cells, gu.idx, gu.val);
    forall i | 0 <= i < |r| ensures r[i] == snap.cells[i] {
      OverlayAt(cells, gu.idx, gu.val, i);
      if Ships(snap, since, gu.full, i) {
        var k :| 0 <= k < |gu.idx| && gu.idx[k] == i;
      }
    }
  }

  /** What an update is laid over: a blank grid after a rebuild or for a full update, otherwise the client's copy. */
  function UnderUpdate(c: Client, gu: GridUpdate): seq<real> {
    if gu.generation != c.generation || gu.width != c.w || gu.height != c.h || c.grid.None? then
      Fill(gu.width * gu.height, -1.0)
    else if gu.full then Fill(|c.grid.value|, -1.0)
    else c.grid.value
  }

  /** Exactly when applying an update computed from `snap` copies `snap`, whatever the client holds and whatever
      cursor it was computed for: every cell in which the two differ is one that is shipped. */
  lemma ApplyCopiesIff(c: Client, snap: Store, since: nat, gen: nat, gu: GridUpdate)
    requires snap.Good() && IsUpdate(snap, since, gen, gu)
    requires c.grid.Some? ==> |c.grid.value| == c.w * c.h
    ensures |UnderUpdate(c, gu)| == |snap.cells|
    ensures Mirrors(ApplyUpdate(c, gu), snap)
            <==> forall i :: 0 <= i < |snap.cells| && UnderUpdate(c, gu)[i] != snap.cells[i] ==>
                   Ships(snap, since, gu.full, i)
  {
    var under := UnderUpdate(c, gu);
    var r := Overlay(under, gu.idx, gu.val);
    if forall i :: 0 <= i < |snap.cells| && under[i] != snap.cells[i] ==> Ships(snap, since, gu.full, i) {
      OverlayGivesSnapshot(under, snap, since, gen, gu);
    } else {
      var i :| 0 <= i < |snap.cells| && under[i] != snap.cells[i] && !Ships(snap, since, gu.full, i);
      OverlayAt(under, gu.idx, gu.val, i);
      assert r[i] == under[i];
    }
  }

  /** A poll carries the cursor the client had; a fresh client's cursor is (0, 0). */
  ghost predicate CursorOf(origin: Option<Store>, since: nat, gen: nat) {
    match origin
    case None => since == 0 && gen == 0
    case Some(s) => since == s.version && gen == s.generation
  }

  /** Optional order: nothing precedes everything. */
  ghost predicate NotAfter(a: Option<Store>, b: Option<Store>) {
    a.Some? ==> b.Some? && a.value.Good() && b.value.Good() && Later(a.value, b.value)
  }

  ghost predicate Copies(c: Client, base: Option<Store>) {
    match base
    case None => c == FreshClient
    case Some(s) => s.Good() && Mirrors(c, s)
  }

  /** The heart of the protocol. The client copies `base`; the cursor was taken from an earlier copy `origin`;
      the response was computed from `snap`, no earlier than `base`. Then applying it copies `snap` exactly:
      a rebuild or a full update replaces everything, and a delta, though computed for an older cursor than
      the client has now, still covers every cell in which `base` and `snap` differ. */
  lemma ApplyCopiesSnapshot(c: Client, base: Option<Store>, origin: Option<Store>, snap: Store,
                            since: nat, gen: nat, gu: GridUpdate)
    requires Copies(c, base) && snap.Good()
    requires NotAfter(origin, base) && NotAfter(base, Some(snap))
    requires CursorOf(origin, since, gen) && IsUpdate(snap, since, gen, gu)
    ensures Mirrors(ApplyUpdate(c, gu), snap)
  {
    if gu.generation != c.generation || gu.width != c.w || gu.height != c.h || c.grid.None? {
      assert gu.full by {
        if origin.Some? {
          LaterTransitive(origin.value, base.value, snap);
        }
      }
      OverlayGivesSnapshot(Fill(gu.width * gu.height, -1.0), snap, since, gen, gu);
    } else {
      assert base.Some? && base.value.generation == snap.generation;
      if gu.full {
        OverlayGivesSnapshot(Fill(|c.grid.value|, -1.0), snap, since, gen, gu);
      } else {
        assert origin.Some? && origin.value.version <= base.value.version;
        OverlayGivesSnapshot(base.value.cells, snap, since, gen, gu);
      }
    }
  }

  // ---------------------------------------------------------------- the system

  datatype Poll = Poll(since: nat, gen: nat, origin: Option<Store>)
  datatype Response = Response(gu: GridUpdate, poll: Poll, snap: Store)
  datatype Link = Link(client: Client, base: Option<Store>, polls: seq<Poll>, responses: seq<Response>)
  datatype System = System(server: Store, links: seq<Link>)

  datatype Event =
    | Mark(x: int, y: int, v: real)
    | Clear
    | Rebuild(width: int, height: int)
    | Join
    | SendPoll(k: nat)
    | Serve(k: nat, gu: GridUpdate)
    | Deliver(k: nat)
    | LosePoll(k: nat, j: nat)
    | LoseResponse(k: nat, j: nat)

  const FreshLink := Link(FreshClient, None, [], [])

  function Without<T>(s: seq<T>, j: nat): (r: seq<T>)
    requires j < |s|
  {
    s[..j] + s[j + 1..]
  }

  ghost predicate Possible(y: System, e: Event)
    requires y.server.WellSized()
  {
    match e
    case Mark(_, _, v) => v >= 0.0
    case Clear => true
    case Rebuild(_, _) => true
    case Join => true
    case SendPoll(k) => k < |y.links|
    case Serve(k, gu) => k < |y.links| && y.links[k].polls != []
                         && IsUpdate(y.server, y.links[k].polls[0].since, y.links[k].polls[0].gen, gu)
    case Deliver(k) => k < |y.links| && y.links[k].responses != []
                       && |y.links[k].responses[0].gu.idx| == |y.links[k].responses[0].gu.val|
    case LosePoll(k, j) => k < |y.links| && j < |y.links[k].polls|
    case LoseResponse(k, j) => k < |y.links| && j < |y.links[k].responses|
  }

  ghost function StepLink(l: Link, server: Store, e: Event): Link
    requires server.WellSized()
    requires match e
             case Serve(_, _) => l.polls != []
             case Deliver(_) => l.responses != [] && |l.responses[0].gu.idx| == |l.responses[0].gu.val|
             case LosePoll(_, j) => j < |l.polls|
             case LoseResponse(_, j) => j < |l.responses|
             case _ => true
  {
    match e
    case SendPoll(_) => l.(polls := l.polls + [Poll(l.client.since, l.client.generation, l.base)])
    case Serve(_, gu) => l.(polls := l.polls[1..], responses := l.responses + [Response(gu, l.polls[0], server)])
    case Deliver(_) =>
      Link(ApplyUpdate(l.client, l.responses[0].gu), Some(l.responses[0].snap), l.polls, l.responses[1..])
    case LosePoll(_, j) => l.(polls := Without(l.polls, j))
    case LoseResponse(_, j) => l.(responses := Without(l.responses, j))
    case _ => l
  }

  ghost function Step(y: System, e: Event): System
    requires y.server.WellSized() && Possible(y, e)
  {
    match e
    case Mark(x, yy, v) => y.(server := Marked(y.server, x, yy, v))
    case Clear => y.(server := Cleared(y.server))
    case Rebuild(w, h) => y.(server := Rebuilt(y.server, w, h))
    case Join => y.(links := y.links + [FreshLink])
    case SendPoll(k) => y.(links := y.links[k := StepLink(y.links[k], y.server, e)])
    case Serve(k, _) => y.(links := y.links[k := StepLink(y.links[k], y.server, e)])
    case Deliver(k) => y.(links := y.links[k := StepLink(y.links[k], y.server, e)])
    case LosePoll(k, _) => y.(links := y.links[k := StepLink(y.links[k], y.server, e)])
    case LoseResponse(k, _) => y.(links := y.links[k := StepLink(y.links[k], y.server, e)])
  }

  // ---------------------------------------------------------------- the invariant

  ghost predicate PollOk(l: Link, p: Poll) {
    CursorOf(p.origin, p.since, p.gen) && NotAfter(p.origin, l.base)
  }

  ghost predicate ResponseOk(l: Link, server: Store, r: Response)
    requires server.WellSized()
  {
    && PollOk(l, r.poll) && r.snap.Good() && Later(r.snap, server)
    && NotAfter(l.base, Some(r.snap))
    && IsUpdate(r.snap, r.poll.since, r.poll.gen, r.gu)
  }

  /** Everything in flight on one link lies between the client's copy and the server, in order. */
  ghost predicate LinkOk(l: Link, server: Store)
    requires server.Good()
  {
    && Copies(l.client, l.base)
    && NotAfter(l.base, Some(server))
    && (forall j :: 0 <= j < |l.polls| ==> PollOk(l, l.polls[j]))
    && (forall j :: 0 <= j < |l.responses| ==> ResponseOk(l, server, l.responses[j]))
    && (forall i, j :: 0 <= i < j < |l.responses| ==> Later(l.responses[i].snap, l.responses[j].snap))
  }

  ghost predicate Inv(y: System) {
    y.server.Good() && forall k :: 0 <= k < |y.links| ==> LinkOk(y.links[k], y.server)
  }

  lemma ServerMovesOn(l: Link, server: Store, server': Store)
    requires server.Good() && server'.Good() && LinkOk(l, server) && Later(server, server')
    ensures LinkOk(l, server')
  {
    if l.base.Some? {
      LaterTransitive(l.base.value, server, server');
    }
    forall j | 0 <= j < |l.responses| ensures ResponseOk(l, server', l.responses[j]) {
      LaterTransitive(l.responses[j].snap, server, server');
    }
  }

  lemma LosingKeepsLink(l: Link, server: Store, j: nat)
    requires server.Good() && LinkOk(l, server)
    ensures j < |l.polls| ==> LinkOk(l.(polls := Without(l.polls, j)), server)
    ensures j < |l.responses| ==> LinkOk(l.(responses := Without(l.responses, j)), server)
  {
    if j < |l.polls| {
      var l' := l.(polls := Without(l.polls, j));
      forall i | 0 <= i < |l'.polls| ensures PollOk(l', l'.polls[i]) {
        assert PollOk(l, l.polls[if i < j then i else i + 1]);
      }
    }
    if j < |l.responses| {
      var l' := l.(responses := Without(l.responses, j));
      forall i | 0 <= i < |l'.responses| ensures ResponseOk(l', server, l'.responses[i]) {
        assert ResponseOk(l, server, l.responses[if i < j then i else i + 1]);
      }
    }
  }

  lemma ServingKeepsLink(l: Link, server: Store, gu: GridUpdate)
    requires server.Good() && LinkOk(l, server) && l.polls != []
    requires IsUpdate(server, l.polls[0].since, l.polls[0].gen, gu)
    ensures LinkOk(StepLink(l, server, Serve(0, gu)), server)
  {
    var l' := StepLink(l, server, Serve(0, gu));
    assert PollOk(l, l.polls[0]);
    var n := |l.responses|;
    forall j | 0 <= j < n + 1 ensures ResponseOk(l', server, l'.responses[j]) {
      if j < n {
        assert ResponseOk(l, server, l.responses[j]);
      }
    }
    forall i, j | 0 <= i < j < n + 1 ensures Later(l'.responses[i].snap, l'.responses[j].snap) {
      assert ResponseOk(l, server, l.responses[i]);
    }
  }

  /** Delivery copies the snapshot, and the rest of the traffic stays in order around the new copy. */
  lemma DeliveryKeepsLink(l: Link, server: Store)
    requires server.Good() && LinkOk(l, server) && l.responses != []
    requires |l.responses[0].gu.idx| == |l.responses[0].gu.val|
    ensures Mirrors(StepLink(l, server, Deliver(0)).client, l.responses[0].snap)
    ensures LinkOk(StepLink(l, server, Deliver(0)), server)
  {
    var r := l.responses[0];
    assert ResponseOk(l, server, r);
    ApplyCopiesSnapshot(l.client, l.base, r.poll.origin, r.snap, r.poll.since, r.poll.gen, r.gu);
    var l' := StepLink(l, server, Deliver(0));
    forall p | PollOk(l, p) ensures PollOk(l', p) {
      if p.origin.Some? {
        LaterTransitive(p.origin.value, l.base.value, r.snap);
      }
    }
    forall j | 0 <= j < |l'.polls| ensures PollOk(l', l'.polls[j]) {
      assert PollOk(l, l.polls[j]);
    }
    forall j | 0 <= j < |l'.responses| ensures ResponseOk(l', server, l'.responses[j]) {
      assert ResponseOk(l, server, l.responses[j + 1]);
      assert PollOk(l, l.responses[j + 1].poll);
    }
  }

  lemma StepKeepsInv(y: System, e: Event)
    requires Inv(y) && Possible(y, e)
    ensures Inv(Step(y, e))
  {
    match e
    case Mark(x, yy, v) =>
      MutationsAreLater(y.server, x, yy, v, 0, 0);
      AllLinksMoveOn(y, Marked(y.server, x, yy, v));
    case Clear =>
      MutationsAreLater(y.server, -1, -1, 0.0, 0, 0);
      AllLinksMoveOn(y, Cleared(y.server));
    case Rebuild(w, h) =>
      MutationsAreLater(y.server, -1, -1, 0.0, w, h);
      AllLinksMoveOn(y, Rebuilt(y.server, w, h));
    case Join =>
      assert LinkOk(FreshLink, y.server);
    case SendPoll(k) =>
      PollingKeepsLink(y.links[k], y.server);
    case Serve(k, gu) =>
      ServingKeepsLink(y.links[k], y.server, gu);
    case Deliver(k) =>
      DeliveryKeepsLink(y.links[k], y.server);
    case LosePoll(k, j) =>
      LosingKeepsLink(y.links[k], y.server, j);
    case LoseResponse(k, j) =>
      LosingKeepsLink(y.links[k], y.server, j);
  }

  lemma PollingKeepsLink(l: Link, server: Store)
    requires server.Good() && LinkOk(l, server)
    ensures LinkOk(StepLink(l, server, SendPoll(0)), server)
  {
    var l' := StepLink(l, server, SendPoll(0));
    if l.base.Some? {
      assert Later(l.base.value, l.base.value);
    }
    forall j | 0 <= j < |l'.polls| ensures PollOk(l', l'.polls[j]) {
      if j < |l.polls| {
        assert PollOk(l, l.polls[j]);
      }
    }
    forall j | 0 <= j < |l'.responses| ensures ResponseOk(l', server, l'.responses[j]) {
      assert ResponseOk(l, server, l.responses[j]);
    }
  }

  lemma AllLinksMoveOn(y: System, server': Store)
    requires Inv(y) && server'.Good() && Later(y.server, server')
    ensures Inv(y.(server := server'))
  {
    forall k | 0 <= k < |y.links| ensures LinkOk(y.links[k], server') {
      ServerMovesOn(y.links[k], y.server, server');
    }
  }

  /** `y'` is reachable from `y` through `es`. */
  ghost predicate Runs(y: System, es: seq<Event>, y': System)
    decreases |es|
  {
    if es == [] then y == y'
    else y.server.WellSized() && Possible(y, es[0]) && Runs(Step(y, es[0]), es[1..], y')
  }

  lemma {:induction false} InvOverRuns(y: System, es: seq<Event>, y': System)
    requires Inv(y) && Runs(y, es, y')
    ensures Inv(y')
    decreases |es|
  {
    if es != [] {
      StepKeepsInv(y, es[0]);
      InvOverRuns(Step(y, es[0]), es[1..], y');
    }
  }

  /** Exact replication. After any run from a server with no clients, delivering any pending response to any
      client leaves that client's grid, size, generation and version equal to the server's at the moment
      the response was computed. */
  lemma ExactReplication(server: Store, es: seq<Event>, y: System, k: nat)
    requires server.Good() && Runs(System(server, []), es, y)
    requires k < |y.links| && y.links[k].responses != []
    ensures Inv(y) && Possible(y, Deliver(k))
    ensures Mirrors(Step(y, Deliver(k)).links[k].client, y.links[k].responses[0].snap)
  {
    InvOverRuns(System(server, []), es, y);
    var r := y.links[k].responses[0];
    assert ResponseOk(y.links[k], y.server, r);
    DeliveryKeepsLink(y.links[k], y.server);
  }

  /** Nothing of this client is under way. */
  predicate Quiet(y: System, k: nat) {
    k < |y.links| && y.links[k].polls == [] && y.links[k].responses == []
  }

  /** One round of client `k`: it polls, is answered and takes the answer in. */
  ghost function Round(y: System, k: nat, gu: GridUpdate): System
    requires y.server.WellSized() && Quiet(y, k)
    requires IsUpdate(y.server, y.links[k].client.since, y.links[k].client.generation, gu)
  {
    Step(Step(Step(y, SendPoll(k)), Serve(k, gu)), Deliver(k))
  }

  /** Catching up: after any run, whatever was lost, one undisturbed poll brings a client with nothing under way to the
      server's very state, and leaves server and other clients alone. */
  lemma CatchesUp(server: Store, es: seq<Event>, y: System, k: nat, gu: GridUpdate)
    requires server.Good() && Runs(System(server, []), es, y) && Quiet(y, k)
    requires y.server.WellSized()
    requires IsUpdate(y.server, y.links[k].client.since, y.links[k].client.generation, gu)
    ensures var t := Round(y, k, gu);
            && t.server == y.server && |t.links| == |y.links| && Quiet(t, k) && Mirrors(t.links[k].client, y.server)
            && forall j :: 0 <= j < |y.links| && j != k ==> t.links[j] == y.links[j]
  {
    InvOverRuns(System(server, []), es, y);
    var a := Step(y, SendPoll(k));
    StepKeepsInv(y, SendPoll(k));
    var b := Step(a, Serve(k, gu));
    StepKeepsInv(a, Serve(k, gu));
    assert LinkOk(b.links[k], b.server) && b.links[k].responses[0].gu == gu;
    hide LinkOk, IsUpdate, Store.Good, Runs;
    DeliveryKeepsLink(b.links[k], b.server);
  }

  /** End to end: a measurement marked in the grid is on the screen after the next poll of a client with nothing under
      way, at its cell and with its value. */
  lemma MarkReachesClient(server: Store, es: seq<Event>, y: System, k: nat, x: nat, row: nat, v: real, gu: GridUpdate)
    requires server.Good() && Runs(System(server, []), es, y) && y.server.WellSized()
    requires x < y.server.w && row < y.server.h && v >= 0.0
    requires var m := Step(y, Mark(x, row, v));
             Quiet(m, k) && IsUpdate(m.server, m.links[k].client.since, m.links[k].client.generation, gu)
    ensures var c := Round(Step(y, Mark(x, row, v)), k, gu).links[k].client;
            && c.grid.Some? && c.w == y.server.w && c.h == y.server.h
            && 0 <= row * c.w + x < |c.grid.value| && c.grid.value[row * c.w + x] == v
  {
    var m := Step(y, Mark(x, row, v));
    RunsThen(System(server, []), es, y, Mark(x, row, v));
    CatchesUp(server, es + [Mark(x, row, v)], m, k, gu);
    MarkedCell(y.server, x, row, v, x, row);
  }

  /** A wipe or a resize is on the screen after the next such poll: an empty grid of the server's size. */
  lemma WipeReachesClient(server: Store, es: seq<Event>, y: System, k: nat, e: Event, gu: GridUpdate)
    requires server.Good() && Runs(System(server, []), es, y) && y.server.WellSized() && (e.Clear? || e.Rebuild?)
    requires var m := Step(y, e);
             Quiet(m, k) && IsUpdate(m.server, m.links[k].client.since, m.links[k].client.generation, gu)
    ensures var c := Round(Step(y, e), k, gu).links[k].client;
            && c.grid.Some? && (forall i :: 0 <= i < |c.grid.value| ==> c.grid.value[i] == -1.0)
            && |c.grid.value| == c.w * c.h
            && (e.Clear? ==> c.w == y.server.w && c.h == y.server.h)
            && (e.Rebuild? && e.width >= 0 && e.height >= 0 ==> c.w == e.width && c.h == e.height)
  {
    RunsThen(System(server, []), es, y, e);
    hide Runs, Inv;
    CatchesUp(server, es + [e], Step(y, e), k, gu);
  }

  /** Anybody may join at any time, and sees the server's state after one poll. */
  lemma NewcomerCatchesUp(server: Store, es: seq<Event>, y: System, gu: GridUpdate)
    requires server.Good() && Runs(System(server, []), es, y) && y.server.WellSized()
    requires IsUpdate(y.server, 0, 0, gu)
    ensures var m, k := Step(y, Join), |y.links|;
            && |m.links| == k + 1 && m.links[..k] == y.links && Quiet(m, k)
            && IsUpdate(m.server, m.links[k].client.since, m.links[k].client.generation, gu)
            && Mirrors(Round(m, k, gu).links[k].client, y.server)
  {
    RunsThen(System(server, []), es, y, Join);
    hide Runs, Inv, IsUpdate;
    CatchesUp(server, es + [Join], Step(y, Join), |y.links|, gu);
  }

  lemma {:induction false} RunsThen(y: System, es: seq<Event>, y': System, e: Event)
    requires Runs(y, es, y') && y'.server.WellSized() && Possible(y', e)
    ensures Runs(y, es + [e], Step(y', e))
    decreases |es|
  {
    if es == [] {
      assert ([] + [e])[1..] == [];
    } else {
      assert (es + [e])[1..] == es[1..] + [e];
      RunsThen(Step(y, es[0]), es[1..], y', e);
    }
  }

  /** In-order delivery is really needed. Take two polls sent from the same copy `s`, answered before and
      after a second cell was first filled. Applied the wrong way round, they leave the client claiming the
      earlier version while holding a cell that version does not have. */
  lemma ReorderingBreaksCopy(c: Client, s: Store, m1: CellMark, m2: CellMark, r1: GridUpdate, r2: GridUpdate)
    requires s.Good() && Mirrors(c, s) && m1.v >= 0.0 && m2.v >= 0.0
    requires InGrid(s, m1.x, m1.y) && InGrid(s, m2.x, m2.y)
    requires (m1.x, m1.y) != (m2.x, m2.y)
    requires 0 <= m2.y * s.w + m2.x < |s.cells| && s.cells[m2.y * s.w + m2.x] < 0.0
    requires IsUpdate(Marked(s, m1.x, m1.y, m1.v), s.version, s.generation, r1)
    requires IsUpdate(Marked(Marked(s, m1.x, m1.y, m1.v), m2.x, m2.y, m2.v), s.version, s.generation, r2)
    ensures ApplyUpdate(ApplyUpdate(c, r2), r1).since == r1.version
    ensures !Mirrors(ApplyUpdate(ApplyUpdate(c, r2), r1), Marked(s, m1.x, m1.y, m1.v))
  {
    var s1 := Marked(s, m1.x, m1.y, m1.v);
    var s2 := Marked(s1, m2.x, m2.y, m2.v);
    var i := m2.y * s.w + m2.x;
    IndexInRange(m1.x, m1.y, s.w, s.h);
    IndexInRange(m2.x, m2.y, s.w, s.h);
    if m1.y * s.w + m1.x == i {
      IndexInjective(m1.x, m1.y, m2.x, m2.y, s.w);
    }
    assert s1.cells[i] < 0.0 && s2.cells[i] == m2.v;
    assert Ships(s2, s.version, false, i) && i in r2.idx;
    assert !Ships(s1, s.version, false, i) && i !in r1.idx;
    var k :| 0 <= k < |r2.idx| && r2.idx[k] == i;
    OverlayAt(s.cells, r2.idx, r2.val, i);
    var held := ApplyUpdate(c, r2).grid.value;
    assert held[i] == m2.v;
    OverlayAt(held, r1.idx, r1.val, i);
  }
}
