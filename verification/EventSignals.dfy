/**
 * One event object under any interleaving of signallers and of threads registering handlers. A signaller
 * appends an event under the object's spinlock and then runs every handler; a new handler is run once. To
 * run a handler is to walk the events for it while its Running bit is held. The mutex that keeps signallers apart
 * is left to EventMutex: what is said of every interleaving here does not need it.
 */
module EventSignals {
  import opened Lanes
  import opened Options

  /** A thread between two shared accesses. `back` says whether a walk returns to a signaller's loop. */
  datatype Pc =
    | Idle
    | Appending
    | Registering
    | Begin
    | Loop(h: Ptr)
    | Try(handler: nat, back: bool)
    | Read(handler: nat, back: bool)
    | Walk(handler: nat, at: Ptr, log: seq<nat>, back: bool)
    | Reset(handler: nat, log: seq<nat>, back: bool)

  /** The events list, the handlers list, each thread's place in either, the Running bits, and the threads. */
  datatype State = State(
    ev: Lane, evPh: seq<Phase>, hd: Lane, hdPh: seq<Phase>, running: seq<bool>, pcs: seq<Pc>)

  datatype Action = StartSignal | StartRegister | EventAccess(a: Access) | HandlerAccess(a: Access) | Go

  function Boot(threads: nat): State {
    var out := seq(threads, _ => Out);
    State(Empty(), out, Empty(), out, [], seq(threads, _ => Idle))
  }

  /** The handler a thread is walking the events for. */
  predicate WalksFor(pc: Pc, h: nat) {
    (pc.Read? || pc.Walk? || pc.Reset?) && pc.handler == h
  }

  predicate Possible(s: State, t: nat, x: Action)
    requires t < |s.pcs| == |s.evPh| == |s.hdPh|
  {
    match x
    case StartSignal => s.pcs[t].Idle?
    case StartRegister => s.pcs[t].Idle?
    case EventAccess(a) =>
      s.pcs[t].Appending? && a in {Allocate, Take, Link, SetLast, Drop} && Enabled(s.ev, s.evPh[t], a)
    case HandlerAccess(a) =>
      s.pcs[t].Registering? && a in {Enter, AllocateInside, Link, SetLast, Drop} && Enabled(s.hd, s.hdPh[t], a)
    case Go => !(s.pcs[t].Idle? || s.pcs[t].Appending? || s.pcs[t].Registering?)
  }

  // ---- The invariant -------------------------------------------------------------------------

  /** Only a thread that is appending or registering has a place in the list concerned. */
  ghost predicate PlacesOk(pcs: seq<Pc>, evPh: seq<Phase>, hdPh: seq<Phase>) {
    && |pcs| == |evPh| == |hdPh|
    && (forall t :: 0 <= t < |pcs| && !pcs[t].Appending? ==> evPh[t].Out?)
    && (forall t :: 0 <= t < |pcs| && !pcs[t].Registering? ==> hdPh[t].Out?)
  }

  /** Pointers held by a thread are to nodes, and what a walk has delivered is a beginning of the append order. */
  ghost predicate PcOk(handlers: nat, order: seq<nat>, pc: Pc) {
    match pc
    case Loop(h) => h.Some? ==> h.value < handlers
    case Try(h, _) => h < handlers
    case Read(h, _) => h < handlers
    case Walk(h, at, log, _) =>
      && h < handlers
      && log <= order
      && (at.Some? ==> |log| < |order| && at.value == order[|log|])
    case Reset(h, log, _) => h < handlers && log <= order
    case _ => true
  }

  ghost predicate PcsOk(handlers: nat, order: seq<nat>, pcs: seq<Pc>) {
    forall t :: 0 <= t < |pcs| ==> PcOk(handlers, order, pcs[t])
  }

  predicate Walks(pc: Pc) {
    pc.Read? || pc.Walk? || pc.Reset?
  }

  ghost predicate Walker(pcs: seq<Pc>, h: nat) {
    exists t :: 0 <= t < |pcs| && WalksFor(pcs[t], h)
  }

  /** A Running bit is set exactly while some thread walks for its handler, and never two do. */
  ghost predicate BitsOk(running: seq<bool>, pcs: seq<Pc>) {
    && (forall h :: 0 <= h < |running| && running[h] ==> Walker(pcs, h))
    && (forall t :: 0 <= t < |pcs| && Walks(pcs[t]) ==> pcs[t].handler < |running| && running[pcs[t].handler])
    && (forall t, u :: 0 <= t < u < |pcs| && Walks(pcs[t]) && Walks(pcs[u]) ==> pcs[t].handler != pcs[u].handler)
  }

  /** Handlers sample their predecessor with the lock held, so it is always right. */
  ghost predicate SampledInside(hd: Lane, hdPh: seq<Phase>) {
    && (forall t :: 0 <= t < |hdPh| ==> !hdPh[t].Waiting?)
    && (forall t :: 0 <= t < |hdPh| && hdPh[t].Holding? ==>
          hdPh[t].node < |hd.seen| && hd.seen[hdPh[t].node] == |hd.order|)
    && (forall i :: 0 <= i < |hd.order| ==> hd.order[i] < |hd.seen| && hd.seen[hd.order[i]] == i)
  }

  ghost predicate Inv(s: State) {
    && LaneInv(s.ev, s.evPh)
    && LaneInv(s.hd, s.hdPh)
    && PlacesOk(s.pcs, s.evPh, s.hdPh)
    && |s.running| == |s.hd.next|
    && PcsOk(|s.hd.next|, s.ev.order, s.pcs)
    && BitsOk(s.running, s.pcs)
    && SampledInside(s.hd, s.hdPh)
  }

  // ---- The steps -----------------------------------------------------------------------------

  /** Back to the signaller's loop at the next handler, or out. */
  function Onward(s: State, h: nat, back: bool): Pc
    requires h < |s.hd.next|
  {
    if back then Loop(s.hd.next[h]) else Idle
  }

  ghost function AfterGo(s: State, pc: Pc): (Pc, seq<bool>)
    requires PcOk(|s.hd.next|, s.ev.order, pc) && |s.running| == |s.hd.next| && ChainOk(s.ev)
  {
    match pc
    case Begin => (Loop(s.hd.first), s.running)
    case Loop(h) => (if h == None then Idle else Try(h.value, true), s.running)
    case Try(h, back) =>
      if s.running[h] then (Onward(s, h, back), s.running) else (Read(h, back), s.running[h := true])
    case Read(h, back) => (Walk(h, s.ev.first, [], back), s.running)
    case Walk(h, at, log, back) =>
      if at == None then (Reset(h, log, back), s.running)
      else (Walk(h, s.ev.next[at.value], log + [at.value], back), s.running)
    case Reset(h, _, back) => (Onward(s, h, back), s.running[h := false])
    case _ => (pc, s.running)
  }

  ghost function Next(s: State, t: nat, x: Action): State
    requires Inv(s) && t < |s.pcs| && Possible(s, t, x)
  {
    match x
    case StartSignal => s.(pcs := s.pcs[t := Appending])
    case StartRegister => s.(pcs := s.pcs[t := Registering])
    case EventAccess(a) =>
      CanPerform(s.ev, s.evPh, t, a);
      var (l, p) := Perform(s.ev, s.evPh, t, a);
      s.(ev := l, evPh := s.evPh[t := p], pcs := if a.Drop? then s.pcs[t := Begin] else s.pcs)
    case HandlerAccess(a) =>
      CanPerform(s.hd, s.hdPh, t, a);
      var (l, p) := Perform(s.hd, s.hdPh, t, a);
      s.(hd := l, hdPh := s.hdPh[t := p],
         running := if a.AllocateInside? then s.running + [false] else s.running,
         pcs := if a.Drop? then s.pcs[t := Try(s.hdPh[t].node, false)] else s.pcs)
    case Go =>
      var (pc, running) := AfterGo(s, s.pcs[t]);
      s.(pcs := s.pcs[t := pc], running := running)
  }

  lemma BootInv(threads: nat)
    ensures Inv(Boot(threads))
  {
  }

  // ---- Each step keeps the invariant ---------------------------------------------------------

  /** A thread that does not walk changes to another place where it does not walk. */
  lemma BitsAside(running: seq<bool>, pcs: seq<Pc>, t: nat, pc: Pc)
    requires BitsOk(running, pcs) && t < |pcs| && !Walks(pcs[t]) && !Walks(pc)
    ensures BitsOk(running, pcs[t := pc]) && BitsOk(running + [false], pcs)
  {
    forall h | 0 <= h < |running| && running[h]
      ensures Walker(pcs[t := pc], h)
    {
      var u :| 0 <= u < |pcs| && WalksFor(pcs[u], h);
      assert WalksFor(pcs[t := pc][u], h);
    }
  }

  /** Test-and-set found the bit clear. */
  lemma BitsTaken(running: seq<bool>, pcs: seq<Pc>, t: nat, h: nat, back: bool)
    requires BitsOk(running, pcs) && t < |pcs| && !Walks(pcs[t]) && h < |running| && !running[h]
    ensures BitsOk(running[h := true], pcs[t := Read(h, back)])
  {
    var pcs' := pcs[t := Read(h, back)];
    assert WalksFor(pcs'[t], h);
    forall g | 0 <= g < |running| && running[g]
      ensures Walker(pcs', g)
    {
      var u :| 0 <= u < |pcs| && WalksFor(pcs[u], g);
      assert WalksFor(pcs'[u], g);
    }
  }

  lemma BitsOnWalk(running: seq<bool>, pcs: seq<Pc>, t: nat, pc: Pc)
    requires BitsOk(running, pcs) && t < |pcs| && Walks(pcs[t]) && Walks(pc) && pc.handler == pcs[t].handler
    ensures BitsOk(running, pcs[t := pc])
  {
    forall g | 0 <= g < |running| && running[g]
      ensures Walker(pcs[t := pc], g)
    {
      var u :| 0 <= u < |pcs| && WalksFor(pcs[u], g);
      assert WalksFor(pcs[t := pc][u], g);
    }
  }

  lemma BitsReleased(running: seq<bool>, pcs: seq<Pc>, t: nat, pc: Pc)
    requires BitsOk(running, pcs) && t < |pcs| && Walks(pcs[t]) && !Walks(pc)
    ensures pcs[t].handler < |running| && BitsOk(running[pcs[t].handler := false], pcs[t := pc])
  {
    var h := pcs[t].handler;
    forall g | 0 <= g < |running| && running[g] && g != h
      ensures Walker(pcs[t := pc], g)
    {
      var u :| 0 <= u < |pcs| && WalksFor(pcs[u], g);
      assert WalksFor(pcs[t := pc][u], g);
    }
  }

  lemma PcsStay(handlers: nat, order: seq<nat>, handlers': nat, order': seq<nat>, pcs: seq<Pc>, t: nat, pc: Pc)
    requires PcsOk(handlers, order, pcs) && handlers <= handlers' && order <= order' && t < |pcs|
    requires PcOk(handlers', order', pc)
    ensures PcsOk(handlers', order', pcs[t := pc]) && PcsOk(handlers', order', pcs)
  {
  }

  lemma StartKeeps(s: State, t: nat, x: Action)
    requires Inv(s) && t < |s.pcs| && Possible(s, t, x) && (x.StartSignal? || x.StartRegister?)
    ensures Inv(Next(s, t, x))
  {
    hide LaneInv, PcsOk, BitsOk, SampledInside;
    var pc := if x.StartSignal? then Appending else Registering;
    PcsStay(|s.hd.next|, s.ev.order, |s.hd.next|, s.ev.order, s.pcs, t, pc);
    BitsAside(s.running, s.pcs, t, pc);
  }

  lemma AccessGrows(l: Lane, ph: seq<Phase>, t: nat, a: Access)
    requires LaneInv(l, ph) && t < |ph| && Enabled(l, ph[t], a)
    requires a.Link? && l.first.Some? ==> l.last.Some? && l.last.value < |l.next|
    ensures var (l', p) := Perform(l, ph, t, a);
            && l.order <= l'.order
            && (a.Drop? ==> p.Out? && ph[t].node < |l.next|)
            && |l'.next| == |l.next| + (if a.Allocate? || a.AllocateInside? then 1 else 0)
  {
  }

  lemma EventKeeps(s: State, t: nat, a: Access)
    requires Inv(s) && t < |s.pcs| && Possible(s, t, EventAccess(a))
    ensures Inv(Next(s, t, EventAccess(a)))
  {
    hide LaneInv, PcsOk, BitsOk, SampledInside, Perform, Enabled;
    CanPerform(s.ev, s.evPh, t, a);
    AccessKeepsLane(s.ev, s.evPh, t, a);
    AccessGrows(s.ev, s.evPh, t, a);
    PcsStay(|s.hd.next|, s.ev.order, |s.hd.next|, Perform(s.ev, s.evPh, t, a).0.order, s.pcs, t, Begin);
    BitsAside(s.running, s.pcs, t, Begin);
  }

  lemma SampledStay(l: Lane, ph: seq<Phase>, t: nat, a: Access)
    requires LaneInv(l, ph) && SampledInside(l, ph) && t < |ph| && Enabled(l, ph[t], a) && !a.Allocate? && !a.Take?
    requires a.Link? && l.first.Some? ==> l.last.Some? && l.last.value < |l.next|
    ensures var (l', p) := Perform(l, ph, t, a); SampledInside(l', ph[t := p])
  {
  }

  lemma HandlerKeeps(s: State, t: nat, a: Access)
    requires Inv(s) && t < |s.pcs| && Possible(s, t, HandlerAccess(a))
    ensures Inv(Next(s, t, HandlerAccess(a)))
  {
    hide LaneInv, PcsOk, BitsOk, SampledInside, Perform, Enabled;
    var l := s.hd;
    CanPerform(l, s.hdPh, t, a);
    AccessKeepsLane(l, s.hdPh, t, a);
    AccessGrows(l, s.hdPh, t, a);
    SampledStay(l, s.hdPh, t, a);
    DropHasNode(l, s.hdPh, t, a);
    var pc := if a.Drop? then Try(s.hdPh[t].node, false) else Registering;
    PcsStay(|l.next|, s.ev.order, |Perform(l, s.hdPh, t, a).0.next|, s.ev.order, s.pcs, t, pc);
    BitsAside(s.running, s.pcs, t, pc);
  }

  lemma DropHasNode(l: Lane, ph: seq<Phase>, t: nat, a: Access)
    requires t < |ph| && Enabled(l, ph[t], a)
    ensures a.Drop? ==> ph[t].Settled?
  {
  }

  lemma FirstIsNode(l: Lane)
    requires ChainOk(l)
    ensures l.first.Some? ==> l.first.value < |l.next|
    ensures l.first == if l.order == [] then None else Some(l.order[0])
  {
  }

  lemma NextIsNode(l: Lane, n: nat)
    requires ChainOk(l) && n < |l.next|
    ensures l.next[n].Some? ==> l.next[n].value < |l.next|
  {
    if n in l.order {
      var i :| 0 <= i < |l.order| && l.order[i] == n;
      assert LinkOk(l, i);
    }
  }

  lemma OnwardIsOk(s: State, h: nat, back: bool)
    requires ChainOk(s.hd) && h < |s.hd.next|
    ensures PcOk(|s.hd.next|, s.ev.order, Onward(s, h, back)) && !Walks(Onward(s, h, back))
  {
    NextIsNode(s.hd, h);
  }

  /** Whatever a thread reads next, its pointers stay good and its walk on course. */
  lemma GoKeepsPc(s: State, pc: Pc)
    requires ChainOk(s.ev) && ChainOk(s.hd) && |s.running| == |s.hd.next|
    requires PcOk(|s.hd.next|, s.ev.order, pc)
    ensures PcOk(|s.hd.next|, s.ev.order, AfterGo(s, pc).0)
  {
    hide ChainOk;
    FirstIsNode(s.ev);
    FirstIsNode(s.hd);
    match pc
    case Try(h, back) => OnwardIsOk(s, h, back);
    case Reset(h, _, back) => OnwardIsOk(s, h, back);
    case Walk(_, at, log, _) =>
      if at.Some? {
        WalkStep(s.ev, |log|);
      }
    case _ =>
  }

  lemma WalkStep(l: Lane, k: nat)
    requires ChainOk(l) && k < |l.order|
    ensures l.order[k] < |l.next| && l.next[l.order[k]] == if k + 1 < |l.order| then Some(l.order[k + 1]) else None
  {
    assert LinkOk(l, k);
  }

  lemma GoKeepsBits(s: State, t: nat)
    requires BitsOk(s.running, s.pcs) && t < |s.pcs| && |s.running| == |s.hd.next|
    requires ChainOk(s.ev) && PcOk(|s.hd.next|, s.ev.order, s.pcs[t])
    requires !(s.pcs[t].Idle? || s.pcs[t].Appending? || s.pcs[t].Registering?)
    ensures var (pc, running) := AfterGo(s, s.pcs[t]);
            && BitsOk(running, s.pcs[t := pc]) && |running| == |s.running|
            && !pc.Appending? && !pc.Registering?
  {
    hide BitsOk, ChainOk;
    var pc := AfterGo(s, s.pcs[t]).0;
    match s.pcs[t]
    case Begin => BitsAside(s.running, s.pcs, t, pc);
    case Loop(h) => BitsAside(s.running, s.pcs, t, pc);
    case Try(h, back) =>
      if s.running[h] {
        BitsAside(s.running, s.pcs, t, pc);
      } else {
        BitsTaken(s.running, s.pcs, t, h, back);
      }
    case Read(_, _) => BitsOnWalk(s.running, s.pcs, t, pc);
    case Walk(_, _, _, _) => BitsOnWalk(s.running, s.pcs, t, pc);
    case Reset(_, _, _) => BitsReleased(s.running, s.pcs, t, pc);
  }

  lemma GoKeeps(s: State, t: nat)
    requires Inv(s) && t < |s.pcs| && Possible(s, t, Go)
    ensures Inv(Next(s, t, Go))
  {
    hide ChainOk, LockOk, NodesOk, LastOk, PreviousOk, BitsOk, SampledInside, PcOk, AfterGo;
    assert PcOk(|s.hd.next|, s.ev.order, s.pcs[t]);
    GoKeepsPc(s, s.pcs[t]);
    GoKeepsBits(s, t);
    PcsStay(|s.hd.next|, s.ev.order, |s.hd.next|, s.ev.order, s.pcs, t, AfterGo(s, s.pcs[t]).0);
  }

  lemma StepKeeps(s: State, t: nat, x: Action)
    requires Inv(s) && t < |s.pcs| && Possible(s, t, x)
    ensures Inv(Next(s, t, x))
    ensures s.ev.order <= Next(s, t, x).ev.order && s.hd.order <= Next(s, t, x).hd.order
    ensures |Next(s, t, x).pcs| == |s.pcs|
  {
    hide LaneInv, PcsOk, BitsOk, SampledInside, Perform, Enabled, AfterGo;
    match x
    case StartSignal => StartKeeps(s, t, x);
    case StartRegister => StartKeeps(s, t, x);
    case EventAccess(a) =>
      EventKeeps(s, t, a);
      CanPerform(s.ev, s.evPh, t, a);
      AccessGrows(s.ev, s.evPh, t, a);
    case HandlerAccess(a) =>
      HandlerKeeps(s, t, a);
      CanPerform(s.hd, s.hdPh, t, a);
      AccessGrows(s.hd, s.hdPh, t, a);
    case Go => GoKeeps(s, t);
  }

  // ---- Every interleaving --------------------------------------------------------------------

  datatype Turn = Turn(t: nat, x: Action)

  /** One thread takes one turn. */
  ghost predicate Follows(s: State, turn: Turn, s': State) {
    Inv(s) ==> turn.t < |s.pcs| && Possible(s, turn.t, turn.x) && s' == Next(s, turn.t, turn.x)
  }

  /** Any interleaving of that many threads, mutex or no mutex, from an object without events or handlers. */
  ghost predicate Run(threads: nat, ss: seq<State>, turns: seq<Turn>) {
    && |ss| == |turns| + 1
    && ss[0] == Boot(threads)
    && forall i :: 0 <= i < |turns| ==> Follows(ss[i], turns[i], ss[i + 1])
  }

  lemma {:induction false} RunsKeepInv(threads: nat, ss: seq<State>, turns: seq<Turn>, n: nat)
    requires Run(threads, ss, turns) && n <= |turns|
    ensures Inv(ss[n])
  {
    hide Inv, Next, Possible;
    if n == 0 {
      BootInv(threads);
    } else {
      RunsKeepInv(threads, ss, turns, n - 1);
      assert Follows(ss[n - 1], turns[n - 1], ss[n]);
      StepKeeps(ss[n - 1], turns[n - 1].t, turns[n - 1].x);
    }
  }

  /**
   * At any time the forward chains of events and of handlers are exactly the locked appends so far, in
   * order, and their ends are where the last pointers are unless an append is half done.
   */
  lemma ChainsAreAppendOrder(threads: nat, ss: seq<State>, turns: seq<Turn>, n: nat, fuel: nat)
    requires Run(threads, ss, turns) && n <= |turns|
    requires fuel >= |ss[n].ev.order| && fuel >= |ss[n].hd.order|
    ensures var s := ss[n];
            && Follow(s.ev.next, s.ev.first, fuel) == s.ev.order
            && Follow(s.hd.next, s.hd.first, fuel) == s.hd.order
            && (!Lagging(s.evPh) ==> s.ev.last == LastOf(s.ev.order))
            && (!Lagging(s.hdPh) ==> s.hd.last == LastOf(s.hd.order))
  {
    RunsKeepInv(threads, ss, turns, n);
    hide LaneInv;
    ChainIsAppendOrder(ss[n].ev, ss[n].evPh, fuel);
    ChainIsAppendOrder(ss[n].hd, ss[n].hdPh, fuel);
  }

  /** What was appended stays where it is. */
  lemma {:induction false} OrdersOnlyGrow(threads: nat, ss: seq<State>, turns: seq<Turn>, m: nat, n: nat)
    requires Run(threads, ss, turns) && m <= n <= |turns|
    ensures ss[m].ev.order <= ss[n].ev.order && ss[m].hd.order <= ss[n].hd.order
  {
    hide Inv, Next, Possible;
    if m < n {
      OrdersOnlyGrow(threads, ss, turns, m, n - 1);
      RunsKeepInv(threads, ss, turns, n - 1);
      assert Follows(ss[n - 1], turns[n - 1], ss[n]);
      StepKeeps(ss[n - 1], turns[n - 1].t, turns[n - 1].x);
    }
  }

  /**
   * Even without the mutex, the previous pointer of an event is what `last` was when it was sampled, right exactly when
   * `last` covered all events before it then. A handler's is always right.
   */
  lemma PreviousPointers(threads: nat, ss: seq<State>, turns: seq<Turn>, n: nat, i: nat)
    requires Run(threads, ss, turns) && n <= |turns|
    ensures var l := ss[n].ev; i < |l.order| ==>
              && l.order[i] < |l.previous| == |l.seen| && l.seen[l.order[i]] <= i
              && l.previous[l.order[i]] == LastOf(l.order[..l.seen[l.order[i]]])
              && (l.previous[l.order[i]] == LastOf(l.order[..i]) <==> l.seen[l.order[i]] == i)
    ensures var l := ss[n].hd; i < |l.order| ==>
              l.order[i] < |l.previous| && l.previous[l.order[i]] == LastOf(l.order[..i])
  {
    RunsKeepInv(threads, ss, turns, n);
    if i < |ss[n].ev.order| {
      PreviousIsRightIff(ss[n].ev, ss[n].evPh, i);
    }
    if i < |ss[n].hd.order| {
      PreviousIsRightIff(ss[n].hd, ss[n].hdPh, i);
    }
  }

  /** No two threads walk the events for one handler, and its Running bit says whether one does. */
  lemma OneWalkerPerHandler(threads: nat, ss: seq<State>, turns: seq<Turn>, n: nat, h: nat)
    requires Run(threads, ss, turns) && n <= |turns| && h < |ss[n].running|
    ensures ss[n].running[h] <==> exists t :: 0 <= t < |ss[n].pcs| && WalksFor(ss[n].pcs[t], h)
    ensures forall t, u ::
              (0 <= t < |ss[n].pcs| && 0 <= u < |ss[n].pcs| && WalksFor(ss[n].pcs[t], h) && WalksFor(ss[n].pcs[u], h))
              ==> t == u
  {
    RunsKeepInv(threads, ss, turns, n);
    assert Walker(ss[n].pcs, h) <==> exists t :: 0 <= t < |ss[n].pcs| && WalksFor(ss[n].pcs[t], h);
  }

  /**
   * One turn of a walk: it starts with nothing delivered, delivers one event at a time, and when it reads the
   * end of the chain it has delivered exactly the events appended by then.
   */
  ghost predicate WalkedOn(pc: Pc, pc': Pc, order: seq<nat>) {
    && (pc.Read? ==> pc'.Walk? && pc'.log == [])
    && (pc.Walk? && pc.at.Some? ==> pc'.Walk? && pc'.log == pc.log + [pc.at.value])
    && (pc'.Walk? && pc'.at == None ==> pc'.log == order)
    && (pc.Walk? || pc.Reset? ==> pc.log <= order)
  }

  lemma WalkReads(s: State, pc: Pc)
    requires ChainOk(s.ev) && |s.running| == |s.hd.next| && PcOk(|s.hd.next|, s.ev.order, pc) && Walks(pc)
    ensures WalkedOn(pc, AfterGo(s, pc).0, s.ev.order)
  {
    hide ChainOk;
    FirstIsNode(s.ev);
    if pc.Walk? && pc.at.Some? {
      WalkStep(s.ev, |pc.log|);
    }
  }

  lemma WalkTurn(s: State, t: nat)
    requires Inv(s) && t < |s.pcs| && Walks(s.pcs[t])
    ensures Possible(s, t, Go)
    ensures var s' := Next(s, t, Go); t < |s'.pcs| && WalkedOn(s.pcs[t], s'.pcs[t], s'.ev.order)
  {
    hide ChainOk, LockOk, NodesOk, LastOk, PreviousOk, BitsOk, SampledInside, PlacesOk, AfterGo, WalkedOn;
    assert PcOk(|s.hd.next|, s.ev.order, s.pcs[t]);
    WalkReads(s, s.pcs[t]);
  }

  /**
   * A walk delivers the events from the first on in the order of their appends, and when it reads the end of
   * the chain it has delivered all that are appended by then.
   */
  lemma WalksDeliverInOrder(threads: nat, ss: seq<State>, turns: seq<Turn>, n: nat, t: nat)
    requires Run(threads, ss, turns) && n < |turns| && turns[n] == Turn(t, Go)
    requires t < |ss[n].pcs| && Walks(ss[n].pcs[t])
    ensures t < |ss[n + 1].pcs| && WalkedOn(ss[n].pcs[t], ss[n + 1].pcs[t], ss[n + 1].ev.order)
  {
    RunsKeepInv(threads, ss, turns, n);
    hide Inv, WalkedOn;
    assert Follows(ss[n], turns[n], ss[n + 1]);
    StepKeeps(ss[n], t, Go);
    WalkTurn(ss[n], t);
  }

  // ---- What the mutex prevents -----------------------------------------------------------------

  // Two runs that would be possible if the mutex admitted any thread.

  ghost predicate Reachable(threads: nat, s: State) {
    exists ss, turns :: Run(threads, ss, turns) && ss[|turns|] == s
  }

  lemma RunGrows(threads: nat, ss: seq<State>, turns: seq<Turn>, turn: Turn, s: State)
    requires Run(threads, ss, turns) && Follows(ss[|turns|], turn, s)
    ensures Run(threads, ss + [s], turns + [turn])
  {
    hide Follows;
    forall i | 0 <= i < |turns|
      ensures Follows((ss + [s])[i], (turns + [turn])[i], (ss + [s])[i + 1])
    {
      assert Follows(ss[i], turns[i], ss[i + 1]);
    }
  }

  lemma ReachInv(threads: nat, s: State)
    requires Reachable(threads, s)
    ensures Inv(s)
  {
    var ss, turns :| Run(threads, ss, turns) && ss[|turns|] == s;
    RunsKeepInv(threads, ss, turns, |turns|);
  }

  lemma Reach(threads: nat, s: State, turn: Turn, s': State)
    requires Reachable(threads, s) && Follows(s, turn, s')
    ensures Reachable(threads, s')
  {
    var ss, turns :| Run(threads, ss, turns) && ss[|turns|] == s;
    RunGrows(threads, ss, turns, turn, s');
    assert (ss + [s'])[|turns + [turn]|] == s';
  }

  lemma ReachStart(threads: nat, s: State, t: nat)
    requires Reachable(threads, s) && t < |s.pcs| && s.pcs[t].Idle?
    ensures Reachable(threads, s.(pcs := s.pcs[t := Appending]))
  {
    hide Reachable, LaneInv;
    ReachInv(threads, s);
    Reach(threads, s, Turn(t, StartSignal), s.(pcs := s.pcs[t := Appending]));
  }

  /** One access of a signaller. */
  lemma ReachAccess(threads: nat, s: State, t: nat, a: Access) returns (s': State)
    requires Reachable(threads, s) && t < |s.pcs| == |s.evPh|
    requires s.pcs[t].Appending? && a in {Allocate, Take, Link, SetLast, Drop} && Enabled(s.ev, s.evPh[t], a)
    ensures Reachable(threads, s')
    ensures a.Link? && s.ev.first.Some? ==> s.ev.last.Some? && s.ev.last.value < |s.ev.next|
    ensures var (l, p) := Perform(s.ev, s.evPh, t, a); s'.ev == l && s'.evPh == s.evPh[t := p]
    ensures s'.pcs == if a.Drop? then s.pcs[t := Begin] else s.pcs
  {
    hide Reachable;
    ReachInv(threads, s);
    CanPerform(s.ev, s.evPh, t, a);
    s' := Next(s, t, EventAccess(a));
    Reach(threads, s, Turn(t, EventAccess(a)), s');
  }

  lemma BothAppending() returns (s: State)
    ensures Reachable(2, s) && s.pcs == [Appending, Appending] && s.evPh == [Out, Out] && s.ev == Empty()
  {
    s := Boot(2);
    var none: seq<Turn> := [];
    assert Run(2, [s], none) && [s][|none|] == s;
    hide Reachable, Inv, Covered, Run;
    ReachStart(2, s, 0);
    s := s.(pcs := s.pcs[0 := Appending]);
    ReachStart(2, s, 1);
    s := s.(pcs := s.pcs[1 := Appending]);
  }

  lemma BothSampled() returns (s: State)
    ensures Reachable(2, s) && s.pcs == [Appending, Appending] && s.evPh == [Waiting(0), Waiting(1)]
    ensures s.ev.(seen := []) == Lane(None, None, None, [None, None], [None, None], [], [])
  {
    hide Reachable, Covered;
    s := BothAppending();
    s := ReachAccess(2, s, 0, Allocate);
    s := ReachAccess(2, s, 1, Allocate);
  }

  lemma FirstAppended() returns (s: State)
    ensures Reachable(2, s) && s.pcs == [Begin, Appending] && s.evPh == [Out, Waiting(1)]
    ensures s.ev.(seen := []) == Lane(Some(0), Some(0), None, [None, None], [None, None], [0], [])
  {
    hide Reachable, Covered;
    s := BothSampled();
    s := ReachAccess(2, s, 0, Take);
    s := ReachAccess(2, s, 0, Link);
    s := ReachAccess(2, s, 0, SetLast);
    s := ReachAccess(2, s, 0, Drop);
  }

  /**
   * Without the mutex, two signallers might sample `last` before either links its event: the second event knows of
   * none before it.
   */
  lemma PreviousMayBeStale() returns (s: State)
    ensures Reachable(2, s) && s.ev.order == [0, 1] && s.ev.previous == [None, None]
  {
    hide Reachable, Covered;
    s := FirstAppended();
    s := ReachAccess(2, s, 1, Take);
    s := ReachAccess(2, s, 1, Link);
  }

  lemma SampledBehind() returns (s: State)
    ensures Reachable(2, s) && s.pcs == [Appending, Appending] && s.evPh == [Linked(0), Waiting(1)]
    ensures s.ev.(seen := []) == Lane(Some(0), None, Some(0), [None, None], [None, None], [0], [])
  {
    hide Reachable, Covered;
    s := BothAppending();
    s := ReachAccess(2, s, 0, Allocate);
    s := ReachAccess(2, s, 0, Take);
    s := ReachAccess(2, s, 0, Link);
    s := ReachAccess(2, s, 1, Allocate);
  }

  /**
   * Without the mutex, a signaller might sample `last` after another has linked its event and before it has moved
   * `last`. Nothing is linked between the sample and its own link, and still its event knows of none before it.
   */
  lemma PreviousMayLagBehind() returns (sampled: State, s: State)
    ensures Reachable(2, sampled) && sampled.evPh == [Linked(0), Waiting(1)] && sampled.ev.order == [0]
    ensures Reachable(2, s) && s.ev.order == [0, 1] && s.ev.previous == [None, None]
  {
    hide Reachable, Covered;
    sampled := SampledBehind();
    s := ReachAccess(2, sampled, 0, SetLast);
    s := ReachAccess(2, s, 0, Drop);
    s := ReachAccess(2, s, 1, Take);
    s := ReachAccess(2, s, 1, Link);
  }
}
