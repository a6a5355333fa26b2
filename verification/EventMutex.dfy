/**
 * Signallers of one event object exclude each other: KeSignalEvent holds the object's mutex from before it samples
 * the last event until it has run all handlers. What that adds to what holds in every interleaving.
 */
module EventMutex {
  import opened EventSignals
  import opened Lanes
  import opened Options

  /** A thread inside the mutex. Its walks return to the signaller's loop. */
  predicate InSignal(pc: Pc) {
    match pc
    case Appending => true
    case Begin => true
    case Loop(_) => true
    case Try(_, back) => back
    case Read(_, back) => back
    case Walk(_, _, _, back) => back
    case Reset(_, _, back) => back
    case _ => false
  }

  ghost predicate MutexFree(s: State) {
    forall t :: 0 <= t < |s.pcs| ==> !InSignal(s.pcs[t])
  }

  /** A run in which a signaller enters only when the mutex is free. It leaves it when its loop is over. */
  ghost predicate MutexRun(threads: nat, ss: seq<State>, turns: seq<Turn>) {
    && Run(threads, ss, turns)
    && forall i :: 0 <= i < |turns| && turns[i].x.StartSignal? ==> MutexFree(ss[i])
  }

  ghost predicate OneInside(pcs: seq<Pc>) {
    forall t, u :: 0 <= t < u < |pcs| ==> !(InSignal(pcs[t]) && InSignal(pcs[u]))
  }

  /** Every event was sampled when `last` covered all before it, or would if it were linked now. */
  ghost predicate SampledFresh(l: Lane, ph: seq<Phase>) {
    && (forall i :: 0 <= i < |l.order| ==> l.order[i] < |l.seen| && l.seen[l.order[i]] == i)
    && (forall t :: 0 <= t < |ph| && (ph[t].Waiting? || ph[t].Holding?) ==>
          ph[t].node < |l.seen| && l.seen[ph[t].node] == |l.order|)
  }

  ghost predicate MutexInv(s: State) {
    OneInside(s.pcs) && SampledFresh(s.ev, s.evPh)
  }

  /** No thread but t has a place in the list. */
  ghost predicate Alone(ph: seq<Phase>, t: nat) {
    forall u :: 0 <= u < |ph| && u != t ==> ph[u].Out?
  }

  lemma AloneInList(s: State, t: nat)
    requires PlacesOk(s.pcs, s.evPh, s.hdPh) && OneInside(s.pcs) && t < |s.pcs| && s.pcs[t].Appending?
    ensures Alone(s.evPh, t)
  {
    forall u | 0 <= u < |s.evPh| && u != t
      ensures s.evPh[u].Out?
    {
      assert !InSignal(s.pcs[u]);
    }
  }

  lemma AccessKeepsFresh(l: Lane, ph: seq<Phase>, t: nat, a: Access)
    requires |l.next| == |l.seen| && SampledFresh(l, ph) && t < |ph| && Enabled(l, ph[t], a) && Alone(ph, t)
    requires a.Link? && l.first.Some? ==> l.last.Some? && l.last.value < |l.next|
    ensures var (l', p) := Perform(l, ph, t, a); SampledFresh(l', ph[t := p])
  {
    if a.Allocate? || a.AllocateInside? {
      assert !Lagging(ph);
    }
  }

  /** A thread that moves gets inside only if it was, or nobody was. */
  lemma OneInsideStays(pcs: seq<Pc>, t: nat, pc: Pc)
    requires OneInside(pcs) && t < |pcs|
    requires InSignal(pc) ==> InSignal(pcs[t]) || forall u :: 0 <= u < |pcs| ==> !InSignal(pcs[u])
    ensures OneInside(pcs[t := pc])
  {
  }

  lemma StartKeepsMutexInv(s: State, t: nat, x: Action)
    requires Inv(s) && MutexInv(s) && t < |s.pcs| && Possible(s, t, x) && (x.StartSignal? || x.StartRegister?)
    requires x.StartSignal? ==> MutexFree(s)
    ensures MutexInv(Next(s, t, x))
  {
    OneInsideStays(s.pcs, t, if x.StartSignal? then Appending else Registering);
    hide Inv, OneInside, SampledFresh;
  }

  lemma EventKeepsMutexInv(s: State, t: nat, a: Access)
    requires Inv(s) && MutexInv(s) && t < |s.pcs| && Possible(s, t, EventAccess(a))
    ensures MutexInv(Next(s, t, EventAccess(a)))
  {
    AloneInList(s, t);
    CanPerform(s.ev, s.evPh, t, a);
    ChainLengths(s.ev);
    AccessKeepsFresh(s.ev, s.evPh, t, a);
    OneInsideStays(s.pcs, t, Begin);
    hide Inv, OneInside, SampledFresh, Perform, Enabled;
  }

  lemma HandlerKeepsMutexInv(s: State, t: nat, a: Access)
    requires Inv(s) && MutexInv(s) && t < |s.pcs| && Possible(s, t, HandlerAccess(a))
    ensures MutexInv(Next(s, t, HandlerAccess(a)))
  {
    CanPerform(s.hd, s.hdPh, t, a);
    DropHasNode(s.hd, s.hdPh, t, a);
    if a.Drop? {
      OneInsideStays(s.pcs, t, Try(s.hdPh[t].node, false));
    }
    hide Inv, OneInside, SampledFresh, Perform, Enabled;
  }

  /** A thread gets inside by StartSignal only. */
  lemma GoStaysOutside(s: State, pc: Pc)
    requires PcOk(|s.hd.next|, s.ev.order, pc) && |s.running| == |s.hd.next| && ChainOk(s.ev)
    ensures InSignal(AfterGo(s, pc).0) ==> InSignal(pc)
  {
    hide ChainOk;
  }

  lemma GoKeepsMutexInv(s: State, t: nat)
    requires Inv(s) && MutexInv(s) && t < |s.pcs| && Possible(s, t, Go)
    ensures MutexInv(Next(s, t, Go))
  {
    GoStaysOutside(s, s.pcs[t]);
    OneInsideStays(s.pcs, t, AfterGo(s, s.pcs[t]).0);
    hide Inv, OneInside, SampledFresh, AfterGo;
  }

  lemma StepKeepsMutexInv(s: State, t: nat, x: Action)
    requires Inv(s) && MutexInv(s) && t < |s.pcs| && Possible(s, t, x)
    requires x.StartSignal? ==> MutexFree(s)
    ensures MutexInv(Next(s, t, x))
  {
    hide *;
    match x
    case EventAccess(a) => EventKeepsMutexInv(s, t, a);
    case HandlerAccess(a) => HandlerKeepsMutexInv(s, t, a);
    case Go => GoKeepsMutexInv(s, t);
    case _ => StartKeepsMutexInv(s, t, x);
  }

  lemma MutexTurn(s: State, turn: Turn, s': State)
    requires Inv(s) && MutexInv(s) && Follows(s, turn, s') && (turn.x.StartSignal? ==> MutexFree(s))
    ensures MutexInv(s')
  {
    hide Inv, MutexInv, MutexFree, Next, Possible;
    StepKeepsMutexInv(s, turn.t, turn.x);
  }

  lemma {:induction false} MutexRunsKeepInv(threads: nat, ss: seq<State>, turns: seq<Turn>, n: nat)
    requires MutexRun(threads, ss, turns) && n <= |turns|
    ensures Inv(ss[n]) && MutexInv(ss[n])
  {
    hide Inv, MutexInv, MutexFree, Follows;
    RunsKeepInv(threads, ss, turns, n);
    if n == 0 {
      BootMutexInv(threads);
    } else {
      MutexRunsKeepInv(threads, ss, turns, n - 1);
      MutexTurn(ss[n - 1], turns[n - 1], ss[n]);
    }
  }

  lemma BootMutexInv(threads: nat)
    ensures MutexInv(Boot(threads))
  {
  }

  /**
   * With the mutex, the previous pointer of every event is its predecessor, although it is sampled outside the
   * spinlock.
   */
  lemma PreviousIsPredecessor(threads: nat, ss: seq<State>, turns: seq<Turn>, n: nat, i: nat)
    requires MutexRun(threads, ss, turns) && n <= |turns| && i < |ss[n].ev.order|
    ensures var l := ss[n].ev; l.order[i] < |l.previous| && l.previous[l.order[i]] == LastOf(l.order[..i])
  {
    MutexRunsKeepInv(threads, ss, turns, n);
    PreviousIsRightIff(ss[n].ev, ss[n].evPh, i);
  }

  /**
   * A signaller about to test a handler's Running bit finds it set exactly when the thread that registered the
   * handler is still walking the events for it: walks of other signallers are over.
   */
  lemma SkippedIffRegistrantWalks(threads: nat, ss: seq<State>, turns: seq<Turn>, n: nat, t: nat, h: nat)
    requires MutexRun(threads, ss, turns) && n <= |turns| && t < |ss[n].pcs| && ss[n].pcs[t] == Try(h, true)
    ensures h < |ss[n].running|
    ensures ss[n].running[h] <==>
              exists u :: 0 <= u < |ss[n].pcs| && WalksFor(ss[n].pcs[u], h) && !ss[n].pcs[u].back
  {
    MutexRunsKeepInv(threads, ss, turns, n);
    assert PcOk(|ss[n].hd.next|, ss[n].ev.order, Try(h, true));
    BitOfTried(ss[n], t, h);
  }

  lemma BitOfTried(s: State, t: nat, h: nat)
    requires BitsOk(s.running, s.pcs) && OneInside(s.pcs)
    requires t < |s.pcs| && s.pcs[t] == Try(h, true) && h < |s.running|
    ensures s.running[h] <==> exists u :: 0 <= u < |s.pcs| && WalksFor(s.pcs[u], h) && !s.pcs[u].back
  {
    if s.running[h] {
      var u :| 0 <= u < |s.pcs| && WalksFor(s.pcs[u], h);
      assert InSignal(s.pcs[t]) && u != t;
      assert !InSignal(s.pcs[u]);
    }
  }
}
