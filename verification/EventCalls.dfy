/**
 * Whole calls of KeSignalEvent and KeRegisterEventHandler in any interleaving: what a thread does before it is idle
 * again.
 */
module EventCalls {
  import opened EventSignals
  import opened Lanes
  import opened Options

  // ---- One turn at a time ----------------------------------------------------------------------

  /** Thread t stays where it is while the lists grow. */
  ghost predicate Stays(s: State, s': State, t: nat) {
    && t < |s.pcs| == |s.evPh| == |s.hdPh| && t < |s'.pcs| == |s'.evPh| == |s'.hdPh|
    && s'.pcs[t] == s.pcs[t] && s'.evPh[t] == s.evPh[t] && s'.hdPh[t] == s.hdPh[t]
  }

  /** The lists of s' begin with those of s. */
  ghost predicate Grows(s: State, s': State) {
    && |s'.pcs| == |s.pcs|
    && s.ev.order <= s'.ev.order && s.hd.order <= s'.hd.order
    && |s.ev.next| <= |s'.ev.next| && |s.hd.next| <= |s'.hd.next|
  }

  lemma NextGrows(s: State, u: nat, x: Action)
    requires Inv(s) && u < |s.pcs| && Possible(s, u, x)
    ensures Grows(s, Next(s, u, x))
    ensures forall t: nat :: t < |s.pcs| && t != u ==> Stays(s, Next(s, u, x), t)
  {
    hide LaneInv, PcsOk, BitsOk, SampledInside, Perform, Enabled, AfterGo;
    match x
    case EventAccess(a) =>
      CanPerform(s.ev, s.evPh, u, a);
      AccessGrows(s.ev, s.evPh, u, a);
    case HandlerAccess(a) =>
      CanPerform(s.hd, s.hdPh, u, a);
      AccessGrows(s.hd, s.hdPh, u, a);
    case _ =>
  }

  /** A thread in the middle of a loop or a walk takes no other turn than Go. */
  predicate GoesOn(pc: Pc) {
    !pc.Idle? && !pc.Appending? && !pc.Registering?
  }

  /** Turn k of a run, as thread t sees it. */
  lemma TurnOf(threads: nat, ss: seq<State>, turns: seq<Turn>, k: nat, t: nat)
    requires Run(threads, ss, turns) && k < |turns| && t < |ss[k].pcs|
    ensures |ss| == |turns| + 1 && Inv(ss[k]) && Grows(ss[k], ss[k + 1])
    ensures turns[k].t != t ==> Stays(ss[k], ss[k + 1], t)
    ensures turns[k].t == t ==> Possible(ss[k], t, turns[k].x) && ss[k + 1] == Next(ss[k], t, turns[k].x)
    ensures turns[k].t == t && GoesOn(ss[k].pcs[t]) ==> turns[k].x == Go
  {
    RunsKeepInv(threads, ss, turns, k);
    assert Follows(ss[k], turns[k], ss[k + 1]);
    hide Inv, Next;
    NextGrows(ss[k], turns[k].t, turns[k].x);
  }

  // ---- Walking the events ----------------------------------------------------------------------

  /**
   * What a thread at a handler's Running bit does next. A clear bit it sets, and starts to walk the events for the
   * handler. When the bit is set another thread walks for the handler, and this one goes on.
   */
  lemma TryTurn(s: State, t: nat)
    requires Inv(s) && t < |s.pcs| && s.pcs[t].Try?
    ensures Possible(s, t, Go) && s.pcs[t].handler < |s.running|
    ensures var s' := Next(s, t, Go); var h, back := s.pcs[t].handler, s.pcs[t].back;
            && t < |s'.pcs| && h < |s'.running|
            && (!s.running[h] ==> s'.pcs[t] == Read(h, back) && s'.running[h])
            && (s.running[h] ==>
                  && (s'.pcs[t] == if back then Loop(s.hd.next[h]) else Idle)
                  && exists u :: 0 <= u < |s.pcs| && u != t && WalksFor(s.pcs[u], h))
  {
    hide ChainOk, LockOk, NodesOk, LastOk, PreviousOk, SampledInside;
    assert PcOk(|s.hd.next|, s.ev.order, s.pcs[t]);
  }

  predicate WalksWith(pc: Pc, h: nat, back: bool) {
    WalksFor(pc, h) && pc.back == back
  }

  /** A walk stays one, or leaves from Reset. */
  lemma WalkGoesOn(s: State, t: nat, h: nat, back: bool)
    requires Inv(s) && t < |s.pcs| && WalksWith(s.pcs[t], h, back)
    ensures h < |s.hd.next| && Possible(s, t, Go) && t < |Next(s, t, Go).pcs|
    ensures var pc' := Next(s, t, Go).pcs[t];
            if s.pcs[t].Reset? then pc' == if back then Loop(s.hd.next[h]) else Idle
            else WalksWith(pc', h, back) && (pc'.Reset? ==> s.pcs[t].Walk? && s.pcs[t].at == None)
  {
    hide ChainOk, LockOk, NodesOk, LastOk, PreviousOk, SampledInside, BitsOk;
    assert PcOk(|s.hd.next|, s.ev.order, s.pcs[t]);
  }

  /** At r thread t has read the end of the chain in a walk for h and delivered all events appended by then. */
  ghost predicate AllDelivered(s: State, t: nat, h: nat) {
    t < |s.pcs| && s.pcs[t].Walk? && s.pcs[t].handler == h && s.pcs[t].at == None && s.pcs[t].log == s.ev.order
  }

  /** How far a walk has come by n: it has read the end if it is past it. */
  ghost predicate WalkTrace(ss: seq<State>, m: nat, n: nat, t: nat, h: nat, back: bool)
    requires m <= n < |ss|
  {
    && t < |ss[n].pcs| && WalksWith(ss[n].pcs[t], h, back)
    && (ss[n].pcs[t].Reset? || (ss[n].pcs[t].Walk? && ss[n].pcs[t].at == None) ==>
          exists r :: m < r <= n && AllDelivered(ss[r], t, h))
  }

  /** A walker's own turn. */
  lemma WalkOwnTurn(s: State, t: nat, h: nat, back: bool)
    requires Inv(s) && t < |s.pcs| && WalksWith(s.pcs[t], h, back)
    ensures h < |s.hd.next| && Possible(s, t, Go)
    ensures var s' := Next(s, t, Go);
            && t < |s'.pcs|
            && if s.pcs[t].Reset? then s'.pcs[t] == if back then Loop(s.hd.next[h]) else Idle
               else WalksWith(s'.pcs[t], h, back)
                    && (s'.pcs[t].Reset? ==> s.pcs[t].Walk? && s.pcs[t].at == None)
                    && (s'.pcs[t].Walk? && s'.pcs[t].at == None ==> AllDelivered(s', t, h))
  {
    WalkGoesOn(s, t, h, back);
    WalkTurn(s, t);
    hide Inv, Next, Possible;
  }

  lemma WalkTraceTurn(threads: nat, ss: seq<State>, turns: seq<Turn>, m: nat, n: nat, t: nat, h: nat, back: bool)
    requires Run(threads, ss, turns) && m <= n < |turns| && WalkTrace(ss, m, n, t, h, back)
    ensures WalkTrace(ss, m, n + 1, t, h, back)
            || (ss[n].pcs[t].Reset? && t < |ss[n + 1].pcs| && !Walks(ss[n + 1].pcs[t]))
  {
    hide Inv, Next, Possible, AllDelivered, Run, Grows;
    TurnOf(threads, ss, turns, n, t);
    if turns[n].t == t {
      WalkOwnTurn(ss[n], t, h, back);
    }
  }

  /** A walk that is over has delivered, in order, all events appended when it read the end of the chain. */
  lemma {:induction false} WalkDeliversAll(
      threads: nat, ss: seq<State>, turns: seq<Turn>, m: nat, n: nat, t: nat, h: nat, back: bool)
    requires Run(threads, ss, turns) && m <= n <= |turns| && t < |ss[m].pcs| && ss[m].pcs[t] == Read(h, back)
    ensures WalkTrace(ss, m, n, t, h, back) || exists r :: m < r <= n && AllDelivered(ss[r], t, h)
  {
    assert |ss| == |turns| + 1;
    hide AllDelivered, Run;
    if m < n {
      WalkDeliversAll(threads, ss, turns, m, n - 1, t, h, back);
      if WalkTrace(ss, m, n - 1, t, h, back) {
        WalkTraceTurn(threads, ss, turns, m, n - 1, t, h, back);
      }
    }
  }

  // ---- Trying a handler ------------------------------------------------------------------------

  /** At l thread t finds the bit of handler h set, while another thread walks for h. */
  ghost predicate Skips(s: State, t: nat, h: nat) {
    && t < |s.pcs| && s.pcs[t].Try? && s.pcs[t].handler == h && h < |s.running| && s.running[h]
    && exists u :: 0 <= u < |s.pcs| && u != t && WalksFor(s.pcs[u], h)
  }

  /** From a try at k, by n: it is still to come, it was skipped, or the events were walked, wholly or in part. */
  ghost predicate TryTrace(ss: seq<State>, k: nat, n: nat, t: nat, h: nat, back: bool)
    requires k <= n < |ss|
  {
    || (t < |ss[n].pcs| && ss[n].pcs[t] == Try(h, back))
    || (exists l :: k <= l < n && Skips(ss[l], t, h))
    || (exists l :: k < l <= n && WalkTrace(ss, l, n, t, h, back))
    || (exists r :: k < r <= n && AllDelivered(ss[r], t, h))
  }

  lemma TryTraceTurn(threads: nat, ss: seq<State>, turns: seq<Turn>, k: nat, n: nat, t: nat, h: nat, back: bool)
    requires Run(threads, ss, turns) && k <= n < |turns| && TryTrace(ss, k, n, t, h, back)
    ensures TryTrace(ss, k, n + 1, t, h, back)
  {
    assert |ss| == |turns| + 1;
    hide AllDelivered, Skips, WalkTrace, Inv, Next, Possible, Run;
    if exists l :: k <= l < n && Skips(ss[l], t, h) {
      var l :| k <= l < n && Skips(ss[l], t, h);
      assert k <= l < n + 1;
    } else if exists r :: k < r <= n && AllDelivered(ss[r], t, h) {
      var r :| k < r <= n && AllDelivered(ss[r], t, h);
      assert k < r <= n + 1;
    } else if t < |ss[n].pcs| && ss[n].pcs[t] == Try(h, back) {
      TryOnce(threads, ss, turns, n, t, h, back);
    } else {
      var l: nat :| k < l <= n && WalkTrace(ss, l, n, t, h, back);
      WalkOrDone(threads, ss, turns, l, n, t, h, back);
    }
  }

  lemma TryOnce(threads: nat, ss: seq<State>, turns: seq<Turn>, n: nat, t: nat, h: nat, back: bool)
    requires Run(threads, ss, turns) && n < |turns| && t < |ss[n].pcs| && ss[n].pcs[t] == Try(h, back)
    ensures (t < |ss[n + 1].pcs| && ss[n + 1].pcs[t] == Try(h, back)) || Skips(ss[n], t, h)
            || WalkTrace(ss, n + 1, n + 1, t, h, back)
  {
    hide Inv, Next, Possible, Run, Grows;
    TurnOf(threads, ss, turns, n, t);
    if turns[n].t == t {
      TryTurn(ss[n], t);
    }
  }

  lemma WalkOrDone(threads: nat, ss: seq<State>, turns: seq<Turn>, l: nat, n: nat, t: nat, h: nat, back: bool)
    requires Run(threads, ss, turns) && l <= n < |turns| && WalkTrace(ss, l, n, t, h, back)
    ensures WalkTrace(ss, l, n + 1, t, h, back) || exists r :: l < r <= n && AllDelivered(ss[r], t, h)
  {
    hide AllDelivered, Inv, Next, Possible, Run;
    WalkTraceTurn(threads, ss, turns, l, n, t, h, back);
  }

  /**
   * Whoever tries a handler and is past it has skipped it, as another thread was walking for it, or has walked the
   * events for it to the end.
   */
  lemma {:induction false} TryIsAnswered(
      threads: nat, ss: seq<State>, turns: seq<Turn>, k: nat, n: nat, t: nat, h: nat, back: bool)
    requires Run(threads, ss, turns) && k <= n <= |turns| && t < |ss[k].pcs| && ss[k].pcs[t] == Try(h, back)
    ensures TryTrace(ss, k, n, t, h, back)
  {
    hide AllDelivered, Skips, WalkTrace, Run;
    if k < n {
      TryIsAnswered(threads, ss, turns, k, n - 1, t, h, back);
      hide TryTrace;
      TryTraceTurn(threads, ss, turns, k, n - 1, t, h, back);
    }
  }

  // ---- Going through the handlers --------------------------------------------------------------

  /** The handler a signaller is at, if it is at one. */
  function HandlerOf(pc: Pc): Ptr {
    match pc
    case Try(h, back) => if back then Some(h) else None
    case Read(h, back) => if back then Some(h) else None
    case Walk(h, _, _, back) => if back then Some(h) else None
    case Reset(h, _, back) => if back then Some(h) else None
    case _ => None
  }

  /** The times ks are in order, and at the j-th of them thread t is about to try the j-th handler. */
  ghost predicate Tried(ss: seq<State>, m: nat, n: nat, t: nat, ks: seq<nat>)
    requires m <= n < |ss|
  {
    && |ks| <= |ss[n].hd.order|
    && (forall i, j :: 0 <= i < j < |ks| ==> ks[i] < ks[j])
    && forall j :: 0 <= j < |ks| ==>
         m < ks[j] <= n && t < |ss[ks[j]].pcs| && ss[ks[j]].pcs[t] == Try(ss[n].hd.order[j], true)
  }

  /** A signaller at Begin at m has by n tried the first handlers, one for each of ks, and is at the last or goes on. */
  ghost predicate VisitTrace(ss: seq<State>, m: nat, n: nat, t: nat, ks: seq<nat>)
    requires m <= n < |ss|
  {
    && Tried(ss, m, n, t, ks)
    && t < |ss[n].pcs|
    && var pc, hs := ss[n].pcs[t], ss[n].hd.order;
       || (pc == Begin && ks == [])
       || (pc.Loop? && pc.h.Some? && |ks| < |hs| && pc.h.value == hs[|ks|])
       || (pc == Loop(None) && exists r :: m < r <= n && AtTheEnd(ss[r], t, |ks|))
       || (HandlerOf(pc).Some? && ks != [] && HandlerOf(pc).value == hs[|ks| - 1])
  }

  /** Thread t has read the end of the handlers, of which there are k. */
  ghost predicate AtTheEnd(s: State, t: nat, k: nat) {
    t < |s.pcs| && s.pcs[t] == Loop(None) && |s.hd.order| == k
  }

  /** What Go does to a state. */
  lemma GoIs(s: State, t: nat)
    requires Inv(s) && t < |s.pcs| && !s.pcs[t].Idle? && !s.pcs[t].Appending? && !s.pcs[t].Registering?
    ensures Possible(s, t, Go) && PcOk(|s.hd.next|, s.ev.order, s.pcs[t]) && |s.running| == |s.hd.next|
    ensures ChainOk(s.ev) && ChainOk(s.hd)
    ensures var (pc, running) := AfterGo(s, s.pcs[t]);
            Next(s, t, Go) == s.(pcs := s.pcs[t := pc], running := running)
  {
    hide ChainOk, LockOk, NodesOk, LastOk, PreviousOk, SampledInside, BitsOk, AfterGo;
  }

  /** A signaller among the handlers: from the first, through each, to the end. */
  lemma VisitAfterGo(s: State, pc: Pc, i: nat)
    requires ChainOk(s.ev) && ChainOk(s.hd) && |s.running| == |s.hd.next| && PcOk(|s.hd.next|, s.ev.order, pc)
    requires HandlerOf(pc).Some? ==> i < |s.hd.order| && HandlerOf(pc).value == s.hd.order[i]
    ensures var pc', hs := AfterGo(s, pc).0, s.hd.order;
            && (pc.Begin? ==> pc' == Loop(if hs == [] then None else Some(hs[0])))
            && (pc == Loop(None) ==> pc' == Idle)
            && (pc.Loop? && pc.h.Some? ==> pc' == Try(pc.h.value, true))
            && (HandlerOf(pc).Some? ==>
                  (HandlerOf(pc') == HandlerOf(pc) && !pc'.Try?)
                  || pc' == Loop(if i + 1 < |hs| then Some(hs[i + 1]) else None))
  {
    FirstIsNode(s.hd);
    if HandlerOf(pc).Some? {
      WalkStep(s.hd, i);
    }
    hide ChainOk;
  }

  lemma VisitTurn(threads: nat, ss: seq<State>, turns: seq<Turn>, m: nat, n: nat, t: nat, ks: seq<nat>)
    returns (ks': seq<nat>)
    requires Run(threads, ss, turns) && m <= n < |turns| && VisitTrace(ss, m, n, t, ks)
    ensures VisitTrace(ss, m, n + 1, t, ks')
            || (ks' == ks && ss[n].pcs[t] == Loop(None) && t < |ss[n + 1].pcs| && ss[n + 1].pcs[t] == Idle)
  {
    hide Inv, Next, Possible, Run, AfterGo, ChainOk, PcOk;
    TurnOf(threads, ss, turns, n, t);
    var s, s' := ss[n], ss[n + 1];
    ks' := ks;
    if turns[n].t == t {
      GoIs(s, t);
      var pc := s.pcs[t];
      VisitAfterGo(s, pc, if ks == [] then 0 else |ks| - 1);
      if pc.Loop? && pc.h.Some? {
        ks' := ks + [n + 1];
      } else if s'.pcs[t] == Loop(None) {
        assert AtTheEnd(s', t, |ks|);
      }
    }
  }

  /**
   * A signaller tries the handlers one after another from the first; when it is past them, it has tried all that
   * were linked when it read the end of them.
   */
  lemma {:induction false} SignallerTriesAll(threads: nat, ss: seq<State>, turns: seq<Turn>, m: nat, n: nat, t: nat)
    returns (l: nat, ks: seq<nat>)
    requires Run(threads, ss, turns) && m <= n <= |turns| && t < |ss[m].pcs| && ss[m].pcs[t] == Begin
    ensures m <= l <= n && l < |ss| && VisitTrace(ss, m, l, t, ks)
    ensures l == n || ss[l].pcs[t] == Loop(None)
  {
    assert |ss| == |turns| + 1;
    l, ks := m, [];
    if m < n {
      l, ks := SignallerTriesAll(threads, ss, turns, m, n - 1, t);
      hide Run, VisitTrace;
      if l == n - 1 {
        var ks' := VisitTurn(threads, ss, turns, m, n - 1, t, ks);
        if VisitTrace(ss, m, n, t, ks') {
          l, ks := n, ks';
        }
      }
    }
  }

  // ---- Appending an event ----------------------------------------------------------------------

  /** The node a thread appends is new since the list had `size` nodes, and is in the list once linked. */
  ghost predicate NewNode(l: Lane, p: Phase, size: nat) {
    && (HasNode(p) ==> size <= p.node)
    && (p.Linked? || p.Settled? ==> p.node in l.order)
  }

  /** A signaller that has entered is appending, with a new event, or has appended one. */
  ghost predicate AppendTrace(s: State, t: nat, size: nat) {
    t < |s.pcs| && t < |s.evPh| && s.pcs[t].Appending? && NewNode(s.ev, s.evPh[t], size)
  }

  /** Thread t has just left the list with an event of its own in it, new since there were `size` events. */
  ghost predicate Appended(s: State, s': State, t: nat, size: nat) {
    && t < |s.evPh| && t < |s'.pcs| && s'.pcs[t] == Begin
    && s.evPh[t].Settled? && size <= s.evPh[t].node && s.evPh[t].node in s'.ev.order
  }

  lemma AccessOfNew(l: Lane, ph: seq<Phase>, t: nat, a: Access, size: nat)
    requires LaneInv(l, ph) && t < |ph| && Enabled(l, ph[t], a) && NewNode(l, ph[t], size) && size <= |l.next|
    requires a.Link? && l.first.Some? ==> l.last.Some? && l.last.value < |l.next|
    ensures var (l', p) := Perform(l, ph, t, a); NewNode(l', p, size)
    ensures a.Drop? ==> size <= ph[t].node && ph[t].node in Perform(l, ph, t, a).0.order
  {
    hide LaneInv;
  }

  lemma AppendOwnTurn(s: State, t: nat, x: Action, size: nat)
    requires Inv(s) && t < |s.pcs| && Possible(s, t, x) && AppendTrace(s, t, size) && size <= |s.ev.next|
    ensures var s' := Next(s, t, x);
            AppendTrace(s', t, size) || Appended(s, s', t, size)
  {
    hide LaneInv, PcsOk, BitsOk, SampledInside, Perform, Enabled, NewNode;
    match x
    case EventAccess(a) =>
      CanPerform(s.ev, s.evPh, t, a);
      AccessOfNew(s.ev, s.evPh, t, a, size);
      DropHasNode(s.ev, s.evPh, t, a);
  }

  /** From entering to having appended a new event. */
  lemma {:induction false} SignallerAppends(threads: nat, ss: seq<State>, turns: seq<Turn>, m: nat, n: nat, t: nat)
    returns (k: nat)
    requires Run(threads, ss, turns) && m < n <= |turns| && turns[m] == Turn(t, StartSignal) && t < |ss[m].pcs|
    ensures m < k <= n < |ss| && |ss[m].ev.next| <= |ss[n].ev.next| && |ss[n].pcs| == |ss[m].pcs|
    ensures (k == n && AppendTrace(ss[n], t, |ss[m].ev.next|))
            || Appended(ss[k - 1], ss[k], t, |ss[m].ev.next|)
  {
    hide Inv, Possible, Run, AfterGo, AppendTrace, Appended, Stays;
    if n == m + 1 {
      TurnOf(threads, ss, turns, m, t);
      SignalStarts(ss[m], t);
      k := n;
    } else {
      hide Next;
      k := SignallerAppends(threads, ss, turns, m, n - 1, t);
      TurnOf(threads, ss, turns, n - 1, t);
      if k == n - 1 && AppendTrace(ss[k], t, |ss[m].ev.next|) {
        k := n;
        if turns[n - 1].t == t {
          AppendOwnTurn(ss[n - 1], t, turns[n - 1].x, |ss[m].ev.next|);
        } else {
          AppendStays(ss[n - 1], ss[n], t, |ss[m].ev.next|);
        }
      }
    }
  }

  lemma SignalStarts(s: State, t: nat)
    requires Inv(s) && t < |s.pcs| && Possible(s, t, StartSignal)
    ensures AppendTrace(Next(s, t, StartSignal), t, |s.ev.next|)
  {
    hide LaneInv, PcsOk, BitsOk, SampledInside;
  }

  lemma AppendStays(s: State, s': State, t: nat, size: nat)
    requires AppendTrace(s, t, size) && Stays(s, s', t) && Grows(s, s')
    ensures AppendTrace(s', t, size)
  {
  }

  // ---- Registering a handler -------------------------------------------------------------------

  ghost predicate RegisterTrace(s: State, t: nat, size: nat) {
    t < |s.pcs| && t < |s.hdPh| && s.pcs[t].Registering? && NewNode(s.hd, s.hdPh[t], size)
  }

  /** Thread t is about to try handler h, which is linked, and new since there were `size` handlers. */
  ghost predicate TriesNew(s: State, t: nat, h: nat, size: nat) {
    t < |s.pcs| && s.pcs[t] == Try(h, false) && h in s.hd.order && size <= h
  }

  lemma RegisterOwnTurn(s: State, t: nat, x: Action, size: nat)
    requires Inv(s) && t < |s.pcs| && Possible(s, t, x) && RegisterTrace(s, t, size) && size <= |s.hd.next|
    ensures var s' := Next(s, t, x); RegisterTrace(s', t, size) || exists h: nat :: TriesNew(s', t, h, size)
  {
    hide LaneInv, PcsOk, BitsOk, SampledInside, Perform, Enabled, NewNode;
    match x
    case HandlerAccess(a) =>
      CanPerform(s.hd, s.hdPh, t, a);
      AccessOfNew(s.hd, s.hdPh, t, a, size);
      DropHasNode(s.hd, s.hdPh, t, a);
      if a.Drop? {
        assert TriesNew(Next(s, t, x), t, s.hdPh[t].node, size);
      }
  }

  lemma RegisterStarts(s: State, t: nat)
    requires Inv(s) && t < |s.pcs| && Possible(s, t, StartRegister)
    ensures RegisterTrace(Next(s, t, StartRegister), t, |s.hd.next|)
  {
    hide LaneInv, PcsOk, BitsOk, SampledInside;
  }

  lemma RegisterStays(s: State, s': State, t: nat, size: nat)
    requires RegisterTrace(s, t, size) && Stays(s, s', t) && Grows(s, s')
    ensures RegisterTrace(s', t, size)
  {
  }

  /** From the call to trying the new handler. */
  lemma {:induction false} RegistrantTries(threads: nat, ss: seq<State>, turns: seq<Turn>, m: nat, n: nat, t: nat)
    returns (k: nat, h: nat)
    requires Run(threads, ss, turns) && m < n <= |turns| && turns[m] == Turn(t, StartRegister) && t < |ss[m].pcs|
    ensures m < k <= n < |ss| && |ss[m].hd.next| <= |ss[n].hd.next| && |ss[n].pcs| == |ss[m].pcs|
    ensures (k == n && RegisterTrace(ss[n], t, |ss[m].hd.next|)) || TriesNew(ss[k], t, h, |ss[m].hd.next|)
  {
    hide Inv, Possible, Run, AfterGo, RegisterTrace, TriesNew, Stays;
    if n == m + 1 {
      TurnOf(threads, ss, turns, m, t);
      RegisterStarts(ss[m], t);
      k, h := n, 0;
    } else {
      hide Next;
      k, h := RegistrantTries(threads, ss, turns, m, n - 1, t);
      TurnOf(threads, ss, turns, n - 1, t);
      if k == n - 1 && RegisterTrace(ss[k], t, |ss[m].hd.next|) {
        k := n;
        if turns[n - 1].t == t {
          RegisterOwnTurn(ss[n - 1], t, turns[n - 1].x, |ss[m].hd.next|);
          if !RegisterTrace(ss[n], t, |ss[m].hd.next|) {
            h :| TriesNew(ss[n], t, h, |ss[m].hd.next|);
          }
        } else {
          RegisterStays(ss[n - 1], ss[n], t, |ss[m].hd.next|);
        }
      }
    }
  }

  // ---- Whole calls -----------------------------------------------------------------------------

  /**
   * A thread that has called KeRegisterEventHandler and is idle again has linked a new handler and tried it. Either
   * another thread was walking the events for it then, or this one has walked them, and delivered all that were
   * appended when it read the end of them.
   */
  lemma RegistrationRunsHandler(threads: nat, ss: seq<State>, turns: seq<Turn>, m: nat, n: nat, t: nat)
    returns (k: nat, h: nat)
    requires Run(threads, ss, turns) && m < n <= |turns| && turns[m] == Turn(t, StartRegister) && t < |ss[m].pcs|
    requires t < |ss[n].pcs| && ss[n].pcs[t].Idle?
    ensures m < k < n < |ss| && TriesNew(ss[k], t, h, |ss[m].hd.next|)
    ensures (exists l :: k <= l < n && Skips(ss[l], t, h)) || exists r :: k < r <= n && AllDelivered(ss[r], t, h)
  {
    assert |ss| == |turns| + 1;
    k, h := RegistrantTries(threads, ss, turns, m, n, t);
    hide Run, Skips, AllDelivered;
    TryIsAnswered(threads, ss, turns, k, n, t, h, false);
  }

  /**
   * A thread that has called KeSignalEvent and is idle again has appended a new event and then tried, one after
   * another, all handlers that were linked when it read the end of them.
   */
  lemma SignalTriesAllHandlers(threads: nat, ss: seq<State>, turns: seq<Turn>, m: nat, n: nat, t: nat)
    returns (k: nat, l: nat, ks: seq<nat>)
    requires Run(threads, ss, turns) && m < n <= |turns| && turns[m] == Turn(t, StartSignal) && t < |ss[m].pcs|
    requires t < |ss[n].pcs| && ss[n].pcs[t].Idle?
    ensures m < k < l < n < |ss|
    ensures Appended(ss[k - 1], ss[k], t, |ss[m].ev.next|)
    ensures Tried(ss, k, l, t, ks) && exists r :: k < r <= l && AtTheEnd(ss[r], t, |ks|)
  {
    assert |ss| == |turns| + 1;
    k := SignallerAppends(threads, ss, turns, m, n, t);
    hide Run, Tried, AtTheEnd;
    l, ks := SignallerTriesAll(threads, ss, turns, k, n, t);
  }

  /** Each of those tries is answered like a registrant's: the handler is skipped, or the events are walked for it. */
  lemma SignalRunsHandlers(
      threads: nat, ss: seq<State>, turns: seq<Turn>, k: nat, l: nat, n: nat, t: nat, ks: seq<nat>, j: nat)
    requires Run(threads, ss, turns) && k <= l <= n <= |turns| && t < |ss[n].pcs| && ss[n].pcs[t].Idle?
    requires Tried(ss, k, l, t, ks) && j < |ks|
    ensures var h := ss[l].hd.order[j];
            || (exists i :: ks[j] <= i < n && Skips(ss[i], t, h))
            || exists r :: ks[j] < r <= n && AllDelivered(ss[r], t, h)
  {
    assert |ss| == |turns| + 1;
    hide Run, Skips, AllDelivered;
    TryIsAnswered(threads, ss, turns, ks[j], n, t, ss[l].hd.order[j], true);
  }

  // ---- No thread is stuck ----------------------------------------------------------------------

  ghost predicate CanMove(s: State, t: nat)
    requires t < |s.pcs| == |s.evPh| == |s.hdPh|
  {
    exists x :: Possible(s, t, x)
  }

  /** Thread t waits for a spinlock that thread u holds. */
  ghost predicate WaitsFor(s: State, t: nat, u: nat)
    requires t < |s.pcs| == |s.evPh| == |s.hdPh|
  {
    || (s.pcs[t].Appending? && s.evPh[t].Waiting? && s.ev.lock == Some(u))
    || (s.pcs[t].Registering? && s.hdPh[t].Out? && s.hd.lock == Some(u))
  }

  /** Events are never allocated inside the lock, and a held lock is held by a thread. */
  ghost predicate Orderly(s: State) {
    && (forall t :: 0 <= t < |s.evPh| ==> !s.evPh[t].Entered?)
    && (s.ev.lock.Some? ==> s.ev.lock.value < |s.evPh|)
    && (s.hd.lock.Some? ==> s.hd.lock.value < |s.hdPh|)
  }

  lemma AccessIsOrderly(l: Lane, ph: seq<Phase>, t: nat, a: Access)
    requires t < |ph| && Enabled(l, ph[t], a)
    requires a.Link? && l.first.Some? ==> l.last.Some? && l.last.value < |l.next|
    ensures var (l', p) := Perform(l, ph, t, a);
            && (p.Entered? ==> a == Enter)
            && (l'.lock.Some? ==> l'.lock == Some(t) || l'.lock == l.lock)
  {
  }

  lemma StepIsOrderly(s: State, t: nat, x: Action)
    requires Inv(s) && Orderly(s) && t < |s.pcs| && Possible(s, t, x)
    ensures Orderly(Next(s, t, x))
  {
    hide LaneInv, PcsOk, BitsOk, SampledInside, Perform, Enabled, AfterGo;
    match x
    case EventAccess(a) =>
      CanPerform(s.ev, s.evPh, t, a);
      AccessIsOrderly(s.ev, s.evPh, t, a);
    case HandlerAccess(a) =>
      CanPerform(s.hd, s.hdPh, t, a);
      AccessIsOrderly(s.hd, s.hdPh, t, a);
    case _ =>
  }

  lemma TurnIsOrderly(s: State, turn: Turn, s': State)
    requires Inv(s) && Orderly(s) && Follows(s, turn, s')
    ensures Orderly(s')
  {
    hide Inv, Orderly, Next, Possible;
    StepIsOrderly(s, turn.t, turn.x);
  }

  lemma {:induction false} RunsAreOrderly(threads: nat, ss: seq<State>, turns: seq<Turn>, n: nat)
    requires Run(threads, ss, turns) && n <= |turns|
    ensures Orderly(ss[n])
  {
    hide Inv, Follows;
    if n > 0 {
      RunsAreOrderly(threads, ss, turns, n - 1);
      RunsKeepInv(threads, ss, turns, n - 1);
      hide Orderly;
      TurnIsOrderly(ss[n - 1], turns[n - 1], ss[n]);
    }
  }

  /** The access that comes next for an appending or registering thread. */
  function NextAccess(p: Phase, event: bool): Access {
    match p
    case Out => if event then Allocate else Enter
    case Entered => AllocateInside
    case Waiting(_) => Take
    case Holding(_) => Link
    case Linked(_) => SetLast
    case Settled(_) => Drop
  }

  lemma MovesUnlessWaiting(s: State, t: nat)
    requires Inv(s) && Orderly(s) && t < |s.pcs|
    ensures CanMove(s, t) || exists u: nat :: WaitsFor(s, t, u) && u != t
  {
    hide ChainOk, NodesOk, LastOk, PreviousOk, BitsOk, PcsOk;
    if s.pcs[t].Idle? {
      assert Possible(s, t, StartSignal);
    } else if s.pcs[t].Appending? {
      var x := EventAccess(NextAccess(s.evPh[t], true));
      if !Possible(s, t, x) {
        assert WaitsFor(s, t, s.ev.lock.value);
      }
    } else if s.pcs[t].Registering? {
      var x := HandlerAccess(NextAccess(s.hdPh[t], false));
      if !Possible(s, t, x) {
        assert WaitsFor(s, t, s.hd.lock.value);
      }
    } else {
      assert Possible(s, t, Go);
    }
  }

  lemma HolderMoves(s: State, t: nat, u: nat)
    requires Inv(s) && Orderly(s) && t < |s.pcs| && WaitsFor(s, t, u)
    ensures u < |s.pcs| && CanMove(s, u)
  {
    hide ChainOk, NodesOk, LastOk, PreviousOk, BitsOk, PcsOk;
    if s.pcs[t].Appending? {
      assert HoldsLock(s.evPh[u]);
      assert Possible(s, u, EventAccess(NextAccess(s.evPh[u], true)));
    } else {
      assert HoldsLock(s.hdPh[u]);
      assert Possible(s, u, HandlerAccess(NextAccess(s.hdPh[u], false)));
    }
  }

  /** At any time any thread can take a turn, or it waits for a spinlock whose holder can. */
  lemma NobodyIsStuck(threads: nat, ss: seq<State>, turns: seq<Turn>, n: nat, t: nat)
    requires Run(threads, ss, turns) && n <= |turns| && t < |ss[n].pcs|
    ensures |ss[n].pcs| == |ss[n].evPh| == |ss[n].hdPh|
    ensures CanMove(ss[n], t)
            || exists u: nat :: u < |ss[n].pcs| && u != t && WaitsFor(ss[n], t, u) && CanMove(ss[n], u)
  {
    RunsKeepInv(threads, ss, turns, n);
    RunsAreOrderly(threads, ss, turns, n);
    MovesUnlessWaiting(ss[n], t);
    hide LaneInv, PcsOk, BitsOk, SampledInside, Orderly, CanMove, WaitsFor;
    if !CanMove(ss[n], t) {
      var u: nat :| WaitsFor(ss[n], t, u) && u != t;
      HolderMoves(ss[n], t, u);
    }
  }
}
