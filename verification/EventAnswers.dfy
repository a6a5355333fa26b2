/** Whole calls of KeOpenEvent and KeRegisterEventHandler for an id in any interleaving: they are answered. */
module EventAnswers {
  import opened EventObjects
  import opened Options

  lemma TurnOf(threads: nat, ss: seq<State>, turns: seq<Turn>, k: nat)
    requires Run(threads, ss, turns) && k < |turns|
    ensures |ss| == |turns| + 1 && Inv(ss[k]) && Possible(ss[k], turns[k]) && |ss[k + 1].pcs| == |ss[k].pcs|
    ensures turns[k].Go? && ss[k].pcs[turns[k].t].Name? ==> ss[k].pcs[turns[k].t].obj < |ss[k].ids|
    ensures ss[k + 1] == Next(ss[k], turns[k])
  {
    RunsKeepInv(threads, ss, turns, k);
    assert Follows(ss[k], turns[k], ss[k + 1]);
    StepKeeps(ss[k], turns[k]);
  }

  /** Thread t makes no other call from turn m + 1 on up to turn n. */
  ghost predicate OneCall(turns: seq<Turn>, m: nat, n: nat, t: nat)
    requires n <= |turns|
  {
    forall k :: m < k < n ==> !(turns[k].Call? && turns[k].t == t)
  }

  /** The call has created the object. */
  ghost predicate Creates(ss: seq<State>, m: nat, n: nat, t: nat)
    requires m <= n < |ss|
  {
    exists k :: m < k <= n && t < |ss[k].pcs| && ss[k].pcs[t].Name?
  }

  /** What a call for an id is at, according to whether it opens and has created the object. */
  ghost predicate Calling(pc: Pc, opens: bool, id: nat, created: bool) {
    && !pc.Idle? && pc.opens == opens && pc.id == id
    && match pc
       case Acquire(_, _, retries) => retries == (if created then 1 else 0) && (created ==> opens)
       case Scan(_, _, retries, _) => retries == (if created then 1 else 0) && (created ==> opens)
       case Name(_, _, retries, _) => retries == 0 && created
       case Release(_, _, retries, _, again) =>
         if again then opens && created && retries == 0
         else retries == if opens && created then 1 else 0
       case Returned(_, _, retries, _) => retries == if opens && created then 1 else 0
       case _ => false
  }

  lemma OwnTurn(s: State, t: nat, opens: bool, id: nat, created: bool)
    requires Inv(s) && t < |s.pcs| && Possible(s, Go(t)) && Calling(s.pcs[t], opens, id, created)
    ensures s.pcs[t].Name? ==> s.pcs[t].obj < |s.ids|
    ensures t < |Next(s, Go(t)).pcs|
    ensures var pc' := Next(s, Go(t)).pcs[t]; Calling(pc', opens, id, created || pc'.Name?)
  {
    assert PcOk(s, s.pcs[t]);
    if s.pcs[t].Scan? && s.pcs[t].retries == 1 {
      var obj: nat :| Bears(s, obj, s.pcs[t].id);
      assert s.ids[obj] == s.pcs[t].id;
    }
  }

  /**
   * From its call on a thread is calling for that id, or has been answered: it is not idle again. An open that has
   * created the object calls itself once, one that found it not at all, and a registration never.
   */
  lemma {:induction false} CallGoesOn(
      threads: nat, ss: seq<State>, turns: seq<Turn>, m: nat, n: nat, t: nat, opens: bool, id: nat)
    requires Run(threads, ss, turns) && m < n <= |turns| && turns[m] == Call(t, opens, id) && OneCall(turns, m, n, t)
    ensures |ss| == |turns| + 1 && t < |ss[n].pcs| && Calling(ss[n].pcs[t], opens, id, Creates(ss, m, n, t))
  {
    TurnOf(threads, ss, turns, n - 1);
    if n > m + 1 {
      CallGoesOn(threads, ss, turns, m, n - 1, t, opens, id);
      var s, s' := ss[n - 1], ss[n];
      if turns[n - 1].t == t {
        OwnTurn(s, t, opens, id, Creates(ss, m, n - 1, t));
      }
      CreatesGrows(ss, m, n - 1, t);
    }
  }

  lemma CreatesGrows(ss: seq<State>, m: nat, n: nat, t: nat)
    requires m <= n && n + 1 < |ss| && t < |ss[n + 1].pcs|
    ensures Creates(ss, m, n + 1, t) <==> Creates(ss, m, n, t) || ss[n + 1].pcs[t].Name?
  {
    if Creates(ss, m, n, t) {
      var k :| m < k <= n && t < |ss[k].pcs| && ss[k].pcs[t].Name?;
    }
  }

  /** A call that has returned has been answered with an object that bears the id asked for. */
  lemma AnswerBearsId(
      threads: nat, ss: seq<State>, turns: seq<Turn>, m: nat, n: nat, t: nat, opens: bool, id: nat)
    requires Run(threads, ss, turns) && m < n <= |turns| && turns[m] == Call(t, opens, id) && OneCall(turns, m, n, t)
    requires t < |ss[n].pcs| && ss[n].pcs[t].Returned?
    ensures ss[n].pcs[t].obj < |ss[n].ids| && ss[n].ids[ss[n].pcs[t].obj] == id && !Unnamed(ss[n].pcs, ss[n].pcs[t].obj)
    ensures ss[n].pcs[t].retries == if opens && Creates(ss, m, n, t) then 1 else 0
  {
    CallGoesOn(threads, ss, turns, m, n, t, opens, id);
    RunsKeepInv(threads, ss, turns, n);
    assert PcOk(ss[n], ss[n].pcs[t]);
  }

  // ---- Calls end -------------------------------------------------------------------------------

  /** How far a call is from its answer, in three parts of which earlier ones weigh more. */
  function Distance(pc: Pc, objects: nat): (int, int, int) {
    match pc
    case Idle => (0, 0, 0)
    case Acquire(_, _, retries) => (1 - retries, 4, 0)
    case Scan(_, _, retries, i) => (1 - retries, 3, objects - i)
    case Name(_, _, retries, _) => (1 - retries, 2, 0)
    case Release(_, _, retries, _, _) => (1 - retries, 1, 0)
    case Returned(_, _, retries, _) => (1 - retries, 0, 0)
  }

  predicate Nearer(a: (int, int, int), b: (int, int, int)) {
    || 0 <= a.0 < b.0
    || (a.0 == b.0 && 0 <= a.1 < b.1)
    || (a.0 == b.0 && a.1 == b.1 && 0 <= a.2 < b.2)
  }

  /** Every turn of its own brings a call nearer to its answer, and no other thread's turn takes it farther away. */
  lemma TurnsBringNearer(s: State, turn: Turn, t: nat)
    requires Inv(s) && Possible(s, turn) && t < |s.pcs| && (turn.t == t ==> turn.Go?)
    ensures turn.Go? && s.pcs[turn.t].Name? ==> s.pcs[turn.t].obj < |s.ids|
    ensures var s' := Next(s, turn);
            && t < |s'.pcs|
            && var before, after := Distance(s.pcs[t], |s.ids|), Distance(s'.pcs[t], |s'.ids|);
               if turn.t == t then Nearer(after, before) else after == before
  {
    assert PcOk(s, s.pcs[turn.t]) && PcOk(s, s.pcs[t]);
    if turn.t != t && s.pcs[t].Scan? {
      assert Holds(s.pcs[t]) && !Holds(s.pcs[turn.t]);
    }
  }

  lemma {:induction false} LockIsHeld(threads: nat, ss: seq<State>, turns: seq<Turn>, n: nat)
    requires Run(threads, ss, turns) && n <= |turns|
    ensures ss[n].sl.Some? ==> ss[n].sl.value < |ss[n].pcs|
  {
    if n > 0 {
      LockIsHeld(threads, ss, turns, n - 1);
      TurnOf(threads, ss, turns, n - 1);
    }
  }

  /** A thread that is calling can take a turn, or waits for the spinlock whose holder can. */
  lemma NobodyIsStuck(threads: nat, ss: seq<State>, turns: seq<Turn>, n: nat, t: nat)
    requires Run(threads, ss, turns) && n <= |turns| && t < |ss[n].pcs|
    requires !ss[n].pcs[t].Idle? && !ss[n].pcs[t].Returned?
    ensures Possible(ss[n], Go(t))
            || (ss[n].pcs[t].Acquire? && exists u: nat :: u != t && ss[n].sl == Some(u) && Possible(ss[n], Go(u)))
  {
    RunsKeepInv(threads, ss, turns, n);
    LockIsHeld(threads, ss, turns, n);
    if ss[n].sl.Some? {
      assert Holds(ss[n].pcs[ss[n].sl.value]);
    }
  }
}
