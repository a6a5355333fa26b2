/**
 * Finding or creating the event object for an id, under any interleaving of threads that open events and
 * threads that register handlers. All of it happens under one spinlock, but in many steps: the objects are
 * enumerated one by one, and a new object exists, zeroed, before it is given its id.
 */
module EventObjects {
  import opened Options

  /**
   * A thread: idle, or calling for an id. `retries` counts the recursive calls KeOpenEvent has made of itself;
   * a registration makes none.
   */
  datatype Pc =
    | Idle
    | Acquire(opens: bool, id: nat, retries: nat)
    | Scan(opens: bool, id: nat, retries: nat, i: nat)
    | Name(opens: bool, id: nat, retries: nat, obj: nat)
    | Release(opens: bool, id: nat, retries: nat, obj: nat, again: bool)
    | Returned(opens: bool, id: nat, retries: nat, obj: nat)

  /** The ids of the event objects in the order of enumeration, the spinlock, and the threads. */
  datatype State = State(ids: seq<nat>, sl: Option<nat>, pcs: seq<Pc>)

  datatype Turn = Call(t: nat, opens: bool, id: nat) | Go(t: nat)

  function Boot(threads: nat): State {
    State([], None, seq(threads, _ => Idle))
  }

  predicate Holds(pc: Pc) {
    pc.Scan? || pc.Name? || pc.Release?
  }

  /** A thread can take a turn unless it would wait for the spinlock. A call may be made when the last one is over. */
  predicate Possible(s: State, turn: Turn) {
    turn.t < |s.pcs| &&
    match turn
    case Call(t, _, _) => s.pcs[t].Idle? || s.pcs[t].Returned?
    case Go(t) =>
      !(s.pcs[t].Idle? || s.pcs[t].Returned?) && (s.pcs[t].Acquire? ==> s.sl == None)
  }

  function Next(s: State, turn: Turn): State
    requires Possible(s, turn)
    requires turn.Go? && s.pcs[turn.t].Name? ==> s.pcs[turn.t].obj < |s.ids|
  {
    var t := turn.t;
    match turn
    case Call(_, opens, id) => s.(pcs := s.pcs[t := Acquire(opens, id, 0)])
    case Go(_) =>
      match s.pcs[t]
      case Acquire(opens, id, retries) => s.(sl := Some(t), pcs := s.pcs[t := Scan(opens, id, retries, 0)])
      case Scan(opens, id, retries, i) =>
        if i >= |s.ids| then
          // ObCreateObject: the new object is enumerable at once, with the id its zeroed memory shows
          s.(ids := s.ids + [0], pcs := s.pcs[t := Name(opens, id, retries, |s.ids|)])
        else if s.ids[i] == id then
          s.(pcs := s.pcs[t := Release(opens, id, retries, i, false)])
        else
          s.(pcs := s.pcs[t := Scan(opens, id, retries, i + 1)])
      case Name(opens, id, retries, obj) =>
        s.(ids := s.ids[obj := id], pcs := s.pcs[t := Release(opens, id, retries, obj, opens)])
      case Release(opens, id, retries, obj, again) =>
        s.(sl := None,
           pcs := s.pcs[t := if again then Acquire(opens, id, retries + 1) else Returned(opens, id, retries, obj)])
      case _ => s
  }

  // ---- The invariant -------------------------------------------------------------------------

  /** The object was created and has not been given its id. */
  ghost predicate Unnamed(pcs: seq<Pc>, obj: nat) {
    exists t :: 0 <= t < |pcs| && pcs[t].Name? && pcs[t].obj == obj
  }

  /** The object obj is there and bears the id for good. */
  ghost predicate Bears(s: State, obj: nat, id: nat) {
    obj < |s.ids| && s.ids[obj] == id && !Unnamed(s.pcs, obj)
  }

  ghost predicate Exists(s: State, id: nat) {
    exists obj: nat :: Bears(s, obj, id)
  }

  /** What a thread knows. After one recursive call of KeOpenEvent the object is there. */
  ghost predicate PcOk(s: State, pc: Pc) {
    match pc
    case Idle => true
    case Acquire(opens, id, retries) => retries <= 1 && (retries == 1 ==> opens && Exists(s, id))
    case Scan(opens, id, retries, i) =>
      && retries <= 1 && (retries == 1 ==> opens && Exists(s, id))
      && i <= |s.ids| && forall j :: 0 <= j < i ==> s.ids[j] != id
    case Name(opens, id, retries, obj) =>
      && retries == 0 && obj == |s.ids| - 1 && s.ids[obj] == 0
      && forall j :: 0 <= j < obj ==> s.ids[j] != id
    case Release(opens, id, retries, obj, again) =>
      retries <= 1 && (again ==> opens && retries == 0) && (retries == 1 ==> opens) && Bears(s, obj, id)
    case Returned(opens, id, retries, obj) => retries <= 1 && (retries == 1 ==> opens) && Bears(s, obj, id)
  }

  ghost predicate LockOk(s: State) {
    forall t :: 0 <= t < |s.pcs| ==> (Holds(s.pcs[t]) <==> s.sl == Some(t))
  }

  /** No two objects that have been given their ids share one. */
  ghost predicate Unique(s: State) {
    forall i, j, id :: i < j && Bears(s, i, id) ==> !Bears(s, j, id)
  }

  ghost predicate Inv(s: State) {
    && LockOk(s)
    && Unique(s)
    && forall t :: 0 <= t < |s.pcs| ==> PcOk(s, s.pcs[t])
  }

  // ---- Each turn keeps the invariant ---------------------------------------------------------

  /** Objects that bear an id keep it. */
  lemma BearingStays(s: State, turn: Turn, obj: nat, id: nat)
    requires Inv(s) && Possible(s, turn) && Bears(s, obj, id)
    ensures turn.Go? && s.pcs[turn.t].Name? ==> s.pcs[turn.t].obj < |s.ids|
    ensures Bears(Next(s, turn), obj, id)
  {
  }

  /** Whatever one thread does, the others' knowledge stays true. */
  lemma OthersKeep(s: State, turn: Turn, u: nat)
    requires Inv(s) && Possible(s, turn) && u < |s.pcs| && u != turn.t
    ensures turn.Go? && s.pcs[turn.t].Name? ==> s.pcs[turn.t].obj < |s.ids|
    ensures PcOk(Next(s, turn), s.pcs[u])
  {
    assert PcOk(s, s.pcs[turn.t]) && PcOk(s, s.pcs[u]);
    var pc := s.pcs[u];
    if (pc.Acquire? || pc.Scan?) && pc.retries == 1 {
      var obj: nat :| Bears(s, obj, pc.id);
      BearingStays(s, turn, obj, pc.id);
    } else if pc.Release? || pc.Returned? {
      BearingStays(s, turn, pc.obj, pc.id);
    }
    if Holds(pc) {
      assert s.sl == Some(u);
      assert !Holds(s.pcs[turn.t]);
    }
  }

  /** Nobody is naming while another thread holds the lock. */
  lemma OnlyHolderNames(s: State, t: nat, obj: nat)
    requires LockOk(s) && t < |s.pcs| && Holds(s.pcs[t])
    ensures Unnamed(s.pcs, obj) <==> s.pcs[t].Name? && s.pcs[t].obj == obj
  {
  }

  lemma LockKept(s: State, turn: Turn)
    requires Inv(s) && Possible(s, turn)
    ensures turn.Go? && s.pcs[turn.t].Name? ==> s.pcs[turn.t].obj < |s.ids|
    ensures LockOk(Next(s, turn)) && |Next(s, turn).pcs| == |s.pcs|
  {
  }

  /** The thread that takes the turn learns only what is true. */
  lemma OwnKeeps(s: State, turn: Turn)
    requires Inv(s) && Possible(s, turn)
    ensures turn.Go? && s.pcs[turn.t].Name? ==> s.pcs[turn.t].obj < |s.ids|
    ensures turn.t < |Next(s, turn).pcs| && PcOk(Next(s, turn), Next(s, turn).pcs[turn.t])
  {
    var t := turn.t;
    var pc := s.pcs[t];
    assert PcOk(s, pc);
    LockKept(s, turn);
    var s' := Next(s, turn);
    if (pc.Acquire? || pc.Scan?) && pc.retries == 1 && turn.Go? {
      var obj: nat :| Bears(s, obj, pc.id);
      BearingStays(s, turn, obj, pc.id);
    }
    if turn.Go? && pc.Release? {
      BearingStays(s, turn, pc.obj, pc.id);
      assert Bears(s', pc.obj, pc.id);
    }
    if turn.Go? && (pc.Scan? || pc.Name?) {
      OnlyHolderNames(s', t, if pc.Scan? then pc.i else pc.obj);
    }
  }

  /** A new name is new. */
  lemma UniqueKept(s: State, turn: Turn)
    requires Inv(s) && Possible(s, turn)
    ensures turn.Go? && s.pcs[turn.t].Name? ==> s.pcs[turn.t].obj < |s.ids|
    ensures Unique(Next(s, turn))
  {
    var t := turn.t;
    assert PcOk(s, s.pcs[t]);
    var s' := Next(s, turn);
    forall i: nat, id | Bears(s', i, id)
      ensures Bears(s, i, id) || (turn.Go? && s.pcs[t].Name? && i == s.pcs[t].obj && id == s.pcs[t].id)
    {
      BornOrBorne(s, turn, i, id);
    }
  }

  lemma BornOrBorne(s: State, turn: Turn, i: nat, id: nat)
    requires Inv(s) && Possible(s, turn)
    requires turn.Go? && s.pcs[turn.t].Name? ==> s.pcs[turn.t].obj < |s.ids|
    requires Bears(Next(s, turn), i, id)
    ensures Bears(s, i, id) || (turn.Go? && s.pcs[turn.t].Name? && i == s.pcs[turn.t].obj && id == s.pcs[turn.t].id)
  {
    var t := turn.t;
    var s' := Next(s, turn);
    forall u | 0 <= u < |s.pcs| && u != t
      ensures !(s.pcs[u].Name? && s.pcs[u].obj == i)
    {
      assert s'.pcs[u] == s.pcs[u];
    }
    if turn.Go? && s.pcs[t].Scan? && s.pcs[t].i >= |s.ids| {
      assert s'.pcs[t].Name?;
    }
  }

  lemma StepKeeps(s: State, turn: Turn)
    requires Inv(s) && Possible(s, turn)
    ensures turn.Go? && s.pcs[turn.t].Name? ==> s.pcs[turn.t].obj < |s.ids|
    ensures Inv(Next(s, turn)) && |Next(s, turn).pcs| == |s.pcs|
  {
    LockKept(s, turn);
    UniqueKept(s, turn);
    OwnKeeps(s, turn);
    var s' := Next(s, turn);
    forall u | 0 <= u < |s'.pcs|
      ensures PcOk(s', s'.pcs[u])
    {
      if u != turn.t {
        OthersKeep(s, turn, u);
      }
    }
  }

  // ---- Every interleaving --------------------------------------------------------------------

  ghost predicate Follows(s: State, turn: Turn, s': State) {
    Inv(s) ==>
      && Possible(s, turn)
      && (turn.Go? && s.pcs[turn.t].Name? ==> s.pcs[turn.t].obj < |s.ids|)
      && s' == Next(s, turn)
  }

  ghost predicate Run(threads: nat, ss: seq<State>, turns: seq<Turn>) {
    && |ss| == |turns| + 1
    && ss[0] == Boot(threads)
    && forall i :: 0 <= i < |turns| ==> Follows(ss[i], turns[i], ss[i + 1])
  }

  lemma {:induction false} RunsKeepInv(threads: nat, ss: seq<State>, turns: seq<Turn>, n: nat)
    requires Run(threads, ss, turns) && n <= |turns|
    ensures Inv(ss[n])
  {
    if n > 0 {
      RunsKeepInv(threads, ss, turns, n - 1);
      assert Follows(ss[n - 1], turns[n - 1], ss[n]);
      StepKeeps(ss[n - 1], turns[n - 1]);
    }
  }

  ghost predicate Naming(s: State) {
    exists t :: 0 <= t < |s.pcs| && s.pcs[t].Name?
  }

  ghost predicate DistinctIds(s: State) {
    forall i, j :: 0 <= i < j < |s.ids| ==> s.ids[i] != s.ids[j]
  }

  lemma IdsAreDistinctIff(s: State)
    requires Inv(s)
    ensures DistinctIds(s) <==> !(Naming(s) && Exists(s, 0))
  {
    if Naming(s) {
      var t :| 0 <= t < |s.pcs| && s.pcs[t].Name?;
      var n := s.pcs[t].obj;
      assert PcOk(s, s.pcs[t]);
      forall i: nat
        ensures Unnamed(s.pcs, i) <==> i == n
      {
        OnlyHolderNames(s, t, i);
      }
      if Exists(s, 0) {
        var obj: nat :| Bears(s, obj, 0);
        assert obj < n && s.ids[obj] == s.ids[n];
      } else {
        forall i, j | 0 <= i < j < |s.ids|
          ensures s.ids[i] != s.ids[j]
        {
          assert Bears(s, i, s.ids[i]);
          assert j < n ==> Bears(s, j, s.ids[j]);
        }
      }
    } else {
      forall i, j | 0 <= i < j < |s.ids|
        ensures s.ids[i] != s.ids[j]
      {
        assert Bears(s, i, s.ids[i]) && Bears(s, j, s.ids[j]);
      }
    }
  }

  /**
   * At any time of any interleaving, the ids that an enumeration would show are all different exactly unless a
   * new object is waiting for its id while an event of id 0 exists.
   */
  lemma RawIdsRepeatWhileNaming(threads: nat, ss: seq<State>, turns: seq<Turn>, n: nat)
    requires Run(threads, ss, turns) && n <= |turns|
    ensures !DistinctIds(ss[n]) <==> Naming(ss[n]) && Exists(ss[n], 0)
  {
    RunsKeepInv(threads, ss, turns, n);
    IdsAreDistinctIff(ss[n]);
  }

  /** Whenever the spinlock is free, all event objects have different ids. */
  lemma OneObjectPerId(threads: nat, ss: seq<State>, turns: seq<Turn>, n: nat)
    requires Run(threads, ss, turns) && n <= |turns| && ss[n].sl == None
    ensures DistinctIds(ss[n])
  {
    RunsKeepInv(threads, ss, turns, n);
    IdsAreDistinctIff(ss[n]);
    assert forall t :: 0 <= t < |ss[n].pcs| ==> !Holds(ss[n].pcs[t]);
  }

  /** Calls for the same id, opening or registering, by any threads at any times, are answered with the same object. */
  lemma SameIdSameObject(
      threads: nat, ss: seq<State>, turns: seq<Turn>, m: nat, n: nat, t: nat, u: nat)
    requires Run(threads, ss, turns) && m <= n <= |turns| && t < |ss[m].pcs| && u < |ss[n].pcs|
    requires ss[m].pcs[t].Returned? && ss[n].pcs[u].Returned? && ss[m].pcs[t].id == ss[n].pcs[u].id
    ensures ss[m].pcs[t].obj == ss[n].pcs[u].obj
  {
    RunsKeepInv(threads, ss, turns, m);
    RunsKeepInv(threads, ss, turns, n);
    var a, b := ss[m].pcs[t], ss[n].pcs[u];
    assert PcOk(ss[m], a) && PcOk(ss[n], b);
    BearingLasts(threads, ss, turns, m, n, a.obj, a.id);
    assert Unique(ss[n]);
  }

  lemma {:induction false} BearingLasts(
      threads: nat, ss: seq<State>, turns: seq<Turn>, m: nat, n: nat, obj: nat, id: nat)
    requires Run(threads, ss, turns) && m <= n <= |turns| && Bears(ss[m], obj, id)
    ensures Bears(ss[n], obj, id)
  {
    if m < n {
      BearingLasts(threads, ss, turns, m, n - 1, obj, id);
      RunsKeepInv(threads, ss, turns, n - 1);
      assert Follows(ss[n - 1], turns[n - 1], ss[n]);
      BearingStays(ss[n - 1], turns[n - 1], obj, id);
    }
  }

  /**
   * KeOpenEvent calls itself at most once, and a call that has done so creates nothing more. A registration
   * never does.
   */
  lemma AtMostOneRetry(threads: nat, ss: seq<State>, turns: seq<Turn>, n: nat, t: nat)
    requires Run(threads, ss, turns) && n <= |turns| && t < |ss[n].pcs| && !ss[n].pcs[t].Idle?
    ensures ss[n].pcs[t].retries <= 1
    ensures ss[n].pcs[t].retries == 1 ==> ss[n].pcs[t].opens && !ss[n].pcs[t].Name?
    ensures ss[n].pcs[t].Scan? && ss[n].pcs[t].retries == 1 ==> ss[n].pcs[t].i < |ss[n].ids|
  {
    RunsKeepInv(threads, ss, turns, n);
    var s, pc := ss[n], ss[n].pcs[t];
    assert PcOk(s, pc);
    if pc.Scan? && pc.retries == 1 {
      var obj: nat :| Bears(s, obj, pc.id);
    }
  }

  // ---- A run that shows an id twice ----------------------------------------------------------

  ghost predicate Reachable(threads: nat, s: State) {
    exists ss, turns :: Run(threads, ss, turns) && ss[|turns|] == s
  }

  lemma Reach(threads: nat, s: State, turn: Turn) returns (s': State)
    requires Reachable(threads, s) && Possible(s, turn)
    ensures turn.Go? && s.pcs[turn.t].Name? ==> s.pcs[turn.t].obj < |s.ids|
    ensures s' == Next(s, turn) && Reachable(threads, s')
  {
    var ss, turns :| Run(threads, ss, turns) && ss[|turns|] == s;
    RunsKeepInv(threads, ss, turns, |turns|);
    StepKeeps(s, turn);
    s' := Next(s, turn);
    var ss', turns' := ss + [s'], turns + [turn];
    assert Follows(s, turn, s');
    hide Follows;
    forall i | 0 <= i < |turns'|
      ensures Follows(ss'[i], turns'[i], ss'[i + 1])
    {
      if i < |turns| {
        assert Follows(ss[i], turns[i], ss[i + 1]);
      }
    }
    assert Run(threads, ss', turns') && ss'[|turns'|] == s';
  }

  /** One thread registers a handler for event 0, and later for another event, whose object is new. */
  lemma NamingMayShowZeroTwice(id: nat) returns (s: State)
    requires id != 0
    ensures Reachable(1, s) && s.ids == [0, 0]
  {
    s := Boot(1);
    var none: seq<Turn> := [];
    assert Run(1, [s], none) && [s][|none|] == s;
    hide Reachable;
    s := Reach(1, s, Call(0, false, 0));
    s := Reach(1, s, Go(0));
    s := Reach(1, s, Go(0));
    s := Reach(1, s, Go(0));
    s := Reach(1, s, Go(0));
    assert s == State([0], None, [Returned(false, 0, 0, 0)]);
    s := Reach(1, s, Call(0, false, id));
    s := Reach(1, s, Go(0));
    s := Reach(1, s, Go(0));
    s := Reach(1, s, Go(0));
  }

  /** One thread opens an event that does not exist: it creates the object, calls itself once and is answered. */
  lemma OpeningMayCreate(id: nat) returns (s: State)
    ensures Reachable(1, s) && s == State([id], None, [Returned(true, id, 1, 0)])
  {
    s := Boot(1);
    var none: seq<Turn> := [];
    assert Run(1, [s], none) && [s][|none|] == s;
    hide Reachable;
    s := Reach(1, s, Call(0, true, id));
    s := Reach(1, s, Go(0));
    s := Reach(1, s, Go(0));
    s := Reach(1, s, Go(0));
    s := Reach(1, s, Go(0));
    assert s == State([id], None, [Acquire(true, id, 1)]);
    s := Reach(1, s, Go(0));
    s := Reach(1, s, Go(0));
    s := Reach(1, s, Go(0));
  }
}
