/**
 The life of a process and of a container, said of each step without the step function: in which state
 it is afterwards, and by what.  And over runs: a process that is woken, yields or is new gets to run.
 */
module ProcessLife {
  import opened Common
  import opened Containers
  import opened Scheduler

  /** The scheduler looks at the slot of r. */
  predicate Picks(s: State, e: Event, r: Ref) {
    e == Visit(r.c) && r.c < |s.conts| && s.conts[r.c].nextproc == r.k
  }

  /** wait frees the slot of r. */
  predicate Reaps(e: Event, r: Ref) {
    e.Reap? && e.p.c == r.c && e.k == r.k
  }

  /** fork takes the slot of r. */
  predicate Takes(e: Event, r: Ref) {
    e.ForkTake? && e.np == r
  }

  lemma SameSlots(s: State, e: Event, r: Ref)
    requires Enabled(s, e) && InTable(s, r)
    ensures InTable(Apply(s, e), r)
  {
    TableStays(s, e);
  }

  /** A process is asleep if it has gone to sleep and not been woken; it can run if it has been let run, has
      yielded or was woken, and has not been picked since; it runs if it was picked and has not slept,
      yielded or exited since; it is a zombie from its exit until it is reaped. */
  lemma StatesExactly(s: State, e: Event, r: Ref)
    requires Enabled(s, e) && InTable(s, r)
    ensures InTable(Apply(s, e), r)
    ensures var st, st' := At(s, r).state, At(Apply(s, e), r).state;
            && (st' == Sleeping <==> e == Sleep(r) || (st == Sleeping && e != Wake(r)))
            && (st' == Runnable <==>
                  e == ForkRun(r) || e == Yield(r) || e == Wake(r) || (st == Runnable && !Picks(s, e, r)))
            && (st' == Running <==>
                  (st == Runnable && Picks(s, e, r)) ||
                  (st == Running && e != Sleep(r) && e != Yield(r) && e != ExitStore(r)))
            && (st' == Zombie <==> e == ExitStore(r) || (st == Zombie && !Reaps(e, r)))
            && (st' == Unused <==>
                  e == ForkNoStack(r) || e == ForkNoCopy(r) || Reaps(e, r) || (st == Unused && !Takes(e, r)))
  {
    hide Forking;
    SameSlots(s, e, r);
  }

  /** How far fork has got with a new process, and that its forker and its kind stay. */
  lemma StagesExactly(s: State, e: Event, r: Ref)
    requires Enabled(s, e) && InTable(s, r)
    ensures InTable(Apply(s, e), r)
    ensures var st, st' := At(s, r).state, At(Apply(s, e), r).state;
            && (st'.Embryo? && st'.stage == Taken <==>
                  Takes(e, r) || (st.Embryo? && st.stage == Taken && e != ForkNoStack(r) && e != ForkLoad(r)))
            && (st'.Embryo? && st'.stage.Loaded? <==>
                  e == ForkLoad(r) || (st.Embryo? && st.stage.Loaded? && e != ForkStore(r)))
            && (st'.Embryo? && st'.stage == Counted <==>
                  e == ForkStore(r) ||
                  (st.Embryo? && st.stage == Counted && e != ForkNoCopy(r) && e != ForkAdopt(r)))
            && (st'.Embryo? && st'.stage == Adopted <==>
                  e == ForkAdopt(r) || (st.Embryo? && st.stage == Adopted && e != ForkRun(r)))
            && (st'.Embryo? ==> if Takes(e, r) then st'.forker == e.p && st'.own == e.own
                                else st.Embryo? && st'.forker == st.forker && st'.own == st.own)
  {
    hide Forking;
    SameSlots(s, e, r);
  }

  /** Who the parent of a process is: who forked it, or initproc if it was put into another container or
      its parent has exited; no one before fork says so and after it was reaped. */
  lemma ParentsExactly(s: State, e: Event, r: Ref)
    requires Enabled(s, e) && InTable(s, r)
    ensures InTable(Apply(s, e), r)
    ensures var p, parent := At(s, r), At(Apply(s, e), r).parent;
            if e == ForkAdopt(r) then p.state.Embryo? && parent == Some(if p.state.own then p.state.forker else s.init)
            else if Reaps(e, r) then parent == None
            else if e.ExitStore? && e.p.c == r.c && p.parent == Some(e.p) && r.k < s.conts[r.c].mproc
            then parent == Some(s.init)
            else parent == p.parent
  {
    hide Forking;
    SameSlots(s, e, r);
  }

  // ----- Containers -----

  /** The step sets the state of container c to something else than it may be. */
  predicate Restates(s: State, e: Event, c: nat) {
    || (e.Set? && e.c == c) || (e.Kill? && e.p.c == c)
    || (e == Check(c) && c < |s.conts| && s.conts[c].uproc == 0)
  }

  /** When a call on a container gets past its test. */
  lemma TestsExactly(s: State, p: Ref, c: nat, what: Control)
    requires Enabled(s, Test(p, c, what))
    ensures c < |s.conts|
    ensures what == Start ==> s.conts[c].state == CReady
    ensures what == Pause ==> s.conts[c].state == CRunnable
    ensures what == Resume ==> s.conts[c].state == CPaused
    ensures what == Stop ==> s.conts[c].state == CRunnable || s.conts[c].state == CPaused
    ensures what != Start ==> p.c == s.init.c
  {
  }

  /** A container is unused until it is allocated, and once it is reclaimed or abandoned; it is ready once
      it is created. */
  lemma ContainersMade(s: State, e: Event, c: nat)
    requires Enabled(s, e) && c < |s.conts|
    ensures c < |Apply(s, e).conts|
    ensures var ct, ct' := s.conts[c], Apply(s, e).conts[c];
            && (ct'.state == CUnused <==>
                  || (e == Check(c) && ct.uproc == 0) || e == Abandon(c)
                  || (ct.state == CUnused && e != Alloc(c) && !Restates(s, e, c)))
            && (ct'.state == CEmbryo <==>
                  || e == Alloc(c)
                  || (ct.state == CEmbryo && e != Abandon(c) && !(e.Create? && e.c == c) && !Restates(s, e, c)))
            && (ct'.state == CReady <==> (e.Create? && e.c == c) || (ct.state == CReady && !Restates(s, e, c)))
  {
    hide Forking;
  }

  /** Then it is as the last call on it said. */
  lemma ContainersSet(s: State, e: Event, c: nat)
    requires Enabled(s, e) && c < |s.conts|
    ensures c < |Apply(s, e).conts|
    ensures var ct, ct' := s.conts[c], Apply(s, e).conts[c];
            && (ct'.state == CRunnable <==>
                  || (e.Set? && e.c == c && (e.what == Start || e.what == Resume))
                  || (ct.state == CRunnable && !Restates(s, e, c)))
            && (ct'.state == CPaused <==>
                  (e.Set? && e.c == c && e.what == Pause) || (ct.state == CPaused && !Restates(s, e, c)))
            && (ct'.state == CStopping <==>
                  || (e.Set? && e.c == c && e.what == Stop) || (e.Kill? && e.p.c == c)
                  || (ct.state == CStopping && !Restates(s, e, c)))
  {
    hide Forking;
  }

  /** Its slots, its count and its cursor. */
  lemma FieldsExactly(s: State, e: Event, c: nat)
    requires Enabled(s, e) && c < |s.conts|
    ensures c < |Apply(s, e).conts|
    ensures var ct, ct' := s.conts[c], Apply(s, e).conts[c];
            var gone := e == Check(c) && ct.uproc == 0;
            && ct'.mproc == (if e.Create? && e.c == c then e.mproc else if gone then 0 else ct.mproc)
            && ct'.uproc == (if e.ForkStore? && e.np.c == c then At(s, e.np).state.stage.v + 1
                             else if e.ExitStore? && e.p.c == c then s.lock.v - 1
                             else ct.uproc)
            && ct'.nextproc == (if e == Visit(c) then (if ct.nextproc + 1 == ct.mproc then 0 else ct.nextproc + 1)
                                else if gone then 0
                                else ct.nextproc)
  {
    hide Forking;
  }

  // ----- A process that can run will -----

  /** The process is dispatched by step j of the run. */
  ghost predicate RunsAt(s: State, es: seq<Event>, r: Ref, j: nat) {
    && j < |es| && es[j] == Visit(r.c) && Runs(s, es[..j]) && Runs(s, es[..j + 1])
    && RunningAt(After(s, es[..j + 1]), r)
  }

  /** Until it is dispatched it stays runnable. */
  lemma {:induction false} StillRunnable(s: State, es: seq<Event>, r: Ref, i: nat) returns (j: nat)
    requires Runs(s, es) && InTable(s, r) && At(s, r).state == Runnable && i <= |es|
    ensures Runs(s, es[..i]) && InTable(After(s, es[..i]), r)
    ensures At(After(s, es[..i]), r).state == Runnable || (j < i && RunsAt(s, es, r, j))
    decreases i
  {
    Prefix(s, es, i);
    j := 0;
    if i == 0 {
      assert es[..0] == [];
    } else {
      j := StillRunnable(s, es, r, i - 1);
      Prefix(s, es, i - 1);
      RunSnoc(s, es[..i]);
      assert es[..i][..i - 1] == es[..i - 1];
      hide Runs, After, Enabled, Apply;
      var t := After(s, es[..i - 1]);
      SameSlots(t, es[i - 1], r);
      StatesExactly(t, es[i - 1], r);
      if At(t, r).state == Runnable && At(After(s, es[..i]), r).state != Runnable {
        j := i - 1;
      }
    }
  }

  /** A process that can run in a container that stays runnable runs within mproc visits of the scheduler. */
  lemma RunnableRuns(s: State, es: seq<Event>, r: Ref) returns (j: nat)
    requires HasCursor(s, r.c) && Runs(s, es) && Steady(s, es, r.c) && InTable(s, r) && At(s, r).state == Runnable
    requires r.k < s.conts[r.c].mproc <= Visits(es, r.c)
    ensures RunsAt(s, es, r, j) && Visits(es[..j], r.c) < s.conts[r.c].mproc
  {
    hide Steady, Visits;
    var i := BoundedWaiting(s, es, r.c, r.k);
    j := StillRunnable(s, es, r, i);
    Reached(s, es, r, i);
    if At(After(s, es[..i]), r).state == Runnable {
      j := i;
    } else {
      FewerVisits(es, r.c, j, i);
    }
  }

  lemma Reached(s: State, es: seq<Event>, r: Ref, i: nat)
    requires Runs(s, es) && Examines(s, es, r.c, i, r.k) && InTable(After(s, es[..i]), r)
    ensures i < |es| && es[i] == Visit(r.c)
    ensures At(After(s, es[..i]), r).state == Runnable ==> RunsAt(s, es, r, i)
  {
    Prefix(s, es, i);
    Prefix(s, es, i + 1);
    RunSnoc(s, es[..i + 1]);
    assert es[..i + 1][..i] == es[..i];
    hide Runs, After, Enabled, Apply;
    StatesExactly(After(s, es[..i]), es[i], r);
  }

  lemma FewerVisits(es: seq<Event>, c: nat, j: nat, i: nat)
    requires j <= i <= |es|
    ensures Visits(es[..j], c) <= Visits(es[..i], c)
  {
    SplitVisits(es, c, j, i);
  }

  /** So does one that is woken, yields, or has just been forked. */
  lemma WokenRuns(s: State, e: Event, es: seq<Event>, r: Ref) returns (j: nat)
    requires Enabled(s, e) && InTable(s, r) && (e == Wake(r) || e == Yield(r) || e == ForkRun(r))
    requires var t := Apply(s, e);
             && HasCursor(t, r.c) && Runs(t, es) && Steady(t, es, r.c)
             && r.k < t.conts[r.c].mproc <= Visits(es, r.c)
    ensures RunsAt(Apply(s, e), es, r, j) && Visits(es[..j], r.c) < Apply(s, e).conts[r.c].mproc
  {
    hide Enabled, Apply;
    StatesExactly(s, e, r);
    j := RunnableRuns(Apply(s, e), es, r);
  }
}
