/**
 A call that comes too late.  cstop tests the state of a container before it takes the lock.  In the
 run below the last process of the container exits in between and the scheduler reclaims it; the
 store then makes a container without slots schedulable, and its cursor runs off the process table.
 */
module CursorRace {
  import opened Common
  import opened Containers

  const ROOT := Ref(0, 0)
  const CHILD := Ref(1, 0)

  function Rest(): seq<Proc> {
    seq(NPROC - 1, _ => Proc(Unused, None))
  }

  /** The root container with initproc running in it, alone. */
  function Root(n: nat): Cont {
    Cont(CRunnable, NPROC, 1, n, [Proc(Running, None)] + Rest())
  }

  /** A container with one process. */
  function Second(st: CState, mproc: int, uproc: int, n: nat, q: Proc): Cont {
    Cont(st, mproc, uproc, n, [q] + Rest())
  }

  ghost function World(s0: State, n: nat, ct: Cont, lock: Lock, calls: map<Ref, Call>): State
    requires |s0.conts| > 1
  {
    s0.(conts := s0.conts[0 := Root(n)][1 := ct], lock := lock, calls := calls)
  }

  ghost predicate Reached(s0: State, es: seq<Event>, n: nat, ct: Cont, lock: Lock, calls: map<Ref, Call>) {
    Initial(s0) && Runs(s0, es) && After(s0, es) == World(s0, n, ct, lock, calls)
  }

  function NextLock(ct: Cont, lock: Lock, e: Event): Lock {
    match e
    case ExitLoad(p) => InExit(p, ct.uproc)
    case ExitStore(p) => Back(p.c)
    case Sleep(p) => Back(p.c)
    case Yield(p) => Back(p.c)
    case Check(_) => Open
    case _ => lock
  }

  function NextCalls(calls: map<Ref, Call>, e: Event): map<Ref, Call> {
    match e
    case Test(p, c, what) => calls[p := Call(c, what)]
    case Set(p, _, _) => calls - {p}
    case _ => calls
  }

  /** A step of the second container. */
  lemma Then(s0: State, es: seq<Event>, n: nat, ct: Cont, lock: Lock, calls: map<Ref, Call>, e: Event)
    requires Reached(s0, es, n, ct, lock, calls) && Where(e) == 1 && Enabled(World(s0, n, ct, lock, calls), e)
    ensures Reached(s0, es + [e], n, Changed(ct, e, ROOT, lock), NextLock(ct, lock, e), NextCalls(calls, e))
  {
    hide Runs, After, Forking;
    Extend(s0, es, e);
    var s := World(s0, n, ct, lock, calls);
    assert s.conts[1] == ct && s.init == ROOT;
    assert Apply(s, e).conts == s0.conts[0 := Root(n)][1 := Changed(ct, e, ROOT, lock)];
  }

  lemma Shape(s0: State, n: nat, ct: Cont, lock: Lock, calls: map<Ref, Call>)
    requires Initial(s0)
    ensures var s := World(s0, n, ct, lock, calls);
            && |s.conts| == NCONT && s.conts[1] == ct && s.init == ROOT && s.lock == lock && s.calls == calls
            && RunningAt(s, ROOT)
  {
  }

  /** No one forks unless the process of the second container is new. */
  lemma NotForking(s0: State, n: nat, ct: Cont, lock: Lock, calls: map<Ref, Call>, q: Proc, p: Ref)
    requires Initial(s0) && ct.table == [q] + Rest() && !q.state.Embryo?
    ensures !Forking(World(s0, n, ct, lock, calls), p)
  {
    var s := World(s0, n, ct, lock, calls);
    forall r | InTable(s, r) ensures !At(s, r).state.Embryo? {
      if r.c == 0 { assert At(s, r) == Root(n).table[r.k]; }
      if r.c == 1 { assert At(s, r) == ct.table[r.k]; }
    }
  }

  lemma Put(q: Proc, p: Proc)
    ensures |[q] + Rest()| == NPROC && ([q] + Rest())[0] == q && ([q] + Rest())[0 := p] == [p] + Rest()
  {
  }

  // ----- The run -----

  /** initproc runs; the second container has been created with one slot, and started. */
  lemma Started(s0: State) returns (es: seq<Event>)
    requires Initial(s0)
    ensures Reached(s0, es, 1, Second(CRunnable, 1, 0, 0, Proc(Unused, None)), Open, map[])
  {
    var q := Proc(Unused, None);
    FirstVisit(s0);
    hide Reached, Initial, Forking, World;
    es := [] + [Visit(0)];
    Empty(s0, es, CUnused, 0, Alloc(1));
    es := es + [Alloc(1)];
    Empty(s0, es, CEmbryo, 0, Create(1, 1));
    es := es + [Create(1, 1)];
    Calls(s0, es, 1, Second(CReady, 1, 0, 0, q), q, Start);
    es := es + [Test(ROOT, 1, Start)];
    Sets(s0, es, 1, Second(CReady, 1, 0, 0, q), Start);
    es := es + [Set(ROOT, 1, Start)];
  }

  lemma FirstVisit(s0: State)
    requires Initial(s0)
    ensures Reached(s0, [] + [Visit(0)], 1, Second(CUnused, 0, 0, 0, Proc(Unused, None)), Open, map[])
  {
    var c0, c1 := s0.conts[0], s0.conts[1];
    assert c0.(table := []) == Cont(CRunnable, NPROC, 1, 0, []) && c1.(table := []) == Cont(CUnused, 0, 0, 0, []);
    assert Visited(c0).table == Root(1).table && c1.table == [Proc(Unused, None)] + Rest();
    assert Runs(s0, []);
    Extend(s0, [], Visit(0));
    assert Apply(s0, Visit(0)).conts == s0.conts[0 := Root(1)][1 := c1];
  }

  lemma Empty(s0: State, es: seq<Event>, st: CState, mproc: int, e: Event)
    requires Reached(s0, es, 1, Second(st, mproc, 0, 0, Proc(Unused, None)), Open, map[])
    requires (st == CUnused && e == Alloc(1)) || (st == CEmbryo && e == Create(1, 1))
    ensures Reached(s0, es + [e], 1, Changed(Second(st, mproc, 0, 0, Proc(Unused, None)), e, ROOT, Open), Open, map[])
  {
    Shape(s0, 1, Second(st, mproc, 0, 0, Proc(Unused, None)), Open, map[]);
    hide World, Runs, After, Initial;
    Then(s0, es, 1, Second(st, mproc, 0, 0, Proc(Unused, None)), Open, map[], e);
  }

  lemma Calls(s0: State, es: seq<Event>, n: nat, ct: Cont, q: Proc, what: Control)
    requires Reached(s0, es, n, ct, Open, map[]) && Admits(ct.state, what)
    requires ct.table == [q] + Rest() && !q.state.Embryo?
    ensures Reached(s0, es + [Test(ROOT, 1, what)], n, ct, Open, map[ROOT := Call(1, what)])
  {
    Shape(s0, n, ct, Open, map[]);
    NotForking(s0, n, ct, Open, map[], q, ROOT);
    hide World, Runs, After, Initial;
    Then(s0, es, n, ct, Open, map[], Test(ROOT, 1, what));
  }

  lemma Sets(s0: State, es: seq<Event>, n: nat, ct: Cont, what: Control)
    requires Reached(s0, es, n, ct, Open, map[ROOT := Call(1, what)])
    ensures Reached(s0, es + [Set(ROOT, 1, what)], n, ct.(state := Outcome(what)), Open, map[])
  {
    var calls := map[ROOT := Call(1, what)];
    Shape(s0, n, ct, Open, calls);
    hide World, Runs, After, Initial;
    Then(s0, es, n, ct, Open, calls, Set(ROOT, 1, what));
    assert calls - {ROOT} == map[];
  }

  /** initproc forks a process into the second container. */
  lemma Forked(s0: State, es0: seq<Event>) returns (es: seq<Event>)
    requires Reached(s0, es0, 1, Second(CRunnable, 1, 0, 0, Proc(Unused, None)), Open, map[])
    ensures Reached(s0, es, 1, Second(CRunnable, 1, 1, 0, Proc(Runnable, Some(ROOT))), Open, map[])
  {
    hide Reached;
    Take(s0, es0);
    es := es0 + [ForkTake(ROOT, CHILD, false)];
    ForkOn(s0, es, 0, Proc(Embryo(Taken, ROOT, false), None), ForkLoad(CHILD));
    es := es + [ForkLoad(CHILD)];
    ForkOn(s0, es, 0, Proc(Embryo(Loaded(0), ROOT, false), None), ForkStore(CHILD));
    es := es + [ForkStore(CHILD)];
    ForkOn(s0, es, 1, Proc(Embryo(Counted, ROOT, false), None), ForkAdopt(CHILD));
    es := es + [ForkAdopt(CHILD)];
    ForkOn(s0, es, 1, Proc(Embryo(Adopted, ROOT, false), Some(ROOT)), ForkRun(CHILD));
    es := es + [ForkRun(CHILD)];
  }

  lemma Take(s0: State, es: seq<Event>)
    requires Reached(s0, es, 1, Second(CRunnable, 1, 0, 0, Proc(Unused, None)), Open, map[])
    ensures Reached(s0, es + [ForkTake(ROOT, CHILD, false)], 1,
                    Second(CRunnable, 1, 0, 0, Proc(Embryo(Taken, ROOT, false), None)), Open, map[])
  {
    var q := Proc(Unused, None);
    var ct := Second(CRunnable, 1, 0, 0, q);
    Shape(s0, 1, ct, Open, map[]);
    NotForking(s0, 1, ct, Open, map[], q, ROOT);
    Put(q, Proc(Embryo(Taken, ROOT, false), None));
    hide World, Runs, After, Initial;
    Then(s0, es, 1, ct, Open, map[], ForkTake(ROOT, CHILD, false));
  }

  /** The count and the new process after a later step of fork. */
  function Next(u: int, p: Proc, e: Event): (int, Proc)
    requires ForkNext(p, e)
  {
    match e
    case ForkLoad(_) => (u, p.(state := p.state.(stage := Loaded(u))))
    case ForkStore(_) => (p.state.stage.v + 1, p.(state := p.state.(stage := Counted)))
    case ForkAdopt(_) => (u, Proc(p.state.(stage := Adopted), Some(ROOT)))
    case ForkRun(_) => (u, p.(state := Runnable))
    case _ => (u, Proc(Unused, None))
  }

  lemma ForkOn(s0: State, es: seq<Event>, u: int, q: Proc, e: Event)
    requires Reached(s0, es, 1, Second(CRunnable, 1, u, 0, q), Open, map[])
    requires e in {ForkLoad(CHILD), ForkStore(CHILD), ForkAdopt(CHILD), ForkRun(CHILD)}
    requires ForkNext(q, e) && q.state.forker == ROOT && !q.state.own
    ensures Reached(s0, es + [e], 1, Second(CRunnable, 1, Next(u, q, e).0, 0, Next(u, q, e).1), Open, map[])
  {
    var ct := Second(CRunnable, 1, u, 0, q);
    Shape(s0, 1, ct, Open, map[]);
    Put(q, Next(u, q, e).1);
    hide World, Runs, After, Initial;
    Then(s0, es, 1, ct, Open, map[], e);
  }

  /** The process runs, initproc is in cstop past its test, the process exits and the container is
      reclaimed, and initproc goes on. */
  lemma Stopped(s0: State, es0: seq<Event>) returns (es: seq<Event>)
    requires Reached(s0, es0, 1, Second(CRunnable, 1, 1, 0, Proc(Runnable, Some(ROOT))), Open, map[])
    ensures Reached(s0, es, 2, Second(CStopping, 0, 0, 0, Proc(Zombie, Some(ROOT))), Open, map[])
    ensures |es| > 3 && es[|es| - 2..] == [Check(1), Set(ROOT, 1, Stop)]
  {
    var calls := map[ROOT := Call(1, Stop)];
    var q, z := Proc(Running, Some(ROOT)), Proc(Zombie, Some(ROOT));
    PassesRoot(s0, es0, 1, Second(CRunnable, 1, 1, 0, Proc(Runnable, Some(ROOT))));
    hide Reached;
    es := es0 + [Visit(0)];
    Dispatch(s0, es);
    es := es + [Visit(1)];
    Calls(s0, es, 2, Second(CRunnable, 1, 1, 0, q), q, Stop);
    es := es + [Test(ROOT, 1, Stop)];
    Exits(s0, es);
    es := es + [ExitLoad(CHILD)] + [ExitStore(CHILD)] + [Check(1)];
    Sets(s0, es, 2, Second(CUnused, 0, 0, 0, z), Stop);
    es := es + [Set(ROOT, 1, Stop)];
  }

  /** A visit to the root container finds nothing to run. */
  lemma PassesRoot(s0: State, es: seq<Event>, n: nat, ct: Cont)
    requires Reached(s0, es, n, ct, Open, map[]) && n < NPROC
    ensures Reached(s0, es + [Visit(0)], if n + 1 == NPROC then 0 else n + 1, ct, Open, map[])
  {
    hide Runs, After;
    var s := World(s0, n, ct, Open, map[]);
    assert s.conts[0] == Root(n) && Root(n).table[n].state != Runnable;
    Extend(s0, es, Visit(0));
    assert Apply(s, Visit(0)).conts == s0.conts[0 := Visited(Root(n))][1 := ct];
  }

  lemma Dispatch(s0: State, es: seq<Event>)
    requires Reached(s0, es, 2, Second(CRunnable, 1, 1, 0, Proc(Runnable, Some(ROOT))), Open, map[])
    ensures Reached(s0, es + [Visit(1)], 2, Second(CRunnable, 1, 1, 0, Proc(Running, Some(ROOT))), Open, map[])
  {
    var ct := Second(CRunnable, 1, 1, 0, Proc(Runnable, Some(ROOT)));
    Shape(s0, 2, ct, Open, map[]);
    Put(Proc(Runnable, Some(ROOT)), Proc(Running, Some(ROOT)));
    hide World, Runs, After, Initial;
    Then(s0, es, 2, ct, Open, map[], Visit(1));
  }

  lemma Exits(s0: State, es: seq<Event>)
    requires Reached(s0, es, 2, Second(CRunnable, 1, 1, 0, Proc(Running, Some(ROOT))), Open, map[ROOT := Call(1, Stop)])
    ensures Reached(s0, es + [ExitLoad(CHILD)] + [ExitStore(CHILD)] + [Check(1)], 2,
                    Second(CUnused, 0, 0, 0, Proc(Zombie, Some(ROOT))), Open, map[ROOT := Call(1, Stop)])
  {
    var calls, q := map[ROOT := Call(1, Stop)], Proc(Running, Some(ROOT));
    var ct := Second(CRunnable, 1, 1, 0, q);
    Shape(s0, 2, ct, Open, calls);
    NotForking(s0, 2, ct, Open, calls, q, CHILD);
    ExitedTable(q);
    var ct' := Second(CRunnable, 1, 0, 0, Proc(Zombie, Some(ROOT)));
    Shape(s0, 2, ct, InExit(CHILD, 1), calls);
    Shape(s0, 2, ct', Back(1), calls);
    hide World, Runs, After, Initial;
    Then(s0, es, 2, ct, Open, calls, ExitLoad(CHILD));
    Then(s0, es + [ExitLoad(CHILD)], 2, ct, InExit(CHILD, 1), calls, ExitStore(CHILD));
    Then(s0, es + [ExitLoad(CHILD)] + [ExitStore(CHILD)], 2, ct', Back(1), calls, Check(1));
  }

  lemma ExitedTable(q: Proc)
    requires q == Proc(Running, Some(ROOT))
    ensures Exited(Second(CRunnable, 1, 1, 0, q), CHILD, ROOT, 1)
            == Second(CRunnable, 1, 0, 0, Proc(Zombie, Some(ROOT)))
  {
    var t := Exited(Second(CRunnable, 1, 1, 0, q), CHILD, ROOT, 1).table;
    assert t == [Proc(Zombie, Some(ROOT))] + Rest();
  }

  /** Each pass of the scheduler moves the cursor one slot further. */
  lemma {:induction false} Passes(s0: State, es0: seq<Event>, n: nat, k: nat) returns (es: seq<Event>, n': nat)
    requires n < NPROC && k <= NPROC
    requires Reached(s0, es0, n, Second(CStopping, 0, 0, 0, Proc(Zombie, Some(ROOT))), Open, map[])
    ensures n' < NPROC && es0 <= es
    ensures Reached(s0, es, n', Second(CStopping, 0, 0, k, Proc(Zombie, Some(ROOT))), Open, map[])
  {
    hide Reached;
    if k == 0 {
      es, n' := es0, n;
    } else {
      es, n' := Passes(s0, es0, n, k - 1);
      var ct := Second(CStopping, 0, 0, k - 1, Proc(Zombie, Some(ROOT)));
      PassesRoot(s0, es, n', ct);
      es, n' := es + [Visit(0)], if n' + 1 == NPROC then 0 else n' + 1;
      Moves(s0, es, n', k - 1);
      es := es + [Visit(1)];
    }
  }

  lemma Moves(s0: State, es: seq<Event>, n: nat, k: nat)
    requires Reached(s0, es, n, Second(CStopping, 0, 0, k, Proc(Zombie, Some(ROOT))), Open, map[]) && k < NPROC
    ensures Reached(s0, es + [Visit(1)], n, Second(CStopping, 0, 0, k + 1, Proc(Zombie, Some(ROOT))), Open, map[])
  {
    var ct := Second(CStopping, 0, 0, k, Proc(Zombie, Some(ROOT)));
    Shape(s0, n, ct, Open, map[]);
    assert ct.table[k].state != Runnable;
    hide World, Runs, After, Initial;
    Then(s0, es, n, ct, Open, map[], Visit(1));
  }

  /** A run in which cstop sets the state of a container reclaimed since its test, after which the
      scheduler's next look at it is at a slot behind the end of its process table. */
  lemma OffTheTable(s0: State) returns (es: seq<Event>, j: nat)
    requires Initial(s0)
    ensures j + 1 < |es| && es[j] == Check(1) && es[j + 1] == Set(ROOT, 1, Stop)
    ensures Runs(s0, es) && |After(s0, es).conts| == NCONT
    ensures var ct := After(s0, es).conts[1];
            ct.state == CStopping && ct.mproc == 0 && ct.nextproc == |ct.table| == NPROC
  {
    hide Initial, Runs, After;
    es := Started(s0);
    es := Forked(s0, es);
    es := Stopped(s0, es);
    j := |es| - 2;
    assert es[j..][0] == Check(1) && es[j..][1] == Set(ROOT, 1, Stop);
    var n;
    var es0 := es;
    es, n := Passes(s0, es0, 2, NPROC);
    Shape(s0, n, Second(CStopping, 0, 0, NPROC, Proc(Zombie, Some(ROOT))), Open, map[]);
  }
}
