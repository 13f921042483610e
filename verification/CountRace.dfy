/**
 Two forks at once.  allocproc increments the process count without a lock, so two forks into one
 container may load the same count and one increment is lost.  The run below does this in the root
 container and ends with the scheduler reclaiming the container while initproc is running.
 */
module CountRace {
  import opened Common
  import opened Containers

  /** The root container with initproc running and the processes q in the next three slots. */
  function Root(u: int, n: nat, q: seq<Proc>): Cont {
    Cont(CRunnable, NPROC, u, n, [Proc(Running, None)] + q + seq(NPROC - 4, _ => Proc(Unused, None)))
  }

  ghost function World(s0: State, u: int, n: nat, q: seq<Proc>, x: Lock): State
    requires |s0.conts| > 0
  {
    s0.(conts := s0.conts[0 := Root(u, n, q)], lock := x)
  }

  ghost predicate Pose(s0: State, q: seq<Proc>) {
    Initial(s0) && |q| == 3
  }

  predicate RunsIn(q: seq<Proc>, p: Ref) {
    |q| == 3 && p.c == 0 && (p.k == 0 || (1 <= p.k <= 3 && q[p.k - 1].state == Running))
  }

  predicate ForksNot(q: seq<Proc>, p: Ref) {
    forall i :: 0 <= i < |q| && q[i].state.Embryo? ==> q[i].state.forker != p
  }

  lemma RootPut(u: int, n: nat, q: seq<Proc>, k: nat, p: Proc)
    requires |q| == 3 && 1 <= k <= 3
    ensures |Root(u, n, q).table| == NPROC && Root(u, n, q).table[k] == q[k - 1]
    ensures Root(u, n, q).table[k := p] == Root(u, n, q[k - 1 := p]).table
  {
  }

  lemma NotForking(s0: State, u: int, n: nat, q: seq<Proc>, x: Lock, p: Ref)
    requires Pose(s0, q) && ForksNot(q, p)
    ensures !Forking(World(s0, u, n, q, x), p)
  {
    var s := World(s0, u, n, q, x);
    forall r | InTable(s, r) && At(s, r).state.Embryo?
      ensures At(s, r).state.forker != p
    {
      if r.c == 0 && 1 <= r.k <= 3 { assert At(s, r) == q[r.k - 1]; }
    }
  }

  lemma DoTake(s0: State, u: int, n: nat, q: seq<Proc>, k: nat, p: Ref)
    requires Pose(s0, q) && RunsIn(q, p) && ForksNot(q, p) && 1 <= k <= 3 && q[k - 1] == Proc(Unused, None)
    requires forall i :: 0 <= i < k - 1 ==> q[i].state != Unused
    ensures var s, e := World(s0, u, n, q, Open), ForkTake(p, Ref(0, k), true);
            Enabled(s, e) && Apply(s, e) == World(s0, u, n, q[k - 1 := Proc(Embryo(Taken, p, true), None)], Open)
  {
    var s := World(s0, u, n, q, Open);
    NotForking(s0, u, n, q, Open, p);
    RootPut(u, n, q, k, Proc(Embryo(Taken, p, true), None));
    forall j | 0 <= j < k ensures s.conts[0].table[j] == if j == 0 then Proc(Running, None) else q[j - 1] {
    }
  }

  /** What a later step of fork makes of the count and the new process. */
  function Next(u: int, p: Proc, e: Event): (int, Proc)
    requires ForkNext(p, e)
  {
    match e
    case ForkLoad(_) => (u, p.(state := p.state.(stage := Loaded(u))))
    case ForkStore(_) => (p.state.stage.v + 1, p.(state := p.state.(stage := Counted)))
    case ForkAdopt(_) => (u, Proc(p.state.(stage := Adopted), Some(p.state.forker)))
    case ForkRun(_) => (u, p.(state := Runnable))
    case _ => (u, Proc(Unused, None))
  }

  lemma DoFork(s0: State, u: int, n: nat, q: seq<Proc>, k: nat, e: Event)
    requires Pose(s0, q) && 1 <= k <= 3
    requires e in {ForkLoad(Ref(0, k)), ForkStore(Ref(0, k)), ForkAdopt(Ref(0, k)), ForkRun(Ref(0, k))}
    requires ForkNext(q[k - 1], e) && RunsIn(q, q[k - 1].state.forker) && q[k - 1].state.own
    ensures var s := World(s0, u, n, q, Open);
            var r := Next(u, q[k - 1], e);
            Enabled(s, e) && Apply(s, e) == World(s0, r.0, n, q[k - 1 := r.1], Open)
  {
    hide Initial;
    var f := q[k - 1].state.forker;
    RootPut(u, n, q, k, Next(u, q[k - 1], e).1);
    if f.k > 0 { RootPut(u, n, q, f.k, q[f.k - 1]); }
    OneCont(s0, q);
  }

  lemma OneCont(s0: State, q: seq<Proc>)
    requires Pose(s0, q)
    ensures |s0.conts| == NCONT && s0.init == Ref(0, 0)
  {
  }

  lemma DoVisit(s0: State, u: int, n: nat, q: seq<Proc>)
    requires Pose(s0, q) && 1 <= n <= 3 && q[n - 1].state == Runnable
    ensures var s, p := World(s0, u, n, q, Open), q[n - 1].(state := Running);
            Enabled(s, Visit(0)) && Apply(s, Visit(0)) == World(s0, u, n + 1, q[n - 1 := p], Open)
  {
    RootPut(u, n, q, n, q[n - 1].(state := Running));
  }

  /** Both halves of exit.  Only the states of the processes matter afterwards. */
  lemma DoExit(s0: State, u: int, n: nat, q: seq<Proc>, k: nat) returns (q': seq<Proc>)
    requires Pose(s0, q) && 1 <= k <= 3 && q[k - 1].state == Running
    requires forall i :: 0 <= i < 3 ==> !q[i].state.Embryo?
    ensures |q'| == 3 && forall i :: 0 <= i < 3 ==> q'[i].state == if i == k - 1 then Zombie else q[i].state
    ensures var s, p := World(s0, u, n, q, Open), Ref(0, k);
            && Enabled(s, ExitLoad(p)) && Enabled(Apply(s, ExitLoad(p)), ExitStore(p))
            && Apply(Apply(s, ExitLoad(p)), ExitStore(p)) == World(s0, u - 1, n, q', Back(0))
  {
    var s, p := World(s0, u, n, q, Open), Ref(0, k);
    NotForking(s0, u, n, q, Open, p);
    RootPut(u, n, q, k, q[k - 1]);
    assert Apply(s, ExitLoad(p)) == World(s0, u, n, q, InExit(p, u));
    var table := Exited(Root(u, n, q), p, s0.init, u).table;
    q' := table[1..4];
    assert table == Root(u - 1, n, q').table;
  }

  // ----- The run -----

  ghost predicate Reached(s0: State, es: seq<Event>, u: int, n: nat, q: seq<Proc>) {
    Pose(s0, q) && Runs(s0, es) && After(s0, es) == World(s0, u, n, q, Open)
  }

  lemma Then(s0: State, es: seq<Event>, u: int, n: nat, q: seq<Proc>, e: Event, u': int, n': nat, q': seq<Proc>)
    requires Reached(s0, es, u, n, q) && Pose(s0, q') && Enabled(World(s0, u, n, q, Open), e)
    requires Apply(World(s0, u, n, q, Open), e) == World(s0, u', n', q', Open)
    ensures Reached(s0, es + [e], u', n', q')
  {
    hide Enabled, Apply, World, Initial;
    Extend(s0, es, e);
  }

  lemma TakeOn(s0: State, es: seq<Event>, u: int, n: nat, q: seq<Proc>, k: nat, p: Ref) returns (q': seq<Proc>)
    requires Reached(s0, es, u, n, q) && RunsIn(q, p) && ForksNot(q, p) && 1 <= k <= 3 && q[k - 1] == Fresh()
    requires forall i :: 0 <= i < k - 1 ==> q[i].state != Unused
    ensures q' == q[k - 1 := Proc(Embryo(Taken, p, true), None)]
    ensures Reached(s0, es + [ForkTake(p, Ref(0, k), true)], u, n, q')
  {
    hide Enabled, Apply, World, Initial, Runs, After;
    q' := q[k - 1 := Proc(Embryo(Taken, p, true), None)];
    DoTake(s0, u, n, q, k, p);
    Then(s0, es, u, n, q, ForkTake(p, Ref(0, k), true), u, n, q');
  }

  lemma ForkOn(s0: State, es: seq<Event>, u: int, n: nat, q: seq<Proc>, k: nat, e: Event)
      returns (u': int, q': seq<Proc>)
    requires Reached(s0, es, u, n, q) && 1 <= k <= 3
    requires e in {ForkLoad(Ref(0, k)), ForkStore(Ref(0, k)), ForkAdopt(Ref(0, k)), ForkRun(Ref(0, k))}
    requires ForkNext(q[k - 1], e) && RunsIn(q, q[k - 1].state.forker) && q[k - 1].state.own
    ensures u' == Next(u, q[k - 1], e).0 && q' == q[k - 1 := Next(u, q[k - 1], e).1]
    ensures Reached(s0, es + [e], u', n, q')
  {
    hide Enabled, Apply, World, Initial, Runs, After, Next;
    u', q' := Next(u, q[k - 1], e).0, q[k - 1 := Next(u, q[k - 1], e).1];
    DoFork(s0, u, n, q, k, e);
    Then(s0, es, u, n, q, e, u', n, q');
  }

  lemma VisitOn(s0: State, es: seq<Event>, u: int, n: nat, q: seq<Proc>) returns (q': seq<Proc>)
    requires Reached(s0, es, u, n, q) && 1 <= n <= 3 && q[n - 1].state == Runnable
    ensures q' == q[n - 1 := q[n - 1].(state := Running)] && Reached(s0, es + [Visit(0)], u, n + 1, q')
  {
    hide Enabled, Apply, World, Initial, Runs, After;
    q' := q[n - 1 := q[n - 1].(state := Running)];
    DoVisit(s0, u, n, q);
    Then(s0, es, u, n, q, Visit(0), u, n + 1, q');
  }

  /** exit of the process in slot k, up to the scheduler's check. */
  lemma ExitOn(s0: State, es: seq<Event>, u: int, n: nat, q: seq<Proc>, k: nat) returns (fs: seq<Event>, q': seq<Proc>)
    requires Reached(s0, es, u, n, q) && 1 <= k <= 3 && q[k - 1].state == Running
    requires forall i :: 0 <= i < 3 ==> !q[i].state.Embryo?
    ensures Pose(s0, q') && Runs(s0, fs) && After(s0, fs) == World(s0, u - 1, n, q', Back(0))
    ensures forall i :: 0 <= i < 3 ==> q'[i].state == if i == k - 1 then Zombie else q[i].state
  {
    hide Enabled, Apply, World, Initial, Runs, After;
    var p := Ref(0, k);
    q' := DoExit(s0, u, n, q, k);
    Extend(s0, es, ExitLoad(p));
    Extend(s0, es + [ExitLoad(p)], ExitStore(p));
    fs := es + [ExitLoad(p)] + [ExitStore(p)];
  }

  /** The scheduler's check when the count is not zero. */
  lemma CheckOn(s0: State, es: seq<Event>, u: int, n: nat, q: seq<Proc>)
    requires Pose(s0, q) && Runs(s0, es) && After(s0, es) == World(s0, u, n, q, Back(0)) && u != 0
    ensures Reached(s0, es + [Check(0)], u, n, q)
  {
    hide Runs, After;
    Extend(s0, es, Check(0));
  }

  lemma FirstVisit(s0: State)
    requires Initial(s0)
    ensures Reached(s0, [] + [Visit(0)], 1, 1, [Fresh(), Fresh(), Fresh()])
  {
    var ct := s0.conts[0];
    assert ct.(table := []) == Cont(CRunnable, NPROC, 1, 0, []);
    assert Visited(ct).table == Root(1, 1, [Fresh(), Fresh(), Fresh()]).table;
    assert Runs(s0, []);
    Extend(s0, [], Visit(0));
  }

  /** initproc has forked a process, and both run. */
  lemma TwoProcesses(s0: State) returns (es: seq<Event>)
    requires Initial(s0)
    ensures Reached(s0, es, 2, 2, [Proc(Running, Some(Ref(0, 0))), Fresh(), Fresh()])
  {
    hide Reached, Initial;
    var u, q, p, np := 1, [Fresh(), Fresh(), Fresh()], Ref(0, 0), Ref(0, 1);
    FirstVisit(s0);
    es := [] + [Visit(0)];
    q := TakeOn(s0, es, u, 1, q, 1, p);
    es := es + [ForkTake(p, np, true)];
    u, q := ForkOn(s0, es, u, 1, q, 1, ForkLoad(np));
    es := es + [ForkLoad(np)];
    u, q := ForkOn(s0, es, u, 1, q, 1, ForkStore(np));
    es := es + [ForkStore(np)];
    u, q := ForkOn(s0, es, u, 1, q, 1, ForkAdopt(np));
    es := es + [ForkAdopt(np)];
    u, q := ForkOn(s0, es, u, 1, q, 1, ForkRun(np));
    es := es + [ForkRun(np)];
    q := VisitOn(s0, es, u, 1, q);
    es := es + [Visit(0)];
    assert q == [Proc(Running, Some(Ref(0, 0))), Fresh(), Fresh()];
  }

  /** Both fork at once: each loads 2 and stores 3. */
  lemma TwoForks(s0: State, es0: seq<Event>) returns (es: seq<Event>)
    requires Reached(s0, es0, 2, 2, [Proc(Running, Some(Ref(0, 0))), Fresh(), Fresh()])
    ensures Reached(s0, es, 3, 2, [Proc(Running, Some(Ref(0, 0))),
                                   Proc(Embryo(Counted, Ref(0, 0), true), None),
                                   Proc(Embryo(Counted, Ref(0, 1), true), None)])
  {
    hide Reached;
    var u, q := 2, [Proc(Running, Some(Ref(0, 0))), Fresh(), Fresh()];
    es := es0;
    q := TakeOn(s0, es, u, 2, q, 2, Ref(0, 0));
    es := es + [ForkTake(Ref(0, 0), Ref(0, 2), true)];
    q := TakeOn(s0, es, u, 2, q, 3, Ref(0, 1));
    es := es + [ForkTake(Ref(0, 1), Ref(0, 3), true)];
    u, q := ForkOn(s0, es, u, 2, q, 2, ForkLoad(Ref(0, 2)));
    es := es + [ForkLoad(Ref(0, 2))];
    u, q := ForkOn(s0, es, u, 2, q, 3, ForkLoad(Ref(0, 3)));
    es := es + [ForkLoad(Ref(0, 3))];
    u, q := ForkOn(s0, es, u, 2, q, 2, ForkStore(Ref(0, 2)));
    es := es + [ForkStore(Ref(0, 2))];
    u, q := ForkOn(s0, es, u, 2, q, 3, ForkStore(Ref(0, 3)));
    es := es + [ForkStore(Ref(0, 3))];
    assert q == [Proc(Running, Some(Ref(0, 0))), Proc(Embryo(Counted, Ref(0, 0), true), None),
                 Proc(Embryo(Counted, Ref(0, 1), true), None)];
  }

  /** Four processes run, and the count is three. */
  lemma FourRun(s0: State) returns (es: seq<Event>, q: seq<Proc>)
    requires Initial(s0)
    ensures Reached(s0, es, 3, 4, q) && forall i :: 0 <= i < 3 ==> q[i].state == Running
  {
    hide Reached, Initial;
    es := TwoProcesses(s0);
    es := TwoForks(s0, es);
    var u: int;
    u, q := 3, [Proc(Running, Some(Ref(0, 0))), Proc(Embryo(Counted, Ref(0, 0), true), None),
                Proc(Embryo(Counted, Ref(0, 1), true), None)];
    u, q := ForkOn(s0, es, u, 2, q, 2, ForkAdopt(Ref(0, 2)));
    es := es + [ForkAdopt(Ref(0, 2))];
    u, q := ForkOn(s0, es, u, 2, q, 2, ForkRun(Ref(0, 2)));
    es := es + [ForkRun(Ref(0, 2))];
    u, q := ForkOn(s0, es, u, 2, q, 3, ForkAdopt(Ref(0, 3)));
    es := es + [ForkAdopt(Ref(0, 3))];
    u, q := ForkOn(s0, es, u, 2, q, 3, ForkRun(Ref(0, 3)));
    es := es + [ForkRun(Ref(0, 3))];
    q := VisitOn(s0, es, u, 2, q);
    es := es + [Visit(0)];
    q := VisitOn(s0, es, u, 3, q);
    es := es + [Visit(0)];
  }

  /** A run at whose end the scheduler reclaims the root container while initproc is running in it. */
  lemma ReclaimedAlive(s0: State) returns (es: seq<Event>)
    requires Initial(s0)
    ensures Runs(s0, es) && |After(s0, es).conts| == NCONT
    ensures After(s0, es).conts[0].uproc < LiveCount(After(s0, es).conts[0].table)
    ensures Runs(s0, es + [Check(0)])
    ensures var s := After(s0, es + [Check(0)]);
            && s.init == Ref(0, 0) && RunningAt(s, s.init)
            && |s.conts| == NCONT && s.conts[0].state == CUnused && s.conts[0].mproc == 0
  {
    hide Runs, After, LiveCount;
    var q: seq<Proc>;
    es, q := FourRun(s0);
    es, q := ExitOn(s0, es, 3, 4, q, 1);
    CheckOn(s0, es, 2, 4, q);
    es, q := ExitOn(s0, es + [Check(0)], 2, 4, q, 2);
    CheckOn(s0, es, 1, 4, q);
    es, q := ExitOn(s0, es + [Check(0)], 1, 4, q, 3);
    hide Initial;
    OneCont(s0, q);
    LiveSome(After(s0, es).conts[0].table, 0);
    Extend(s0, es, Check(0));
  }

  lemma {:induction false} LiveSome(table: seq<Proc>, k: nat)
    requires k < |table| && Live(table[k].state)
    ensures LiveCount(table) >= 1
  {
    if k < |table| - 1 { LiveSome(table[..|table| - 1], k); }
  }

  function Fresh(): Proc {
    Proc(Unused, None)
  }
}
