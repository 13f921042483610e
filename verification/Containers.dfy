/**
 Processes and containers (proc.c, container.c) as an interleaving of steps by any number of
 processes and processors.  A section under the process table lock or the container table lock is
 one step, with two exceptions: exit loads and stores the process count in two, and the scheduler
 that gets the processor back checks the container in a step of its own, still under the lock.
 What the code does outside of locks is split: fork's load and store of the count, and the tests
 of cstart, cpause, cresume and cstop, which come before the lock their store takes.
 */
module Containers {
  import opened Common

  const NCONT := 8
  const NPROC := 64

  /** Slot k of the process table of container c. */
  datatype Ref = Ref(c: nat, k: nat)

  /** How far fork has got with the new process. */
  datatype Stage =
    | Taken
    | Loaded(v: int)   // the count was v when fork loaded it, to store v + 1
    | Counted
    | Adopted

  datatype PState =
    | Unused
    | Embryo(stage: Stage, forker: Ref, own: bool)   // own: forked into the forker's container, as its child
    | Sleeping
    | Runnable
    | Running
    | Zombie

  datatype Proc = Proc(state: PState, parent: Option<Ref>)

  datatype CState = CUnused | CEmbryo | CReady | CRunnable | CPaused | CStopping

  datatype Cont = Cont(state: CState, mproc: int, uproc: int, nextproc: nat, table: seq<Proc>)

  /** The process table lock between two steps. */
  datatype Lock =
    | Open
    | InExit(p: Ref, v: int)   // held by p in exit, which loaded v as the count of its container
    | Back(c: nat)             // held by a scheduler to which a process of container c has just returned

  /** Calls that set the state of a container after a test of it. */
  datatype Control = Start | Pause | Resume | Stop

  /** p has passed the test of a call and not yet set the state. */
  datatype Call = Call(c: nat, what: Control)

  datatype State = State(conts: seq<Cont>, init: Ref, lock: Lock, calls: map<Ref, Call>)

  datatype Event =
    | ForkTake(p: Ref, np: Ref, own: bool)   // allocproc finds a slot
    | ForkNoStack(np: Ref)                   // no kernel stack: the slot is given back
    | ForkLoad(np: Ref)                      // allocproc counts the process: loads the count
    | ForkStore(np: Ref)                     // and stores it plus one
    | ForkNoCopy(np: Ref)                    // copyuvm fails: the slot is given back
    | ForkAdopt(np: Ref)                     // the parent is recorded
    | ForkRun(np: Ref)                       // the new process may run
    | ExitLoad(p: Ref)                       // exit uncounts the process: loads the count
    | ExitStore(p: Ref)                      // and stores it less one; the process becomes a zombie
    | Reap(p: Ref, k: nat)                   // wait finds a zombie child
    | Sleep(p: Ref)
    | Yield(p: Ref)
    | Wake(p: Ref)                           // wakeup1 or kill
    | Visit(c: nat)                          // the scheduler looks at a container's next slot
    | Check(c: nat)                          // the scheduler looks whether the container is done
    | Alloc(c: nat)
    | Abandon(c: nat)                        // ccreate finds no directory
    | Create(c: nat, mproc: int)
    | Test(p: Ref, c: nat, what: Control)    // p finds container c in a state that admits the call
    | Set(p: Ref, c: nat, what: Control)     // and sets its state, whatever it is by then
    | Kill(p: Ref)                           // p is over quota: its container is stopped

  predicate Live(st: PState) {
    st.Sleeping? || st.Runnable? || st.Running?
  }

  predicate InTable(s: State, r: Ref) {
    r.c < |s.conts| && r.k < |s.conts[r.c].table|
  }

  function At(s: State, r: Ref): Proc
    requires InTable(s, r)
  {
    s.conts[r.c].table[r.k]
  }

  predicate RunningAt(s: State, r: Ref) {
    InTable(s, r) && At(s, r).state == Running
  }

  /** p is inside fork. */
  ghost predicate Forking(s: State, p: Ref) {
    exists r :: InTable(s, r) && At(s, r).state.Embryo? && At(s, r).state.forker == p
  }

  /** p is in no call that takes several steps. */
  ghost predicate Outside(s: State, p: Ref) {
    !Forking(s, p) && p !in s.calls
  }

  predicate EmbryoAt(s: State, r: Ref) {
    InTable(s, r) && At(s, r).state.Embryo? && RunningAt(s, At(s, r).state.forker)
  }

  predicate Idle(st: CState) {
    st.CUnused? || st.CEmbryo? || st.CReady?
  }

  /** Steps that begin by taking the process table lock. */
  predicate Locks(e: Event) {
    || e.ForkTake? || e.ForkRun? || e.ExitLoad? || e.Reap? || e.Sleep? || e.Yield? || e.Wake? || e.Visit?
  }

  ghost predicate Enabled(s: State, e: Event) {
    && (Locks(e) ==> s.lock == Open)
    && match e
       // allocproc looks at the container's state before it takes the lock, so any state may be found here
       case ForkTake(p, np, own) =>
         && RunningAt(s, p) && Outside(s, p) && InTable(s, np) && (own ==> np.c == p.c)
         && np.k < s.conts[np.c].mproc && At(s, np).state == Unused
         && (forall j :: 0 <= j < np.k ==> s.conts[np.c].table[j].state != Unused)
       case ForkNoStack(np) => EmbryoAt(s, np) && At(s, np).state.stage == Taken
       case ForkLoad(np) => EmbryoAt(s, np) && At(s, np).state.stage == Taken
       case ForkStore(np) => EmbryoAt(s, np) && At(s, np).state.stage.Loaded?
       case ForkNoCopy(np) => EmbryoAt(s, np) && At(s, np).state.stage == Counted
       case ForkAdopt(np) => EmbryoAt(s, np) && At(s, np).state.stage == Counted
       case ForkRun(np) => EmbryoAt(s, np) && At(s, np).state.stage == Adopted
       case ExitLoad(p) => RunningAt(s, p) && Outside(s, p) && p != s.init   // else the kernel panics
       case ExitStore(p) => RunningAt(s, p) && s.lock.InExit? && s.lock.p == p
       case Reap(p, k) =>
         && RunningAt(s, p) && Outside(s, p) && k < s.conts[p.c].mproc && k < |s.conts[p.c].table|
         && s.conts[p.c].table[k] == Proc(Zombie, Some(p))
       case Sleep(p) => RunningAt(s, p) && !Forking(s, p)
       case Yield(p) => RunningAt(s, p)
       case Wake(p) => InTable(s, p) && At(s, p).state == Sleeping
       case Visit(c) =>
         && c < |s.conts| && (s.conts[c].state == CRunnable || s.conts[c].state == CStopping)
         && s.conts[c].nextproc < |s.conts[c].table|
       case Check(c) => c < |s.conts| && s.lock == Back(c)
       case Alloc(c) => c < |s.conts| && s.conts[c].state == CUnused
       case Abandon(c) => c < |s.conts| && s.conts[c].state == CEmbryo
       case Create(c, mproc) => c < |s.conts| && s.conts[c].state == CEmbryo && mproc <= NPROC
       case Test(p, c, what) =>
         && RunningAt(s, p) && Outside(s, p) && c < |s.conts| && Admits(s.conts[c].state, what)
         && (what.Start? || p.c == s.init.c)   // the others are for the root container
       case Set(p, c, what) => RunningAt(s, p) && c < |s.conts| && p in s.calls && s.calls[p] == Call(c, what)
       case Kill(p) => RunningAt(s, p)
  }

  /** The states in which a call goes on. */
  predicate Admits(st: CState, what: Control) {
    match what
    case Start => st == CReady
    case Pause => st == CRunnable
    case Resume => st == CPaused
    case Stop => st == CRunnable || st == CPaused
  }

  function Outcome(what: Control): CState {
    match what
    case Start => CRunnable
    case Pause => CPaused
    case Resume => CRunnable
    case Stop => CStopping
  }

  /** Which container a step changes. */
  function Where(e: Event): nat {
    match e
    case ForkTake(_, np, _) => np.c
    case ForkNoStack(np) => np.c
    case ForkLoad(np) => np.c
    case ForkStore(np) => np.c
    case ForkNoCopy(np) => np.c
    case ForkAdopt(np) => np.c
    case ForkRun(np) => np.c
    case ExitLoad(p) => p.c
    case ExitStore(p) => p.c
    case Reap(p, _) => p.c
    case Sleep(p) => p.c
    case Yield(p) => p.c
    case Wake(p) => p.c
    case Kill(p) => p.c
    case _ => e.c
  }

  function SetState(ct: Cont, k: nat, st: PState): Cont
    requires k < |ct.table|
  {
    ct.(table := ct.table[k := ct.table[k].(state := st)])
  }

  /** exit: the children go to initproc, the process is no longer counted, and becomes a zombie. */
  function Exited(ct: Cont, p: Ref, init: Ref, v: int): Cont
    requires p.k < |ct.table|
  {
    var orphaned := seq(|ct.table|, j requires 0 <= j < |ct.table| =>
                        var q := ct.table[j];
                        if j < ct.mproc && q.parent == Some(p) then q.(parent := Some(init)) else q);
    ct.(uproc := v - 1, table := orphaned[p.k := orphaned[p.k].(state := Zombie)])
  }

  /** One visit of the scheduler: the slot under the cursor runs if it can, and the cursor moves on. */
  function Visited(ct: Cont): Cont
    requires ct.nextproc < |ct.table|
  {
    var k := ct.nextproc;
    var moved := ct.(nextproc := if k + 1 == ct.mproc then 0 else k + 1);
    if ct.table[k].state == Runnable then SetState(moved, k, Running) else moved
  }

  /** cexit. */
  function Reclaimed(ct: Cont): Cont {
    ct.(state := CUnused, mproc := 0, nextproc := 0)
  }

  /** The container a step changes, afterwards. */
  function Changed(ct: Cont, e: Event, init: Ref, lock: Lock): Cont
    requires match e
             case ForkTake(_, np, _) => np.k < |ct.table|
             case ForkNoStack(np) => np.k < |ct.table|
             case ForkLoad(np) => np.k < |ct.table| && ct.table[np.k].state.Embryo?
             case ForkStore(np) =>
               np.k < |ct.table| && ct.table[np.k].state.Embryo? && ct.table[np.k].state.stage.Loaded?
             case ForkNoCopy(np) => np.k < |ct.table|
             case ForkAdopt(np) => np.k < |ct.table| && ct.table[np.k].state.Embryo?
             case ForkRun(np) => np.k < |ct.table|
             case ExitLoad(p) => p.k < |ct.table|
             case ExitStore(p) => p.k < |ct.table| && lock.InExit?
             case Reap(_, k) => k < |ct.table|
             case Sleep(p) => p.k < |ct.table|
             case Yield(p) => p.k < |ct.table|
             case Wake(p) => p.k < |ct.table|
             case Visit(_) => ct.nextproc < |ct.table|
             case _ => true
  {
    match e
    case ForkTake(p, np, own) => SetState(ct, np.k, Embryo(Taken, p, own))
    case ForkNoStack(np) => SetState(ct, np.k, Unused)
    case ForkLoad(np) => SetState(ct, np.k, ct.table[np.k].state.(stage := Loaded(ct.uproc)))
    case ForkStore(np) =>
      var st := ct.table[np.k].state;
      SetState(ct, np.k, st.(stage := Counted)).(uproc := st.stage.v + 1)
    case ForkNoCopy(np) => SetState(ct, np.k, Unused)
    case ForkAdopt(np) =>
      var st := ct.table[np.k].state;
      ct.(table := ct.table[np.k := Proc(st.(stage := Adopted), Some(if st.own then st.forker else init))])
    case ForkRun(np) => SetState(ct, np.k, Runnable)
    case ExitLoad(_) => ct
    case ExitStore(p) => Exited(ct, p, init, lock.v)
    case Reap(_, k) => ct.(table := ct.table[k := Proc(Unused, None)])
    case Sleep(p) => SetState(ct, p.k, Sleeping)
    case Yield(p) => SetState(ct, p.k, Runnable)
    case Wake(p) => SetState(ct, p.k, Runnable)
    case Visit(_) => Visited(ct)
    case Check(_) => if ct.uproc == 0 then Reclaimed(ct) else ct
    case Alloc(_) => ct.(state := CEmbryo)
    case Abandon(_) => ct.(state := CUnused)
    case Create(_, mproc) => ct.(state := CReady, mproc := mproc)
    case Test(_, _, _) => ct
    case Set(_, _, what) => ct.(state := Outcome(what))
    case Kill(_) => ct.(state := CStopping)
  }

  ghost function Apply(s: State, e: Event): State
    requires Enabled(s, e)
  {
    var c := Where(e);
    s.(conts := s.conts[c := Changed(s.conts[c], e, s.init, s.lock)],
       lock := match e
               case ExitLoad(p) => InExit(p, s.conts[c].uproc)
               case ExitStore(p) => Back(p.c)
               case Sleep(p) => Back(p.c)
               case Yield(p) => Back(p.c)
               case Check(_) => Open
               case _ => s.lock,
       calls := match e
                case Test(p, _, what) => s.calls[p := Call(c, what)]
                case Set(p, _, _) => s.calls - {p}
                case _ => s.calls)
  }

  // ----- The invariant of one container -----

  /** Processes that exit will uncount: those that live, and the new ones already counted. */
  predicate Counts(p: Proc) {
    Live(p.state) || (p.state.Embryo? && (p.state.stage == Counted || p.state.stage == Adopted))
  }

  function Count(table: seq<Proc>): nat {
    if table == [] then 0
    else Count(table[..|table| - 1]) + (if Counts(table[|table| - 1]) then 1 else 0)
  }

  predicate LiveIn(ct: Cont, c: nat, r: Ref) {
    r.c == c && r.k < |ct.table| && Live(ct.table[r.k].state)
  }

  /** A process's parent is initproc or a live process of the same table. */
  predicate Parented(ct: Cont, c: nat, init: Ref, k: nat)
    requires k < |ct.table|
  {
    var p := ct.table[k];
    match p.state
    case Unused => p.parent == None
    case Embryo(stage, forker, own) =>
      && (own ==> LiveIn(ct, c, forker) && k < ct.mproc)
      && p.parent == (if stage != Adopted then None else if own then Some(forker) else Some(init))
    case _ =>
      || (Ref(c, k) == init && p.parent == None)
      || (p.parent.Some? && (p.parent.value == init || (LiveIn(ct, c, p.parent.value) && k < ct.mproc)))
  }

  /** The scheduler's cursor stays within the slots of a container that can be scheduled. */
  predicate CursorOk(ct: Cont) {
    && |ct.table| == NPROC && ct.mproc <= NPROC
    && (if Idle(ct.state) then ct.nextproc == 0 else ct.nextproc < ct.mproc)
  }

  ghost predicate ContOk(ct: Cont, c: nat, init: Ref) {
    && CursorOk(ct) && ct.uproc >= Count(ct.table)
    && (forall k :: 0 <= k < NPROC ==> Parented(ct, c, init, k))
    && (Idle(ct.state) ==> Dormant(ct, init))
    && (c == init.c ==> LiveIn(ct, c, init))
  }

  /** Nothing runs or forks in the table, and no one in it has a parent there but initproc. */
  ghost predicate Dormant(ct: Cont, init: Ref) {
    forall k :: 0 <= k < |ct.table| ==> Sleepy(ct.table[k], init)
  }

  predicate Sleepy(p: Proc, init: Ref) {
    p.state != Running && (p.state.Embryo? ==> !p.state.own) && (p.parent.None? || p.parent.value == init)
  }

  // ----- Counting -----

  function One(b: bool): nat {
    if b then 1 else 0
  }

  lemma {:induction false} CountUpdate(table: seq<Proc>, k: nat, p: Proc)
    requires k < |table|
    ensures Count(table[k := p]) == Count(table) - One(Counts(table[k])) + One(Counts(p))
  {
    hide Counts;
    var n := |table| - 1;
    if k < n {
      CountUpdate(table[..n], k, p);
      assert table[k := p][..n] == table[..n][k := p];
    } else {
      assert table[k := p][..n] == table[..n];
    }
  }

  lemma {:induction false} CountSame(a: seq<Proc>, b: seq<Proc>)
    requires |a| == |b| && forall k :: 0 <= k < |a| ==> Counts(a[k]) == Counts(b[k])
    ensures Count(a) == Count(b)
  {
    hide Counts;
    if a != [] { CountSame(a[..|a| - 1], b[..|b| - 1]); }
  }

  lemma {:induction false} CountNone(table: seq<Proc>, k: nat)
    requires k < |table| && Counts(table[k])
    ensures Count(table) >= 1
  {
    hide Counts;
    if k < |table| - 1 { CountNone(table[..|table| - 1], k); }
  }

  // ----- Every step keeps the invariant -----

  lemma OneSlot(ct: Cont, c: nat, init: Ref, k: nat, p: Proc, uproc: int)
    requires ContOk(ct, c, init) && k < NPROC
    requires Live(ct.table[k].state) ==> Live(p.state)
    requires uproc >= ct.uproc - One(Counts(ct.table[k])) + One(Counts(p))
    requires Idle(ct.state) ==> Sleepy(p, init)
    requires Parented(ct.(table := ct.table[k := p]), c, init, k)
    ensures ContOk(ct.(table := ct.table[k := p], uproc := uproc), c, init)
  {
    CountUpdate(ct.table, k, p);
    var ct' := ct.(table := ct.table[k := p], uproc := uproc);
    hide Count, Counts;
    forall j | 0 <= j < NPROC
      ensures Parented(ct', c, init, j)
    {
      if j != k { assert Parented(ct, c, init, j); }
    }
    if Idle(ct.state) {
      forall j | 0 <= j < NPROC ensures Sleepy(ct'.table[j], init) {
        if j != k { assert Sleepy(ct.table[j], init); }
      }
    }
  }

  lemma ExitCount(ct: Cont, p: Ref, init: Ref, v: int)
    requires p.k < |ct.table| && ct.table[p.k].state == Running
    ensures Count(Exited(ct, p, init, v).table) == Count(ct.table) - 1
  {
    var ct' := Exited(ct, p, init, v);
    var orphaned := ct'.table[p.k := ct'.table[p.k].(state := Running)];
    CountSame(ct.table, orphaned);
    CountUpdate(orphaned, p.k, ct'.table[p.k]);
    assert ct'.table == orphaned[p.k := ct'.table[p.k]];
  }

  lemma ExitKept(ct: Cont, c: nat, init: Ref, p: Ref, v: int)
    requires ContOk(ct, c, init) && p.c == c && p.k < NPROC && ct.table[p.k].state == Running && p != init
    requires v >= ct.uproc
    requires forall k :: 0 <= k < NPROC && ct.table[k].state.Embryo? ==> ct.table[k].state.forker != p
    ensures ContOk(Exited(ct, p, init, v), c, init)
  {
    hide Count;
    var ct' := Exited(ct, p, init, v);
    ExitCount(ct, p, init, v);
    assert !Sleepy(ct.table[p.k], init);
    forall k | 0 <= k < NPROC
      ensures Parented(ct', c, init, k)
    {
      assert Parented(ct, c, init, k);
    }
  }

  lemma CheckKept(ct: Cont, c: nat, init: Ref)
    requires ContOk(ct, c, init) && ct.uproc == 0
    ensures ContOk(Reclaimed(ct), c, init) && forall k :: 0 <= k < NPROC ==> !Live(ct.table[k].state)
  {
    var ct' := Reclaimed(ct);
    forall k | 0 <= k < NPROC
      ensures !Counts(ct.table[k])
    {
      if Counts(ct.table[k]) { CountNone(ct.table, k); }
    }
    assert forall k :: 0 <= k < NPROC ==> !Live(ct.table[k].state);
    forall k | 0 <= k < NPROC
      ensures Parented(ct', c, init, k) && Sleepy(ct'.table[k], init)
    {
      assert Parented(ct, c, init, k);
    }
  }

  lemma CreateKept(ct: Cont, c: nat, init: Ref, mproc: int)
    requires ContOk(ct, c, init) && Idle(ct.state) && mproc <= NPROC
    ensures ContOk(ct.(state := CReady, mproc := mproc), c, init)
  {
    var ct' := ct.(state := CReady, mproc := mproc);
    forall k | 0 <= k < NPROC
      ensures Parented(ct', c, init, k)
    {
      assert Parented(ct, c, init, k) && Sleepy(ct.table[k], init);
    }
  }

  /** A change of state or cursor alone. */
  lemma Restated(ct: Cont, c: nat, init: Ref, st: CState, next: nat)
    requires ContOk(ct, c, init)
    requires if Idle(st) then Idle(ct.state) && next == 0 else next < ct.mproc
    ensures ContOk(ct.(state := st, nextproc := next), c, init)
  {
    var ct' := ct.(state := st, nextproc := next);
    forall k | 0 <= k < NPROC
      ensures Parented(ct', c, init, k)
    {
      assert Parented(ct, c, init, k);
    }
  }

  lemma VisitKept(ct: Cont, c: nat, init: Ref)
    requires ContOk(ct, c, init) && !Idle(ct.state)
    ensures ContOk(Visited(ct), c, init)
  {
    hide Count;
    var k := ct.nextproc;
    var moved := ct.(nextproc := if k + 1 == ct.mproc then 0 else k + 1);
    Restated(ct, c, init, ct.state, moved.nextproc);
    if ct.table[k].state == Runnable {
      var p := ct.table[k].(state := Running);
      assert Parented(ct, c, init, k);
      OneSlot(moved, c, init, k, p, ct.uproc);
    }
  }

  /** The steps of fork after the first. */
  predicate ForkNext(p: Proc, e: Event) {
    p.state.Embryo? &&
    match e
    case ForkNoStack(np) => p.state.stage == Taken
    case ForkLoad(np) => p.state.stage == Taken
    case ForkStore(np) => p.state.stage.Loaded?
    case ForkNoCopy(np) => p.state.stage == Counted
    case ForkAdopt(np) => p.state.stage == Counted
    case ForkRun(np) => p.state.stage == Adopted
    case _ => false
  }

  lemma TakeKept(ct: Cont, c: nat, init: Ref, p: Ref, k: nat, own: bool)
    requires ContOk(ct, c, init) && k < ct.mproc && ct.table[k].state == Unused
    requires own ==> LiveIn(ct, c, p) && ct.table[p.k].state == Running
    ensures ContOk(SetState(ct, k, Embryo(Taken, p, own)), c, init)
  {
    hide Count;
    assert Parented(ct, c, init, k);
    if Idle(ct.state) {
      assert Sleepy(ct.table[k], init) && (own ==> Sleepy(ct.table[p.k], init));
    }
    var ct' := SetState(ct, k, Embryo(Taken, p, own));
    assert Parented(ct', c, init, k);
    OneSlot(ct, c, init, k, ct'.table[k], ct'.uproc);
  }

  lemma ForkKept(ct: Cont, c: nat, init: Ref, e: Event, lock: Lock)
    requires ContOk(ct, c, init) && Where(e) == c
    requires (e.ForkNoStack? || e.ForkLoad? || e.ForkStore? || e.ForkNoCopy? || e.ForkAdopt? || e.ForkRun?)
    requires e.np.k < NPROC && ForkNext(ct.table[e.np.k], e)
    requires e.ForkStore? ==> ct.table[e.np.k].state.stage.v >= ct.uproc
    ensures ContOk(Changed(ct, e, init, lock), c, init)
  {
    hide Count;
    var k := e.np.k;
    assert Parented(ct, c, init, k);
    assert Idle(ct.state) ==> Sleepy(ct.table[k], init);
    var ct' := Changed(ct, e, init, lock);
    assert Parented(ct', c, init, k);
    OneSlot(ct, c, init, k, ct'.table[k], ct'.uproc);
  }

  lemma SlotKept(ct: Cont, c: nat, init: Ref, k: nat, p: Proc)
    requires ContOk(ct, c, init) && k < NPROC
    requires || (Live(ct.table[k].state) && p == ct.table[k].(state := p.state) && Live(p.state) && p.state != Running)
             || (ct.table[k].state == Zombie && p == Proc(Unused, None))
    ensures ContOk(ct.(table := ct.table[k := p]), c, init)
  {
    hide Count;
    assert Parented(ct, c, init, k);
    assert Idle(ct.state) ==> Sleepy(ct.table[k], init);
    var ct' := ct.(table := ct.table[k := p]);
    assert Parented(ct', c, init, k);
    OneSlot(ct, c, init, k, p, ct.uproc);
  }

  // ----- Loads and stores of the count -----

  /** The value that the store f is going to use, if its load has happened. */
  function LoadedBy(s: State, f: Event): Option<int> {
    match f
    case ForkStore(np) =>
      if InTable(s, np) && At(s, np).state.Embryo? && At(s, np).state.stage.Loaded?
      then Some(At(s, np).state.stage.v) else None
    case ExitStore(p) =>
      if s.lock.InExit? && s.lock.p == p then Some(s.lock.v) else None
    case _ => None
  }

  /** By how much the count that a store loaded differs from the count it overwrites. */
  function Gap(s: State, e: Event): int
    requires Where(e) < |s.conts|
  {
    if LoadedBy(s, e).Some? then LoadedBy(s, e).value - s.conts[Where(e)].uproc else 0
  }

  /** The step is no store, or the count has not risen since the store's load. */
  predicate Lossless(s: State, e: Event) {
    Where(e) < |s.conts| && Gap(s, e) >= 0
  }

  /** The step sets the state of a container that has no slots. */
  predicate Slotless(s: State, e: Event) {
    (e.Set? || e.Kill?) && Where(e) < |s.conts| && s.conts[Where(e)].mproc <= 0
  }

  /** No update of the count is lost, and no call sets the state of a container without slots. */
  predicate Sound(s: State, e: Event) {
    Lossless(s, e) && (e.Set? ==> !Slotless(s, e))
  }

  ghost predicate ExitOk(s: State) {
    s.lock.InExit? ==>
      var p := s.lock.p;
      RunningAt(s, p) && !Forking(s, p) && p != s.init
  }

  ghost predicate Inv(s: State) {
    && InTable(s, s.init) && ExitOk(s)
    && (forall c :: 0 <= c < |s.conts| ==> ContOk(s.conts[c], c, s.init))
  }

  lemma ChangedOk(s: State, e: Event)
    requires Inv(s) && Enabled(s, e) && Sound(s, e)
    ensures ContOk(Changed(s.conts[Where(e)], e, s.init, s.lock), Where(e), s.init)
  {
    var c := Where(e);
    var ct := s.conts[c];
    assert ContOk(ct, c, s.init);
    hide ContOk, Count;
    ContSizes(ct, c, s.init);
    match e
    case ForkTake(p, np, own) => TakeKept(ct, c, s.init, p, np.k, own);
    case ExitLoad(p) =>
    case ExitStore(p) =>
      forall k | 0 <= k < NPROC && ct.table[k].state.Embryo?
        ensures ct.table[k].state.forker != p
      {
        assert At(s, Ref(c, k)) == ct.table[k];
      }
      ExitKept(ct, c, s.init, p, s.lock.v);
    case Reap(p, k) => SlotKept(ct, c, s.init, k, Proc(Unused, None));
    case Sleep(p) => SlotKept(ct, c, s.init, p.k, ct.table[p.k].(state := Sleeping));
    case Yield(p) => SlotKept(ct, c, s.init, p.k, ct.table[p.k].(state := Runnable));
    case Wake(p) => SlotKept(ct, c, s.init, p.k, ct.table[p.k].(state := Runnable));
    case Visit(_) => VisitKept(ct, c, s.init);
    case Check(_) => if ct.uproc == 0 { CheckKept(ct, c, s.init); }
    case Create(_, m) => CreateKept(ct, c, s.init, m);
    case Alloc(_) => Restated(ct, c, s.init, CEmbryo, ct.nextproc);
    case Abandon(_) => Restated(ct, c, s.init, CUnused, ct.nextproc);
    case Test(_, _, _) =>
    case Set(_, _, what) => Restated(ct, c, s.init, Outcome(what), ct.nextproc);
    case Kill(p) =>
      AwakeNotIdle(ct, c, s.init, p.k);
      Restated(ct, c, s.init, CStopping, ct.nextproc);
    case _ => ForkKept(ct, c, s.init, e, s.lock);
  }

  lemma AwakeNotIdle(ct: Cont, c: nat, init: Ref, k: nat)
    requires ContOk(ct, c, init) && k < NPROC && ct.table[k].state == Running
    ensures !Idle(ct.state)
  {
    assert Idle(ct.state) ==> Sleepy(ct.table[k], init);
  }

  lemma ContSizes(ct: Cont, c: nat, init: Ref)
    requires ContOk(ct, c, init)
    ensures CursorOk(ct)
  {
  }

  /** A process inside exit keeps running, and starts no fork, while it holds the lock. */
  lemma ExitStays(s: State, e: Event)
    requires ExitOk(s) && Enabled(s, e)
    ensures ExitOk(Apply(s, e))
  {
    var t := Apply(s, e);
    if t.lock.InExit? {
      var p := t.lock.p;
      forall r | InTable(t, r) && At(t, r).state.Embryo? ensures At(t, r).state.forker != p {
        assert InTable(s, r) && At(s, r).state.Embryo? && At(s, r).state.forker == At(t, r).state.forker;
      }
    }
  }

  lemma StepKeeps(s: State, e: Event)
    requires Inv(s) && Enabled(s, e) && Sound(s, e)
    ensures Inv(Apply(s, e))
  {
    hide Enabled, Changed, ContOk, ExitOk, Sound;
    ChangedOk(s, e);
    InitStays(s, e);
    ExitStays(s, e);
  }

  lemma InitStays(s: State, e: Event)
    requires Inv(s) && Enabled(s, e)
    ensures InTable(Apply(s, e), s.init) && Where(e) < |s.conts|
  {
    TableStays(s, e);
  }

  lemma TableStays(s: State, e: Event)
    requires Enabled(s, e)
    ensures Where(e) < |s.conts|
    ensures |Changed(s.conts[Where(e)], e, s.init, s.lock).table| == |s.conts[Where(e)].table|
  {
    hide Forking;
  }

  // ----- Whole runs -----

  ghost predicate Runs(s: State, es: seq<Event>)
    decreases |es|
  {
    es == [] || (Enabled(s, es[0]) && Runs(Apply(s, es[0]), es[1..]))
  }

  ghost function After(s: State, es: seq<Event>): State
    requires Runs(s, es)
    decreases |es|
  {
    if es == [] then s else After(Apply(s, es[0]), es[1..])
  }

  /** After userinit: the root container with initproc in it, and nothing else. */
  ghost predicate Initial(s: State) {
    && |s.conts| == NCONT && s.init == Ref(0, 0) && s.lock == Open && s.calls == map[]
    && (forall c :: 0 <= c < NCONT ==> |s.conts[c].table| == NPROC && s.conts[c].nextproc == 0)
    && (forall c, k :: 0 <= c < NCONT && 0 <= k < NPROC ==>
          s.conts[c].table[k] == Proc(if c == k == 0 then Runnable else Unused, None))
    && (forall c :: 0 <= c < NCONT ==>
          s.conts[c].(table := []) == if c == 0 then Cont(CRunnable, NPROC, 1, 0, []) else Cont(CUnused, 0, 0, 0, []))
  }

  lemma {:induction false} CountZero(table: seq<Proc>)
    requires forall k :: 0 <= k < |table| ==> !Counts(table[k])
    ensures Count(table) == 0
  {
    if table != [] { CountZero(table[..|table| - 1]); }
  }

  lemma InitialInv(s: State)
    requires Initial(s)
    ensures Inv(s)
  {
    forall c | 0 <= c < NCONT
      ensures ContOk(s.conts[c], c, s.init)
    {
      var ct := s.conts[c];
      assert ct.(table := []) == if c == 0 then Cont(CRunnable, NPROC, 1, 0, []) else Cont(CUnused, 0, 0, 0, []);
      var empty := ct.table[0 := Proc(Unused, None)];
      CountZero(empty);
      CountUpdate(empty, 0, ct.table[0]);
      assert ct.table == empty[0 := ct.table[0]];
    }
  }

  lemma {:induction false} RunSnoc(s: State, es: seq<Event>)
    requires Runs(s, es) && es != []
    ensures var n := |es| - 1;
            Runs(s, es[..n]) && Enabled(After(s, es[..n]), es[n]) && After(s, es) == Apply(After(s, es[..n]), es[n])
    decreases |es|
  {
    hide Enabled, Apply;
    if |es| > 1 {
      RunSnoc(Apply(s, es[0]), es[1..]);
      assert es[1..][..|es| - 2] == es[..|es| - 1][1..];
    }
  }

  lemma {:induction false} Extend(s: State, es: seq<Event>, e: Event)
    requires Runs(s, es) && Enabled(After(s, es), e)
    ensures Runs(s, es + [e]) && After(s, es + [e]) == Apply(After(s, es), e)
    decreases |es|
  {
    hide Enabled, Apply;
    if es == [] {
      assert [] + [e] == [e] && [e][1..] == [];
      assert Runs(Apply(s, e), []);
    } else {
      assert (es + [e])[1..] == es[1..] + [e];
      Extend(Apply(s, es[0]), es[1..], e);
    }
  }

  /** Every prefix of a run is a run, and its next step is enabled. */
  lemma {:induction false} Prefix(s: State, es: seq<Event>, j: nat)
    requires Runs(s, es) && j <= |es|
    ensures Runs(s, es[..j]) && (j < |es| ==> Enabled(After(s, es[..j]), es[j]))
    decreases |es| - j
  {
    if j == |es| {
      assert es[..j] == es;
    } else {
      Prefix(s, es, j + 1);
      RunSnoc(s, es[..j + 1]);
      assert es[..j + 1][..j] == es[..j];
    }
  }

  lemma {:induction false} SameConts(s: State, es: seq<Event>)
    requires Runs(s, es)
    ensures |After(s, es).conts| == |s.conts|
    decreases |es|
  {
    hide Enabled, Changed;
    if es != [] {
      TableStays(s, es[0]);
      SameConts(Apply(s, es[0]), es[1..]);
    }
  }

  /** No store of the run overwrites a count that has risen since its load. */
  ghost predicate LosslessRun(s: State, es: seq<Event>)
    requires Runs(s, es)
  {
    forall j :: 0 <= j < |es| ==> LosslessAt(s, es, j)
  }

  ghost predicate LosslessAt(s: State, es: seq<Event>, j: nat)
    requires j < |es|
  {
    Runs(s, es[..j]) && Lossless(After(s, es[..j]), es[j])
  }

  /** And no call of it sets the state of a container without slots. */
  ghost predicate SoundRun(s: State, es: seq<Event>)
    requires Runs(s, es)
  {
    forall j :: 0 <= j < |es| ==> SoundAt(s, es, j)
  }

  ghost predicate SoundAt(s: State, es: seq<Event>, j: nat)
    requires j < |es|
  {
    Runs(s, es[..j]) && Sound(After(s, es[..j]), es[j])
  }

  lemma {:induction false} RunKeeps(s: State, es: seq<Event>)
    requires Inv(s) && Runs(s, es) && SoundRun(s, es)
    ensures Inv(After(s, es))
    decreases |es|
  {
    if es != [] {
      hide Inv, Enabled, Apply, Sound;
      var n := |es| - 1;
      RunSnoc(s, es);
      forall j | 0 <= j < n
        ensures SoundAt(s, es[..n], j)
      {
        assert SoundAt(s, es, j) && es[..n][..j] == es[..j];
      }
      RunKeeps(s, es[..n]);
      assert SoundAt(s, es, n);
      StepKeeps(After(s, es[..n]), es[n]);
    }
  }

  function LiveCount(table: seq<Proc>): nat {
    if table == [] then 0
    else LiveCount(table[..|table| - 1]) + (if Live(table[|table| - 1].state) then 1 else 0)
  }

  lemma {:induction false} LiveCountLow(table: seq<Proc>)
    ensures LiveCount(table) <= Count(table)
  {
    if table != [] { LiveCountLow(table[..|table| - 1]); }
  }

  /** The parent of every process that lives or waits to be reaped is initproc or lives in the same table. */
  lemma ParentsLive(s0: State, es: seq<Event>, r: Ref)
    requires Initial(s0) && Runs(s0, es) && SoundRun(s0, es)
    requires InTable(After(s0, es), r) && r != After(s0, es).init
    requires Live(At(After(s0, es), r).state) || At(After(s0, es), r).state == Zombie
    ensures var s := After(s0, es); var parent := At(s, r).parent;
            && parent.Some? && InTable(s, parent.value) && Live(At(s, parent.value).state)
            && (parent.value == s.init || parent.value.c == r.c)
  {
    hide Initial, Runs, After, SoundRun;
    InitialInv(s0);
    RunKeeps(s0, es);
    var s := After(s0, es);
    assert ContOk(s.conts[r.c], r.c, s.init) && ContOk(s.conts[s.init.c], s.init.c, s.init);
    assert Parented(s.conts[r.c], r.c, s.init, r.k);
  }
}
