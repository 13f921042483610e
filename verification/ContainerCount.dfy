/**
 The process count of a container (uproc) against the processes that are to be counted: what it is
 exactly after any run, and in which runs it can be trusted.
 */
module ContainerCount {
  import opened Common
  import opened Containers

  function Excess(ct: Cont): int {
    ct.uproc - Count(ct.table)
  }

  lemma SlotExcess(ct: Cont, k: nat, p: Proc, uproc: int)
    requires k < |ct.table|
    ensures Excess(ct.(table := ct.table[k := p], uproc := uproc)) ==
            Excess(ct) + (uproc - ct.uproc) + One(Counts(ct.table[k])) - One(Counts(p))
  {
    CountUpdate(ct.table, k, p);
  }

  /** What a step does to the difference between the count and the processes to be counted: a store
      changes it by how far its loaded value is off, so it drops exactly when the count rose since. */
  lemma StepExcess(s: State, e: Event)
    requires Enabled(s, e)
    ensures Where(e) < |s.conts|
    ensures Excess(Changed(s.conts[Where(e)], e, s.init, s.lock))
            == Excess(s.conts[Where(e)]) + Gap(s, e) + One(e.ForkNoCopy?)
    ensures Excess(Changed(s.conts[Where(e)], e, s.init, s.lock)) < Excess(s.conts[Where(e)])
            <==> LoadedBy(s, e).Some? && s.conts[Where(e)].uproc > LoadedBy(s, e).value
  {
    hide Forking, Count, Changed, Excess;
    ExcessAfter(s, e);
  }

  predicate Forks(e: Event) {
    e.ForkTake? || e.ForkNoStack? || e.ForkLoad? || e.ForkStore? || e.ForkNoCopy? || e.ForkAdopt? || e.ForkRun?
  }

  lemma ForkExcess(s: State, e: Event)
    requires Enabled(s, e) && Forks(e)
    ensures Excess(Changed(s.conts[Where(e)], e, s.init, s.lock))
            == Excess(s.conts[Where(e)]) + Gap(s, e) + One(e.ForkNoCopy?)
  {
    hide Forking, Count;
    var ct := s.conts[Where(e)];
    var ct' := Changed(ct, e, s.init, s.lock);
    match e
    case ForkTake(_, np, _) => SlotExcess(ct, np.k, ct'.table[np.k], ct'.uproc);
    case ForkNoStack(np) => SlotExcess(ct, np.k, ct'.table[np.k], ct'.uproc);
    case ForkLoad(np) => SlotExcess(ct, np.k, ct'.table[np.k], ct'.uproc);
    case ForkStore(np) => SlotExcess(ct, np.k, ct'.table[np.k], ct'.uproc);
    case ForkNoCopy(np) => SlotExcess(ct, np.k, ct'.table[np.k], ct'.uproc);
    case ForkAdopt(np) => SlotExcess(ct, np.k, ct'.table[np.k], ct'.uproc);
    case ForkRun(np) => SlotExcess(ct, np.k, ct'.table[np.k], ct'.uproc);
  }

  lemma ExcessAfter(s: State, e: Event)
    requires Enabled(s, e)
    ensures Excess(Changed(s.conts[Where(e)], e, s.init, s.lock))
            == Excess(s.conts[Where(e)]) + Gap(s, e) + One(e.ForkNoCopy?)
  {
    hide Forking, Count;
    if Forks(e) {
      ForkExcess(s, e);
    } else {
      var ct := s.conts[Where(e)];
      var ct' := Changed(ct, e, s.init, s.lock);
      match e
      case ExitStore(p) => ExitCount(ct, p, s.init, s.lock.v);
      case Reap(_, k) => SlotExcess(ct, k, ct'.table[k], ct'.uproc);
      case Sleep(p) => SlotExcess(ct, p.k, ct'.table[p.k], ct'.uproc);
      case Yield(p) => SlotExcess(ct, p.k, ct'.table[p.k], ct'.uproc);
      case Wake(p) => SlotExcess(ct, p.k, ct'.table[p.k], ct'.uproc);
      case Visit(_) => SlotExcess(ct.(nextproc := ct'.nextproc), ct.nextproc, ct'.table[ct.nextproc], ct'.uproc);
        assert ct.table[ct.nextproc].state != Runnable ==> ct'.table == ct.table;
      case _ =>
    }
  }

  /** The sum of what the stores into container c were off by. */
  ghost function Gaps(s: State, es: seq<Event>, c: nat): int
    requires Runs(s, es)
    decreases |es|
  {
    if es == [] then 0
    else
      TableStays(s, es[0]);
      (if Where(es[0]) == c then Gap(s, es[0]) else 0) + Gaps(Apply(s, es[0]), es[1..], c)
  }

  /** Forks into container c that failed after the process was counted. */
  function Losses(es: seq<Event>, c: nat): nat {
    if es == [] then 0 else One(es[0].ForkNoCopy? && es[0].np.c == c) + Losses(es[1..], c)
  }

  /** The count is the processes that live or are being forked, plus every fork that failed to copy
      its parent, a path that never takes the count back, plus what the stores were off by. */
  lemma {:induction false} ExactCount(s: State, es: seq<Event>, c: nat)
    requires Runs(s, es) && c < |s.conts|
    ensures |After(s, es).conts| == |s.conts|
    ensures Excess(After(s, es).conts[c]) == Excess(s.conts[c]) + Losses(es, c) + Gaps(s, es, c)
    decreases |es|
  {
    if es != [] {
      hide Excess, Enabled, Changed, Gap;
      StepExcess(s, es[0]);
      OnlyNoCopy(es[0]);
      ExactCount(Apply(s, es[0]), es[1..], c);
    }
  }

  lemma OnlyNoCopy(e: Event)
    ensures e.ForkNoCopy? ==> Where(e) == e.np.c
  {
  }

  /** So the count falls below the processes to be counted exactly in the runs whose stores lost more
      updates than failed forks left behind. */
  lemma UndercountsExactly(s0: State, es: seq<Event>, c: nat)
    requires Initial(s0) && Runs(s0, es) && c < NCONT
    ensures c < |After(s0, es).conts|
    ensures var ct := After(s0, es).conts[c];
            ct.uproc < Count(ct.table) <==> Losses(es, c) + Gaps(s0, es, c) < 0
  {
    hide Runs, After, Gaps, Losses;
    ExactCount(s0, es, c);
    InitialExcess(s0, c);
  }

  // ----- Runs without lost updates -----

  lemma {:induction false} RunExcess(s: State, es: seq<Event>, c: nat)
    requires Runs(s, es) && LosslessRun(s, es) && c < |s.conts|
    ensures c < |After(s, es).conts| && Excess(After(s, es).conts[c]) >= Excess(s.conts[c])
    decreases |es|
  {
    SameConts(s, es);
    if es != [] {
      var n := |es| - 1;
      RunSnoc(s, es);
      hide Runs, After, Enabled, Changed, Excess, Gap;
      forall j | 0 <= j < n
        ensures LosslessAt(s, es[..n], j)
      {
        assert LosslessAt(s, es, j) && es[..n][..j] == es[..j];
      }
      RunExcess(s, es[..n], c);
      assert LosslessAt(s, es, n);
      StepExcess(After(s, es[..n]), es[n]);
    }
  }

  /** Unless a store loses an update, a container's count of processes is never below the number that
      live in its table. */
  lemma NeverUndercounts(s0: State, es: seq<Event>, c: nat)
    requires Initial(s0) && Runs(s0, es) && LosslessRun(s0, es) && c < NCONT
    ensures c < |After(s0, es).conts|
    ensures After(s0, es).conts[c].uproc >= LiveCount(After(s0, es).conts[c].table)
  {
    hide Runs, After, LosslessRun;
    RunExcess(s0, es, c);
    InitialExcess(s0, c);
    LiveCountLow(After(s0, es).conts[c].table);
  }

  /** So a container is reclaimed only when nothing in it can still run. */
  lemma ReclaimedEmpty(s0: State, es: seq<Event>, c: nat)
    requires Initial(s0) && Runs(s0, es) && LosslessRun(s0, es) && Enabled(After(s0, es), Check(c))
    requires After(s0, es).conts[c].uproc == 0
    ensures forall k :: 0 <= k < |After(s0, es).conts[c].table| ==> !Live(After(s0, es).conts[c].table[k].state)
  {
    hide Runs, After, LosslessRun;
    SameConts(s0, es);
    RunExcess(s0, es, c);
    InitialExcess(s0, c);
    var table := After(s0, es).conts[c].table;
    forall k | 0 <= k < |table| ensures !Live(table[k].state) {
      if Live(table[k].state) { CountNone(table, k); }
    }
  }

  // ----- Runs in which no update falls between a load and its store -----

  /** The step stores the count of container c. */
  predicate Stores(e: Event, c: nat) {
    (e.ForkStore? || e.ExitStore?) && Where(e) == c
  }

  /** e loads what f stores. */
  predicate LoadFor(e: Event, f: Event) {
    || (e.ForkLoad? && f == ForkStore(e.np))
    || (e.ExitLoad? && f == ExitStore(e.p))
  }

  /** Step i of the run is the load that belongs to the store at j. */
  predicate Pair(es: seq<Event>, i: nat, j: nat) {
    i < j < |es| && LoadFor(es[i], es[j]) && es[j] !in es[i + 1..j]
  }

  /** Between a load and its store no one else stores the same count. */
  ghost predicate Undisturbed(es: seq<Event>) {
    forall i: nat, j: nat, m :: Pair(es, i, j) && i < m < j ==> !Stores(es[m], Where(es[j]))
  }

  lemma CountStays(s: State, e: Event, c: nat)
    requires Enabled(s, e) && c < |s.conts| && !Stores(e, c)
    ensures c < |Apply(s, e).conts| && Apply(s, e).conts[c].uproc == s.conts[c].uproc
  {
    hide Forking;
  }

  lemma ForkLoadedStep(s: State, e: Event, np: Ref)
    requires Enabled(s, e) && LoadedBy(Apply(s, e), ForkStore(np)).Some?
    ensures e == ForkLoad(np) ||
            (e != ForkStore(np) && LoadedBy(s, ForkStore(np)) == LoadedBy(Apply(s, e), ForkStore(np)))
    ensures e == ForkLoad(np) ==>
              np.c < |s.conts| && LoadedBy(Apply(s, e), ForkStore(np)).value == s.conts[np.c].uproc
  {
    hide Forking;
  }

  /** A loaded value was loaded by this step, or is older and this step is not the store. */
  lemma LoadedStep(s: State, e: Event, f: Event)
    requires Enabled(s, e) && LoadedBy(Apply(s, e), f).Some? && Where(f) < |s.conts|
    ensures LoadFor(e, f) || (e != f && LoadedBy(s, f) == LoadedBy(Apply(s, e), f))
    ensures LoadFor(e, f) ==> LoadedBy(Apply(s, e), f).value == s.conts[Where(f)].uproc
  {
    if f.ForkStore? {
      hide Enabled, Apply, LoadedBy;
      ForkLoadedStep(s, e, f.np);
    } else {
      hide Forking, Changed;
    }
  }

  /** Where the value that f is going to store was loaded. */
  lemma {:induction false} LoadedSince(s: State, es: seq<Event>, f: Event) returns (i: nat)
    requires Initial(s) && Runs(s, es) && Where(f) < |s.conts| && LoadedBy(After(s, es), f).Some?
    ensures i < |es| && LoadFor(es[i], f) && f !in es[i + 1..]
    ensures Where(f) < |After(s, es).conts|
    ensures (forall m :: i < m < |es| ==> !Stores(es[m], Where(f))) ==>
              LoadedBy(After(s, es), f).value == After(s, es).conts[Where(f)].uproc
    decreases |es|
  {
    hide Initial, Runs, After, Enabled, Apply, LoadedBy, LoadFor, Stores, Where;
    NothingLoaded(s, f);
    SameConts(s, es);
    var n := |es| - 1;
    RunSnoc(s, es);
    var t := After(s, es[..n]);
    SameConts(s, es[..n]);
    LoadedStep(t, es[n], f);
    if LoadFor(es[n], f) {
      i := n;
      LoadsOnly(es[n], f, Where(f));
      CountStays(t, es[n], Where(f));
    } else {
      i := LoadedSince(s, es[..n], f);
      assert es[i + 1..] == es[..n][i + 1..] + [es[n]];
      assert forall m :: i < m < n ==> es[..n][m] == es[m];
      if !Stores(es[n], Where(f)) { CountStays(t, es[n], Where(f)); }
    }
  }

  lemma LoadsOnly(e: Event, f: Event, c: nat)
    requires LoadFor(e, f)
    ensures !Stores(e, c)
  {
  }

  lemma NothingLoaded(s: State, f: Event)
    requires Initial(s)
    ensures Runs(s, []) && LoadedBy(After(s, []), f).None?
  {
  }

  lemma InitialExcess(s: State, c: nat)
    requires Initial(s) && c < NCONT
    ensures Excess(s.conts[c]) == 0
  {
    var ct := s.conts[c];
    assert ct.(table := []) == if c == 0 then Cont(CRunnable, NPROC, 1, 0, []) else Cont(CUnused, 0, 0, 0, []);
    var empty := ct.table[0 := Proc(Unused, None)];
    CountZero(empty);
    CountUpdate(empty, 0, ct.table[0]);
    assert ct.table == empty[0 := ct.table[0]];
  }

  lemma UndisturbedAt(s: State, es: seq<Event>, j: nat)
    requires Initial(s) && Runs(s, es) && Undisturbed(es) && j < |es|
    ensures LosslessAt(s, es, j)
  {
    Prefix(s, es, j);
    hide Runs, After, Enabled, LoadedBy, Initial;
    var t, f := After(s, es[..j]), es[j];
    TableStays(t, f);
    SameConts(s, es[..j]);
    if LoadedBy(t, f).Some? {
      var i := LoadedSince(s, es[..j], f);
      assert es[..j][i + 1..] == es[i + 1..j];
      assert Pair(es, i, j);
      assert forall m :: i < m < j ==> es[..j][m] == es[m];
    }
  }

  /** When no one else stores the count between a load and its store, no update is lost. */
  lemma UndisturbedLossless(s: State, es: seq<Event>)
    requires Initial(s) && Runs(s, es) && Undisturbed(es)
    ensures LosslessRun(s, es)
  {
    forall j | 0 <= j < |es| ensures LosslessAt(s, es, j) {
      UndisturbedAt(s, es, j);
    }
  }
}
