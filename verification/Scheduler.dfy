/**
 The scheduler's cursor through the process table of a container (container.c).
 */
module Scheduler {
  import opened Containers

  /** The cursor of container c is within the slots it goes round. */
  predicate HasCursor(s: State, c: nat) {
    c < |s.conts| && CursorOk(s.conts[c])
  }

  /** Container c is runnable in every state of the run. */
  ghost predicate Steady(s: State, es: seq<Event>, c: nat)
    requires Runs(s, es)
    decreases |es|
  {
    && c < |s.conts| && s.conts[c].state == CRunnable
    && (es == [] || Steady(Apply(s, es[0]), es[1..], c))
  }

  function Visits(es: seq<Event>, c: nat): nat {
    if es == [] then 0 else (if es[0] == Visit(c) then 1 else 0) + Visits(es[1..], c)
  }

  lemma CursorStep(s: State, e: Event, c: nat)
    requires HasCursor(s, c) && Enabled(s, e) && c < |s.conts| && s.conts[c].state == CRunnable
    requires c < |Apply(s, e).conts| && Apply(s, e).conts[c].state == CRunnable
    ensures var a, b := s.conts[c], Apply(s, e).conts[c];
            && 0 < a.mproc == b.mproc && a.nextproc < a.mproc
            && b.nextproc ==
                 if e == Visit(c) then (if a.nextproc + 1 == a.mproc then 0 else a.nextproc + 1) else a.nextproc
    ensures HasCursor(Apply(s, e), c)
  {
    assert CursorOk(s.conts[c]);
  }

  /** a modulo m: position a on a circle of m slots. */
  function Turn(a: nat, m: nat): (r: nat)
    requires m > 0
    ensures r < m && (a < m ==> r == a)
  {
    if a < m then a else Turn(a - m, m)
  }

  /** The cursor has moved one slot for each visit, around the container's slots. */
  lemma {:induction false} CursorAfter(s: State, es: seq<Event>, c: nat)
    requires HasCursor(s, c) && Runs(s, es) && Steady(s, es, c)
    ensures c < |After(s, es).conts| && 0 < s.conts[c].mproc == After(s, es).conts[c].mproc
    ensures After(s, es).conts[c].nextproc == Turn(s.conts[c].nextproc + Visits(es, c), s.conts[c].mproc)
    decreases |es|
  {
    hide HasCursor, Enabled, Apply;
    ContSizesOf(s, c);
    if es != [] {
      var t := Apply(s, es[0]);
      CursorStep(s, es[0], c);
      CursorAfter(t, es[1..], c);
    }
  }

  lemma {:induction false} SteadyPrefix(s: State, es: seq<Event>, c: nat, i: nat)
    requires Runs(s, es) && Steady(s, es, c) && i <= |es|
    ensures Runs(s, es[..i]) && Steady(s, es[..i], c)
    ensures i < |es| ==> Enabled(After(s, es[..i]), es[i])
    decreases i
  {
    hide Enabled, Apply;
    if i > 0 {
      SteadyPrefix(Apply(s, es[0]), es[1..], c, i - 1);
      assert es[..i][1..] == es[1..][..i - 1];
    }
  }

  lemma {:induction false} FindVisit(es: seq<Event>, c: nat, d: nat) returns (i: nat)
    requires d < Visits(es, c)
    ensures i < |es| && es[i] == Visit(c) && Visits(es[..i], c) == d
    decreases |es|
  {
    if es[0] == Visit(c) && d == 0 {
      i := 0;
    } else {
      var j := FindVisit(es[1..], c, if es[0] == Visit(c) then d - 1 else d);
      i := j + 1;
      assert es[..i][1..] == es[1..][..j];
    }
  }

  lemma {:induction false} SplitVisits(es: seq<Event>, c: nat, i: nat, j: nat)
    requires i <= j <= |es|
    ensures Visits(es[..j], c) == Visits(es[..i], c) + Visits(es[i..j], c)
    decreases i
  {
    if i == 0 {
      assert es[i..j] == es[..j];
    } else {
      SplitVisits(es[1..], c, i - 1, j - 1);
      assert es[..j][1..] == es[1..][..j - 1] && es[..i][1..] == es[1..][..i - 1] && es[1..][i - 1..j - 1] == es[i..j];
    }
  }

  /** The slot that the visit at position i of the run examines. */
  ghost predicate Examines(s: State, es: seq<Event>, c: nat, i: nat, k: nat) {
    && i < |es| && es[i] == Visit(c) && Runs(s, es[..i]) && c < |After(s, es[..i]).conts|
    && After(s, es[..i]).conts[c].nextproc == k
  }

  lemma Target(start: nat, k: nat, m: nat) returns (d: nat)
    requires start < m && k < m
    ensures d < m && Turn(start + d, m) == k
  {
    d := if k >= start then k - start else k - start + m;
  }

  /** Within mproc visits to a runnable container every slot is examined, and the process in it runs if it can. */
  lemma BoundedWaiting(s: State, es: seq<Event>, c: nat, k: nat) returns (i: nat)
    requires HasCursor(s, c) && Runs(s, es) && Steady(s, es, c) && k < s.conts[c].mproc <= Visits(es, c)
    ensures Examines(s, es, c, i, k) && Visits(es[..i], c) < s.conts[c].mproc
    ensures Enabled(After(s, es[..i]), Visit(c))
    ensures var t := After(s, es[..i]);
            InTable(t, Ref(c, k)) && (At(t, Ref(c, k)).state == Runnable ==> RunningAt(Apply(t, Visit(c)), Ref(c, k)))
  {
    assert c < |s.conts| && s.conts[c].state == CRunnable;
    hide HasCursor, Turn;
    ContSizesOf(s, c);
    var d := Target(s.conts[c].nextproc, k, s.conts[c].mproc);
    i := FindVisit(es, c, d);
    hide Runs, After, Steady, Visits;
    SteadyPrefix(s, es, c, i);
    CursorAfter(s, es[..i], c);
  }

  lemma ContSizesOf(s: State, c: nat)
    requires HasCursor(s, c) && c < |s.conts| && s.conts[c].state == CRunnable
    ensures s.conts[c].nextproc < s.conts[c].mproc
  {
    assert CursorOk(s.conts[c]);
  }

  /** And no slot is examined twice within mproc visits. */
  lemma ExaminedOnce(s: State, es: seq<Event>, c: nat, i: nat, j: nat, k: nat)
    requires HasCursor(s, c) && Runs(s, es) && Steady(s, es, c) && i < j
    requires Examines(s, es, c, i, k) && Examines(s, es, c, j, k)
    ensures Visits(es[i..j], c) >= s.conts[c].mproc
  {
    hide HasCursor, Runs, After, Steady, Turn, Visits, Examines;
    CursorAt(s, es, c, i, k);
    CursorAt(s, es, c, j, k);
    SplitVisits(es, c, i, j);
    SomeVisit(es[i..j], c);
    SameSlot(s.conts[c].nextproc + Visits(es[..i], c), Visits(es[i..j], c), s.conts[c].mproc);
  }

  lemma CursorAt(s: State, es: seq<Event>, c: nat, i: nat, k: nat)
    requires HasCursor(s, c) && Runs(s, es) && Steady(s, es, c) && Examines(s, es, c, i, k)
    ensures i < |es| && es[i] == Visit(c) && c < |s.conts| && s.conts[c].mproc > 0
    ensures Turn(s.conts[c].nextproc + Visits(es[..i], c), s.conts[c].mproc) == k
  {
    hide HasCursor, Enabled, Apply, Turn, Visits;
    SteadyPrefix(s, es, c, i);
    CursorAfter(s, es[..i], c);
  }

  lemma SomeVisit(es: seq<Event>, c: nat)
    requires es != [] && es[0] == Visit(c)
    ensures Visits(es, c) > 0
  {
  }

  lemma {:induction false} SameSlot(a: nat, n: nat, m: nat)
    requires m > 0 && n > 0 && Turn(a, m) == Turn(a + n, m)
    ensures n >= m
  {
    if a >= m { SameSlot(a - m, n, m); }
  }

  // ----- One process per visit -----

  /** The slots whose process has begun to run from one table to the next. */
  function Dispatched(a: seq<Proc>, b: seq<Proc>): nat
    requires |a| == |b|
  {
    if a == [] then 0
    else
      var n := |a| - 1;
      Dispatched(a[..n], b[..n]) + One(a[n].state != Running && b[n].state == Running)
  }

  /** The processes of container c that a run lets run. */
  ghost function Dispatches(s: State, es: seq<Event>, c: nat): nat
    requires Runs(s, es) && c < |s.conts|
    decreases |es|
  {
    if es == [] then 0
    else
      TableStays(s, es[0]);
      var t := Apply(s, es[0]);
      Dispatched(s.conts[c].table, t.conts[c].table) + Dispatches(t, es[1..], c)
  }

  lemma {:induction false} DispatchedAt(a: seq<Proc>, b: seq<Proc>, k: nat)
    requires |a| == |b| && forall j :: 0 <= j < |a| && j != k && b[j].state == Running ==> a[j].state == Running
    ensures Dispatched(a, b) <= One(k < |a| && a[k].state != Running && b[k].state == Running)
  {
    if a != [] { DispatchedAt(a[..|a| - 1], b[..|a| - 1], k); }
  }

  lemma StepDispatches(s: State, e: Event, c: nat)
    requires Enabled(s, e) && c < |s.conts|
    ensures c < |Apply(s, e).conts| && |Apply(s, e).conts[c].table| == |s.conts[c].table|
    ensures Dispatched(s.conts[c].table, Apply(s, e).conts[c].table) <= One(e == Visit(c))
  {
    hide Forking, Dispatched;
    TableStays(s, e);
    DispatchedAt(s.conts[c].table, Apply(s, e).conts[c].table, s.conts[c].nextproc);
  }

  /** A visit lets at most one process of the container run, and nothing else does; so a pass of the
      scheduler, which visits each container once, runs at most one process of each. */
  lemma {:induction false} OnePerVisit(s: State, es: seq<Event>, c: nat)
    requires Runs(s, es) && c < |s.conts|
    ensures Dispatches(s, es, c) <= Visits(es, c)
    decreases |es|
  {
    hide Enabled, Apply, Dispatched;
    if es != [] {
      StepDispatches(s, es[0], c);
      OnePerVisit(Apply(s, es[0]), es[1..], c);
    }
  }
}
