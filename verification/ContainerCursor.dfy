/**
 The scheduler's cursors.  A container that can be scheduled has at least one process slot, and its
 cursor is one of them; this module says in which runs that is so.
 */
module ContainerCursor {
  import opened Common
  import opened Containers

  /** In every container the cursor is within the slots it goes round. */
  ghost predicate Cursors(s: State) {
    forall c :: 0 <= c < |s.conts| ==> CursorOk(s.conts[c])
  }

  lemma CursorChanged(s: State, e: Event)
    requires Enabled(s, e) && Where(e) < |s.conts| && CursorOk(s.conts[Where(e)])
    ensures |Apply(s, e).conts| == |s.conts| && Apply(s, e).conts == s.conts[Where(e) := Apply(s, e).conts[Where(e)]]
    ensures CursorOk(Apply(s, e).conts[Where(e)]) <==> !Slotless(s, e)
  {
    hide Forking;
  }

  /** A step keeps the cursors in place exactly when it does not set the state of a container without
      slots. */
  lemma StepCursors(s: State, e: Event)
    requires Cursors(s) && Enabled(s, e)
    ensures Cursors(Apply(s, e)) <==> !Slotless(s, e)
  {
    hide Enabled, Apply, CursorOk, Slotless;
    TableStays(s, e);
    CursorChanged(s, e);
  }

  ghost predicate CursorsAt(s: State, es: seq<Event>, j: nat)
    requires j <= |es|
  {
    Runs(s, es[..j]) && Cursors(After(s, es[..j]))
  }

  ghost predicate SlottedAt(s: State, es: seq<Event>, j: nat)
    requires j < |es|
  {
    Runs(s, es[..j]) && !Slotless(After(s, es[..j]), es[j])
  }

  /** No step of the run sets the state of a container without slots. */
  ghost predicate SlottedRun(s: State, es: seq<Event>) {
    forall j :: 0 <= j < |es| ==> SlottedAt(s, es, j)
  }

  lemma CursorsNext(s: State, es: seq<Event>, j: nat)
    requires Runs(s, es) && j < |es| && CursorsAt(s, es, j)
    ensures CursorsAt(s, es, j + 1) <==> SlottedAt(s, es, j)
  {
    Prefix(s, es, j);
    Prefix(s, es, j + 1);
    RunSnoc(s, es[..j + 1]);
    assert es[..j + 1][..j] == es[..j];
    hide Runs, After, Enabled, Apply, Cursors, Slotless;
    StepCursors(After(s, es[..j]), es[j]);
  }

  lemma {:induction false} RunCursors(s: State, es: seq<Event>, n: nat)
    requires Cursors(s) && Runs(s, es) && n <= |es| && forall j :: 0 <= j < n ==> SlottedAt(s, es, j)
    ensures forall j :: 0 <= j <= n ==> CursorsAt(s, es, j)
  {
    hide CursorsAt, SlottedAt, Runs, Cursors;
    if n == 0 {
      AtStart(s, es);
    } else {
      RunCursors(s, es, n - 1);
      CursorsNext(s, es, n - 1);
    }
  }

  lemma AtStart(s: State, es: seq<Event>)
    requires Cursors(s)
    ensures CursorsAt(s, es, 0)
  {
    assert es[..0] == [] && Runs(s, []);
  }

  lemma InitialCursors(s0: State)
    requires Initial(s0)
    ensures Cursors(s0)
  {
    forall c | 0 <= c < |s0.conts| ensures CursorOk(s0.conts[c]) {
      assert s0.conts[c].(table := []) ==
             if c == 0 then Cont(CRunnable, NPROC, 1, 0, []) else Cont(CUnused, 0, 0, 0, []);
    }
  }

  /** In all states of a run the cursors are in place if and only if no step of it sets the state of a
      container without slots.  Lost updates of the process counts make no difference. */
  lemma CursorsExactly(s0: State, es: seq<Event>)
    requires Initial(s0) && Runs(s0, es)
    ensures (forall j :: 0 <= j <= |es| ==> CursorsAt(s0, es, j)) <==> SlottedRun(s0, es)
  {
    InitialCursors(s0);
    hide CursorsAt, SlottedAt, Runs, Cursors, Initial;
    if SlottedRun(s0, es) { RunCursors(s0, es, |es|); }
    if forall j :: 0 <= j <= |es| ==> CursorsAt(s0, es, j) {
      forall j | 0 <= j < |es| ensures SlottedAt(s0, es, j) {
        assert CursorsAt(s0, es, j) && CursorsAt(s0, es, j + 1);
        CursorsNext(s0, es, j);
      }
    }
  }

  // ----- How a container without slots gets its state set -----

  /** The container has been created, with slots, and not been reclaimed. */
  predicate Formed(ct: Cont) {
    ct.state != CUnused && ct.state != CEmbryo && ct.mproc > 0
  }

  lemma FormedStep(s: State, e: Event, c: nat)
    requires Enabled(s, e) && c < |s.conts| && Formed(s.conts[c]) && e != Check(c)
    ensures c < |Apply(s, e).conts| && Formed(Apply(s, e).conts[c])
  {
    hide Forking;
  }

  lemma CallStep(s: State, e: Event, p: Ref)
    requires Enabled(s, e) && p in Apply(s, e).calls
    ensures var call := Apply(s, e).calls[p];
            if e.Test? && e.p == p then e == Test(p, call.c, call.what) && call.c < |s.conts|
            else p in s.calls && s.calls[p] == call
  {
    hide Forking, Changed;
  }

  lemma FormedNext(s: State, e: Event, c: nat)
    requires Enabled(s, e) && c < |s.conts|
    ensures c < |Apply(s, e).conts|
    ensures Formed(s.conts[c]) && e != Check(c) ==> Formed(Apply(s, e).conts[c])
  {
    if Formed(s.conts[c]) && e != Check(c) { FormedStep(s, e, c); } else { TableStays(s, e); }
  }

  /** Where the call that p is in began, and what has been of the container since. */
  lemma {:induction false} CallSince(s: State, es: seq<Event>, p: Ref, c: nat) returns (i: nat)
    requires Initial(s) && Runs(s, es) && p in After(s, es).calls && After(s, es).calls[p].c == c < |s.conts|
    ensures i < |es| && es[i] == Test(p, c, After(s, es).calls[p].what)
    ensures Runs(s, es[..i]) && Enabled(After(s, es[..i]), es[i]) && c < |After(s, es).conts|
    ensures c < |After(s, es[..i]).conts|
    ensures Formed(After(s, es[..i]).conts[c]) && Check(c) !in es[i..] ==> Formed(After(s, es).conts[c])
    decreases |es|
  {
    hide Initial, Runs, After, Enabled, Apply, Formed;
    NoCalls(s, p);
    var n := |es| - 1;
    RunSnoc(s, es);
    var t := After(s, es[..n]);
    SameConts(s, es[..n]);
    CallStep(t, es[n], p);
    FormedNext(t, es[n], c);
    if es[n].Test? && es[n].p == p {
      i := n;
      assert es[i..] == [es[n]];
    } else {
      i := CallSince(s, es[..n], p, c);
      assert es[..n][..i] == es[..i] && es[i..] == es[..n][i..] + [es[n]];
    }
  }

  lemma NoCalls(s: State, p: Ref)
    requires Initial(s)
    ensures Runs(s, []) && p !in After(s, []).calls
  {
  }

  /** When a call sets the state of a container without slots, and the cursors have been in place so far,
      the container was reclaimed between the test of the call and its store, or it was created without
      slots and is being started. */
  lemma SlotlessOnly(s0: State, es: seq<Event>, j: nat, p: Ref, c: nat, what: Control) returns (i: nat)
    requires Initial(s0) && Runs(s0, es) && j < |es| && es[j] == Set(p, c, what) && !SlottedAt(s0, es, j)
    requires forall m :: 0 <= m <= j ==> CursorsAt(s0, es, m)
    ensures i < j && es[i] == Test(p, c, what)
    ensures || Check(c) in es[i..j]
            || (what == Start && Runs(s0, es[..i]) && c < |After(s0, es[..i]).conts|
                && After(s0, es[..i]).conts[c].mproc <= 0)
  {
    hide Initial, Runs, After;
    Prefix(s0, es, j);
    SameConts(s0, es[..j]);
    i := CallSince(s0, es[..j], p, c);
    assert es[..j][..i] == es[..i] && es[..j][i..] == es[i..j];
    assert CursorsAt(s0, es, i);
    var ct := After(s0, es[..i]).conts[c];
    assert CursorOk(ct);
    assert what != Start || ct.mproc > 0 ==> Formed(ct);
  }
}
