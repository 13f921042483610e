/**
 Calls of piperead and pipewrite that nobody interferes with, from any state that can be reached: what
 they have done when they return.
 */
module PipeCalls {
  import opened Common
  import opened PipeProtocol

  /** A run of steps of p that ends with p out of its call and the lock free. */
  ghost predicate Alone(s: State, p: Pid, es: seq<Event>) {
    && (forall i :: 0 <= i < |es| ==> es[i] == Step(p)) && Runs(s, es)
    && p in After(s, es).pcs && After(s, es).pcs[p] == Idle && After(s, es).holder == None
  }

  lemma OneMore(s: State, p: Pid, es: seq<Event>)
    requires |s.data| == PIPESIZE && Enabled(s, Step(p)) && Alone(Apply(s, Step(p)), p, es)
    ensures Alone(s, p, [Step(p)] + es) && After(s, [Step(p)] + es) == After(Apply(s, Step(p)), es)
  {
    hide Apply, Enabled;
    Extend(s, Step(p), es);
  }

  lemma Returns(s: State, p: Pid) returns (es: seq<Event>)
    requires p in s.pcs && |s.data| == PIPESIZE && (s.pcs[p].ReadEnd? || s.pcs[p].WriteEnd?)
    ensures Alone(s, p, es) && After(s, es).taken == s.taken && After(s, es).written == s.written
  {
    var t := Apply(s, Step(p));
    assert Alone(t, p, []);
    OneMore(s, p, []);
    es := [Step(p)] + [];
  }

  /** One round of piperead's copy loop. */
  lemma CopyStep(s: State, p: Pid)
    requires Inv(s) && p in s.pcs && s.pcs[p].Reading?
    ensures |s.data| == PIPESIZE && |s.taken| <= |s.written| && |s.pcs[p].got| <= s.pcs[p].n && Enabled(s, Step(p))
    ensures var t := Apply(s, Step(p));
            && Inv(t) && |t.data| == PIPESIZE && p in t.pcs && t.written == s.written
            && if |s.pcs[p].got| == s.pcs[p].n || |s.taken| == |s.written|
               then t.pcs[p].ReadEnd? && t.taken == s.taken
               else t.taken == s.taken + [s.written[|s.taken|]] &&
                    t.pcs[p] == Reading(s.pcs[p].n, s.pcs[p].got + [s.written[|s.taken|]])
  {
    StepKeeps(s, Step(p));
    assert ReadSoFar(s, s.pcs[p]);
    Counters(|s.taken|, |s.written|);
    assert |s.taken| < |s.written| ==> s.data[|s.taken| % PIPESIZE] == s.written[|s.taken|];
    hide Locking, EndsOpen, Reads, Wakeup;
  }

  /** The copy loop of piperead. */
  lemma {:induction false} Copies(s: State, p: Pid) returns (es: seq<Event>)
    requires Inv(s) && p in s.pcs && s.pcs[p].Reading?
    ensures |s.taken| <= |s.written| && |s.pcs[p].got| <= s.pcs[p].n
    ensures Alone(s, p, es) && After(s, es).written == s.written
    ensures var k := Min(s.pcs[p].n - |s.pcs[p].got|, |s.written| - |s.taken|);
            After(s, es).taken == s.taken + s.written[|s.taken|..|s.taken| + k]
    decreases if p in s.pcs && s.pcs[p].Reading? then s.pcs[p].n - |s.pcs[p].got| else 0
  {
    hide Inv, Enabled, Apply, Alone, Runs, After;
    CopyStep(s, p);
    var t := Apply(s, Step(p));
    if |s.pcs[p].got| == s.pcs[p].n || |s.taken| == |s.written| {
      es := Returns(t, p);
      assert s.taken + s.written[|s.taken|..|s.taken|] == s.taken;
    } else {
      es := Copies(t, p);
      Joins(s.taken, s.written, Min(s.pcs[p].n - |s.pcs[p].got|, |s.written| - |s.taken|));
    }
    OneMore(s, p, es);
    es := [Step(p)] + es;
    AloneFacts(s, p, es);
  }

  lemma Joins(t: seq<Byte>, w: seq<Byte>, k: nat)
    requires 0 < k && |t| + k <= |w|
    ensures t + [w[|t|]] + w[|t| + 1..|t| + k] == t + w[|t|..|t| + k]
  {
  }

  /** Starting a call, and taking the lock. */
  lemma Starts(s: State, p: Pid, e: Event, es: seq<Event>)
    requires |s.data| == PIPESIZE && Enabled(s, e) && (e.CallRead? || e.CallWrite?) && e.p == p
    requires Alone(Apply(s, e), p, es)
    ensures Runs(s, [e] + es) && After(s, [e] + es) == After(Apply(s, e), es)
  {
    Extend(s, e, es);
  }

  /** An undisturbed piperead, in a pipe that is not empty or that nobody can write to any more, takes the
      next n bytes of the stream, or all there are if they are fewer, and returns. */
  lemma ReadCompletes(s: State, p: Pid, n: nat) returns (es: seq<Event>)
    requires Inv(s) && Enabled(s, CallRead(p, n)) && s.holder == None && (s.written != s.taken || !s.writeopen)
    ensures Runs(s, [CallRead(p, n)] + es) && |s.taken| <= |s.written|
    ensures forall i :: 0 <= i < |es| ==> es[i] == Step(p)
    ensures var t := After(s, [CallRead(p, n)] + es);
            && p in t.pcs && t.pcs[p] == Idle && t.holder == None && t.written == s.written
            && t.taken == s.taken + s.written[|s.taken|..|s.taken| + Min(n, |s.written| - |s.taken|)]
  {
    hide Inv, Alone, Enabled, Apply, Runs, After;
    Begins(s, p, n);
    var s1 := Apply(s, CallRead(p, n));
    var s2 := Apply(s1, Step(p));
    es := Copies(Apply(s2, Step(p)), p);
    OneMore(s2, p, es);
    OneMore(s1, p, [Step(p)] + es);
    es := [Step(p)] + ([Step(p)] + es);
    Starts(s, p, CallRead(p, n), es);
    AloneFacts(s1, p, es);
  }

  lemma Begins(s: State, p: Pid, n: nat)
    requires Inv(s) && Enabled(s, CallRead(p, n)) && s.holder == None && (s.written != s.taken || !s.writeopen)
    ensures |s.data| == PIPESIZE && |s.taken| <= |s.written|
    ensures var s1 := Apply(s, CallRead(p, n));
            && |s1.data| == PIPESIZE && Enabled(s1, Step(p))
            && var s2 := Apply(s1, Step(p));
            && |s2.data| == PIPESIZE && Enabled(s2, Step(p))
            && var s3 := Apply(s2, Step(p));
            Inv(s3) && p in s3.pcs && s3.pcs[p] == Reading(n, []) && s3.taken == s.taken && s3.written == s.written
  {
    hide Shutting, LastUser, Locking, EndsOpen, Reads;
    Counters(|s.taken|, |s.written|);
    var s1 := Apply(s, CallRead(p, n));
    var s2 := Apply(s1, Step(p));
    StepKeeps(s, CallRead(p, n));
    StepKeeps(s1, Step(p));
    StepKeeps(s2, Step(p));
  }

  lemma AloneFacts(s: State, p: Pid, es: seq<Event>)
    requires Alone(s, p, es)
    ensures forall i :: 0 <= i < |es| ==> es[i] == Step(p)
    ensures Runs(s, es) && p in After(s, es).pcs && After(s, es).pcs[p] == Idle && After(s, es).holder == None
  {
  }

  /** One round of pipewrite's loop when there is room. */
  lemma StoreStep(s: State, p: Pid)
    requires Inv(s) && p in s.pcs && s.pcs[p].Writing? && s.pcs[p].i <= |s.pcs[p].addr|
    requires |s.written| - |s.taken| + |s.pcs[p].addr| - s.pcs[p].i <= PIPESIZE
    ensures |s.data| == PIPESIZE && Enabled(s, Step(p))
    ensures var t := Apply(s, Step(p));
            && Inv(t) && |t.data| == PIPESIZE && p in t.pcs && t.taken == s.taken
            && var Writing(addr, i, since) := s.pcs[p];
            if i == |addr| then t.pcs[p].WriteEnd? && t.written == s.written
            else t.written == s.written + [addr[i]] && t.pcs[p] == Writing(addr, i + 1, since)
  {
    StepKeeps(s, Step(p));
    Counters(|s.taken|, |s.written|);
    hide Locking, EndsOpen, Reads, Wakeup;
  }

  /** The loop of pipewrite when there is room. */
  lemma {:induction false} Stores(s: State, p: Pid) returns (es: seq<Event>)
    requires Inv(s) && p in s.pcs && s.pcs[p].Writing? && s.pcs[p].i <= |s.pcs[p].addr|
    requires |s.written| - |s.taken| + |s.pcs[p].addr| - s.pcs[p].i <= PIPESIZE
    ensures Alone(s, p, es) && After(s, es).taken == s.taken
    ensures After(s, es).written == s.written + s.pcs[p].addr[s.pcs[p].i..]
    decreases if p in s.pcs && s.pcs[p].Writing? then |s.pcs[p].addr| - s.pcs[p].i else 0
  {
    hide Inv, Enabled, Apply, Alone, Runs, After;
    StoreStep(s, p);
    var t := Apply(s, Step(p));
    var addr, i := s.pcs[p].addr, s.pcs[p].i;
    if i == |addr| {
      es := Returns(t, p);
      assert s.written + addr[i..] == s.written;
    } else {
      es := Stores(t, p);
      assert s.written + [addr[i]] + addr[i + 1..] == s.written + addr[i..];
    }
    OneMore(s, p, es);
    es := [Step(p)] + es;
    AloneFacts(s, p, es);
  }

  /** An undisturbed pipewrite of no more bytes than there is room for appends them to the stream. */
  lemma WriteCompletes(s: State, p: Pid, addr: seq<Byte>) returns (es: seq<Event>)
    requires Inv(s) && Enabled(s, CallWrite(p, addr)) && s.holder == None
    requires |s.written| - |s.taken| + |addr| <= PIPESIZE
    ensures Runs(s, [CallWrite(p, addr)] + es)
    ensures forall i :: 0 <= i < |es| ==> es[i] == Step(p)
    ensures var t := After(s, [CallWrite(p, addr)] + es);
            && p in t.pcs && t.pcs[p] == Idle && t.holder == None
            && t.written == s.written + addr && t.taken == s.taken
  {
    Counters(|s.taken|, |s.written|);
    StepKeeps(s, CallWrite(p, addr));
    var s1 := Apply(s, CallWrite(p, addr));
    StepKeeps(s1, Step(p));
    var s2 := Apply(s1, Step(p));
    assert s2.pcs[p] == Writing(addr, 0, |s.written|) && s2.taken == s.taken && s2.written == s.written;
    hide Inv, Alone, Shutting, LastUser;
    es := Stores(s2, p);
    assert addr[0..] == addr;
    OneMore(s1, p, es);
    es := [Step(p)] + es;
    Starts(s, p, CallWrite(p, addr), es);
    AloneFacts(s1, p, es);
  }
}
