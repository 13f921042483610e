/**
 Pipes (pipe.c) over sleep and wakeup (proc.c, container.c), as an interleaving of the steps of any
 number of processes.  A step is what happens between two points where another process can
 interfere: taking p->lock, one iteration of a loop, one wakeup, or a sleep, which gives up the lock
 and goes to sleep in one step because the process table lock is held across both.
 */
module PipeProtocol {
  import opened Common

  const PIPESIZE := 512
  const WRAP := 0x1_0000_0000   // nread and nwrite are 32-bit

  type Pid = nat
  type Byte = x | 0 <= x < 256

  datatype Pc =
    | Idle
    | WriteStart(addr: seq<Byte>)
    // since: how many bytes were in the stream when the call began
    | Writing(addr: seq<Byte>, i: nat, since: nat)      // holds the lock, at the head of pipewrite's loop
    | WriteFull(addr: seq<Byte>, i: nat, since: nat)    // holds the lock, has woken the readers
    | WriteSleep(addr: seq<Byte>, i: nat, since: nat)   // asleep on nwrite
    | WriteAgain(addr: seq<Byte>, i: nat, since: nat)   // woken, wants the lock back
    | WriteEnd(addr: seq<Byte>, since: nat)             // holds the lock, has woken the readers
    | ReadStart(n: nat)
    | ReadTest(n: nat)                      // holds the lock, at the head of piperead's first loop
    | ReadSleep(n: nat)                     // asleep on nread
    | ReadAgain(n: nat)
    | Reading(n: nat, got: seq<Byte>)       // holds the lock, at the head of the copy loop
    | ReadEnd(n: nat, got: seq<Byte>)       // holds the lock, has woken the writers
    | CloseStart(writable: bool)
    | Closing(writable: bool)               // holds the lock, has cleared the flag
    | CloseEnd                              // holds the lock, has woken the other side

  datatype State = State(
    nread: nat, nwrite: nat, data: seq<Byte>, readopen: bool, writeopen: bool,
    holder: Option<Pid>, pcs: map<Pid, Pc>, killed: set<Pid>,
    written: seq<Byte>, taken: seq<Byte>,    // every byte stored in, and taken out of, the ring so far
    authors: seq<Pid>)                       // and who wrote it

  datatype Event =
    | CallWrite(p: Pid, addr: seq<Byte>)
    | CallRead(p: Pid, n: nat)
    | CallClose(p: Pid, writable: bool)
    | Step(p: Pid)
    | Kill(p: Pid)

  predicate Holds(pc: Pc) {
    pc.Writing? || pc.WriteFull? || pc.WriteEnd? || pc.ReadTest? || pc.Reading? || pc.ReadEnd? || pc.Closing? ||
    pc.CloseEnd?
  }

  predicate Writer(pc: Pc) {
    pc.WriteStart? || pc.Writing? || pc.WriteFull? || pc.WriteSleep? || pc.WriteAgain? || pc.WriteEnd?
  }

  predicate Reader(pc: Pc) {
    pc.ReadStart? || pc.ReadTest? || pc.ReadSleep? || pc.ReadAgain? || pc.Reading? || pc.ReadEnd?
  }

  // ----- The steps -----

  predicate Empty(s: State) {
    s.nread == s.nwrite
  }

  predicate Full(s: State) {
    s.nwrite == (s.nread + PIPESIZE) % WRAP
  }

  /** wakeup1 on the reader's or the writer's channel. */
  function Woken(pc: Pc, readers: bool): Pc {
    match pc
    case ReadSleep(n) => if readers then ReadAgain(n) else pc
    case WriteSleep(a, i, n) => if readers then pc else WriteAgain(a, i, n)
    case _ => pc
  }

  function Wakeup(pcs: map<Pid, Pc>, readers: bool): map<Pid, Pc> {
    map p | p in pcs :: Woken(pcs[p], readers)
  }

  predicate Enabled(s: State, e: Event) {
    && e.p in s.pcs
    && match e
       // the caller's open file refers to that end, so it is not closed while the call runs
       case CallWrite(p, _) => s.pcs[p].Idle? && s.writeopen && !Shutting(s, true)
       case CallRead(p, _) => s.pcs[p].Idle? && s.readopen && !Shutting(s, false)
       case CallClose(p, w) => s.pcs[p].Idle? && LastUser(s, w)
       case Kill(p) => true
       case Step(p) =>
         match s.pcs[p]
         case Idle => false
         case WriteSleep(_, _, _) => false
         case ReadSleep(_) => false
         case pc => Holds(pc) || s.holder == None
  }

  predicate Shutting(s: State, w: bool) {
    exists p :: p in s.pcs && s.pcs[p] == CloseStart(w)
  }

  /** The last reference to one end goes: it is open, and no call on it is in progress. */
  predicate LastUser(s: State, w: bool) {
    && (if w then s.writeopen else s.readopen) && !Shutting(s, w)
    && forall p :: p in s.pcs ==> !(if w then Writer(s.pcs[p]) else Reader(s.pcs[p]))
  }

  function Apply(s: State, e: Event): State
    requires Enabled(s, e) && |s.data| == PIPESIZE
  {
    match e
    case CallWrite(p, addr) => s.(pcs := s.pcs[p := WriteStart(addr)])
    case CallRead(p, n) => s.(pcs := s.pcs[p := ReadStart(n)])
    case CallClose(p, w) => s.(pcs := s.pcs[p := CloseStart(w)])
    case Kill(p) => s.(killed := s.killed + {p}, pcs := s.pcs[p := Woken(Woken(s.pcs[p], true), false)])
    case Step(p) => Run(s, p)
  }

  function Take(s: State, p: Pid, pc: Pc): State {
    s.(holder := Some(p), pcs := s.pcs[p := pc])
  }

  function Release(s: State, p: Pid, pc: Pc): State {
    s.(holder := None, pcs := s.pcs[p := pc])
  }

  function Run(s: State, p: Pid): State
    requires Enabled(s, Step(p)) && |s.data| == PIPESIZE
  {
    var pc := s.pcs[p];
    if Writer(pc) then WriteStep(s, p) else if Reader(pc) then ReadStep(s, p) else CloseStep(s, p)
  }

  /** pipewrite. */
  function WriteStep(s: State, p: Pid): State
    requires p in s.pcs && Writer(s.pcs[p]) && !s.pcs[p].WriteSleep? && |s.data| == PIPESIZE
  {
    match s.pcs[p]
    case WriteStart(addr) => Take(s, p, Writing(addr, 0, |s.written|))
    case WriteAgain(addr, i, n) => Take(s, p, Writing(addr, i, n))
    case WriteFull(addr, i, n) => Release(s, p, WriteSleep(addr, i, n))
    case WriteEnd(_, _) => Release(s, p, Idle)
    case Writing(addr, i, n) =>
      if i >= |addr| then s.(pcs := Wakeup(s.pcs, true)[p := WriteEnd(addr, n)])
      else if Full(s) then
        if !s.readopen || p in s.killed then Release(s, p, Idle)
        else s.(pcs := Wakeup(s.pcs, true)[p := WriteFull(addr, i, n)])
      else s.(data := s.data[s.nwrite % PIPESIZE := addr[i]], nwrite := (s.nwrite + 1) % WRAP,
              pcs := s.pcs[p := Writing(addr, i + 1, n)], written := s.written + [addr[i]], authors := s.authors + [p])
  }

  /** piperead. */
  function ReadStep(s: State, p: Pid): State
    requires p in s.pcs && Reader(s.pcs[p]) && !s.pcs[p].ReadSleep? && |s.data| == PIPESIZE
  {
    match s.pcs[p]
    case ReadStart(n) => Take(s, p, ReadTest(n))
    case ReadAgain(n) => Take(s, p, ReadTest(n))
    case ReadEnd(_, _) => Release(s, p, Idle)
    case ReadTest(n) =>
      if Empty(s) && s.writeopen then
        if p in s.killed then Release(s, p, Idle) else Release(s, p, ReadSleep(n))
      else s.(pcs := s.pcs[p := Reading(n, [])])
    case Reading(n, got) =>
      if |got| >= n || Empty(s) then s.(pcs := Wakeup(s.pcs, false)[p := ReadEnd(n, got)])
      else
        var b := s.data[s.nread % PIPESIZE];
        s.(nread := (s.nread + 1) % WRAP, pcs := s.pcs[p := Reading(n, got + [b])], taken := s.taken + [b])
  }

  /** pipeclose. */
  function CloseStep(s: State, p: Pid): State
    requires p in s.pcs && (s.pcs[p].CloseStart? || s.pcs[p].Closing? || s.pcs[p].CloseEnd?)
  {
    match s.pcs[p]
    case CloseStart(w) =>
      var t := Take(s, p, Closing(w));
      if w then t.(writeopen := false) else t.(readopen := false)
    case Closing(w) => s.(pcs := Wakeup(s.pcs, w)[p := CloseEnd])
    case CloseEnd => Release(s, p, Idle)
  }

  // ----- The ring -----

  /** The ring holds what has been written and not yet taken, and the counters wrap. */
  ghost predicate Ring(s: State) {
    && |s.data| == PIPESIZE
    && |s.taken| <= |s.written| <= |s.taken| + PIPESIZE && s.taken == s.written[..|s.taken|]
    && s.nread == |s.taken| % WRAP && s.nwrite == |s.written| % WRAP
    && forall k :: |s.taken| <= k < |s.written| ==> s.data[k % PIPESIZE] == s.written[k]
  }

  /** The process at a lock-holding point is the holder. */
  ghost predicate Locking(s: State) {
    && (s.holder.Some? ==> s.holder.value in s.pcs && Holds(s.pcs[s.holder.value]))
    && (forall p :: p in s.pcs && Holds(s.pcs[p]) ==> s.holder == Some(p))
  }

  /** Calls are made only on open ends; an end is shut once. */
  ghost predicate EndsOpen(s: State) {
    && (forall p :: p in s.pcs && Writer(s.pcs[p]) ==> s.writeopen)
    && (forall p :: p in s.pcs && Reader(s.pcs[p]) ==> s.readopen)
    && (forall p :: p in s.pcs && s.pcs[p].CloseStart? ==> LastUserBut(s, p, s.pcs[p].writable))
  }

  ghost predicate LastUserBut(s: State, p: Pid, w: bool) {
    && (if w then s.writeopen else s.readopen)
    && forall q :: q in s.pcs && q != p ==>
         s.pcs[q] != CloseStart(w) && !(if w then Writer(s.pcs[q]) else Reader(s.pcs[q]))
  }

  /** A reader's bytes are the last ones taken; it stops when it has n of them or the pipe is empty, and
      copies none only at the end of the stream. */
  ghost predicate Reads(s: State) {
    forall p :: p in s.pcs && (s.pcs[p].Reading? || s.pcs[p].ReadEnd?) ==> ReadSoFar(s, s.pcs[p])
  }

  ghost predicate ReadSoFar(s: State, pc: Pc)
    requires pc.Reading? || pc.ReadEnd?
  {
    && |pc.got| <= pc.n && |pc.got| <= |s.taken| && pc.got == s.taken[|s.taken| - |pc.got|..]
    && (pc.Reading? && pc.got == [] ==> !Empty(s) || !s.writeopen)
    && (pc.ReadEnd? ==> |pc.got| == pc.n || Empty(s))
    && (pc.ReadEnd? && pc.got == [] && pc.n > 0 ==> Empty(s) && !s.writeopen)
  }

  ghost predicate Inv(s: State) {
    Ring(s) && Locking(s) && EndsOpen(s) && Reads(s)
  }

  ghost predicate Initial(s: State) {
    && s.nread == s.nwrite == 0 && |s.data| == PIPESIZE && s.readopen && s.writeopen && s.holder == None
    && s.written == [] && s.taken == [] && s.authors == [] && s.killed == {}
    && forall p :: p in s.pcs ==> s.pcs[p] == Idle
  }

  lemma Wraps(a: nat, d: nat)
    requires d <= PIPESIZE
    ensures (a + d) % WRAP == if a % WRAP + d < WRAP then a % WRAP + d else a % WRAP + d - WRAP
  {
    var q, r := a / WRAP, a % WRAP;
    assert a + d == q * WRAP + (r + d);
    assert r + d < WRAP ==> (a + d) / WRAP == q;
    assert r + d >= WRAP ==> (a + d) / WRAP == q + 1;
  }

  lemma SlotOf(a: nat)
    ensures a % WRAP % PIPESIZE == a % PIPESIZE
  {
    assert a == (a / WRAP * (WRAP / PIPESIZE)) * PIPESIZE + a % WRAP;
  }

  lemma Counters(a: nat, b: nat)
    requires a <= b <= a + PIPESIZE
    ensures a % WRAP == b % WRAP <==> a == b
    ensures b % WRAP == (a % WRAP + PIPESIZE) % WRAP <==> b == a + PIPESIZE
    ensures (b % WRAP - a % WRAP) % WRAP == b - a
    ensures a % WRAP % PIPESIZE == a % PIPESIZE && (a % WRAP + 1) % WRAP == (a + 1) % WRAP
  {
    Wraps(a, b - a);
    Wraps(a, PIPESIZE);
    Wraps(a, 1);
    SlotOf(a);
  }

  predicate Puts(s: State, pc: Pc) {
    pc.Writing? && pc.i < |pc.addr| && !Full(s)
  }

  predicate Gets(s: State, pc: Pc) {
    pc.Reading? && |pc.got| < pc.n && !Empty(s)
  }

  /** Every other step leaves the ring alone. */
  lemma RingSame(s: State, e: Event)
    requires Enabled(s, e) && |s.data| == PIPESIZE && !(e.Step? && (Puts(s, s.pcs[e.p]) || Gets(s, s.pcs[e.p])))
    ensures var t := Apply(s, e);
            t.data == s.data && t.nread == s.nread && t.nwrite == s.nwrite && t.written == s.written &&
            t.taken == s.taken
  {
    hide Shutting, LastUser, Full, Empty, Holds, Woken, Wakeup;
  }

  lemma RingKept(s: State, e: Event)
    requires Ring(s) && Enabled(s, e)
    ensures Ring(Apply(s, e))
  {
    Counters(|s.taken|, |s.written|);
    if e.Step? && Puts(s, s.pcs[e.p]) {
      PutKept(s, e.p, s.pcs[e.p].addr[s.pcs[e.p].i], Apply(s, e));
    } else if e.Step? && Gets(s, s.pcs[e.p]) {
      GetKept(s, e.p, Apply(s, e));
    } else {
      RingSame(s, e);
      hide Apply, Enabled, Puts, Gets;
    }
  }

  lemma PutKept(s: State, p: Pid, b: Byte, t: State)
    requires Ring(s) && |s.written| < |s.taken| + PIPESIZE
    requires t.data == s.data[s.nwrite % PIPESIZE := b] && t.nwrite == (s.nwrite + 1) % WRAP &&
             t.written == s.written + [b]
    requires t.nread == s.nread && t.taken == s.taken
    ensures Ring(t)
  {
    StoreRing(s.data, s.written, |s.taken|, b);
    Counters(|s.written|, |s.written| + 1);
  }

  lemma GetKept(s: State, p: Pid, t: State)
    requires Ring(s) && |s.taken| < |s.written|
    requires t.nread == (s.nread + 1) % WRAP && t.taken == s.taken + [s.data[s.nread % PIPESIZE]]
    requires t.data == s.data && t.nwrite == s.nwrite && t.written == s.written
    ensures Ring(t)
  {
    Counters(|s.taken|, |s.taken| + 1);
    assert s.data[|s.taken| % PIPESIZE] == s.written[|s.taken|];
  }

  lemma StoreRing(data: seq<Byte>, written: seq<Byte>, a: nat, b: Byte)
    requires |data| == PIPESIZE && a <= |written| < a + PIPESIZE
    requires forall k :: a <= k < |written| ==> data[k % PIPESIZE] == written[k]
    ensures forall k :: a <= k < |written| + 1 ==> data[|written| % PIPESIZE := b][k % PIPESIZE] == (written + [b])[k]
  {
    forall k | a <= k < |written|
      ensures k % PIPESIZE != |written| % PIPESIZE
    {
    }
  }

  predicate Similar(a: Pc, b: Pc) {
    b == a || b == Woken(a, true) || b == Woken(a, false)
  }

  /** What a step of p does to the lock and to the other processes. */
  ghost predicate Shape(s: State, t: State, p: Pid) {
    && p in s.pcs && t.pcs.Keys == s.pcs.Keys
    && (forall q :: q in s.pcs && q != p ==> Similar(s.pcs[q], t.pcs[q]))
    && t.holder == (if Holds(t.pcs[p]) then Some(p) else if Holds(s.pcs[p]) then None else s.holder)
    && (Holds(t.pcs[p]) && !Holds(s.pcs[p]) ==> s.holder == None)
  }

  lemma WriteShape(s: State, p: Pid)
    requires p in s.pcs && Writer(s.pcs[p]) && !s.pcs[p].WriteSleep? && |s.data| == PIPESIZE
    requires if Holds(s.pcs[p]) then s.holder == Some(p) else s.holder == None
    ensures Shape(s, WriteStep(s, p), p)
  {
    hide Full;
  }

  lemma ReadShape(s: State, p: Pid)
    requires p in s.pcs && Reader(s.pcs[p]) && !s.pcs[p].ReadSleep? && |s.data| == PIPESIZE
    requires if Holds(s.pcs[p]) then s.holder == Some(p) else s.holder == None
    ensures Shape(s, ReadStep(s, p), p)
  {
    hide Empty;
  }

  lemma RunShape(s: State, p: Pid)
    requires Enabled(s, Step(p)) && |s.data| == PIPESIZE && (Holds(s.pcs[p]) ==> s.holder == Some(p))
    ensures Shape(s, Run(s, p), p)
  {
    hide WriteStep, ReadStep;
    if Writer(s.pcs[p]) { WriteShape(s, p); } else if Reader(s.pcs[p]) { ReadShape(s, p); }
  }

  lemma ShapeOf(s: State, e: Event)
    requires Enabled(s, e) && |s.data| == PIPESIZE && Locking(s)
    ensures Shape(s, Apply(s, e), e.p)
  {
    hide Shutting, LastUser, Full, Empty, Run;
    if e.Step? { RunShape(s, e.p); }
  }

  lemma LockingKept(s: State, e: Event)
    requires Locking(s) && Enabled(s, e) && |s.data| == PIPESIZE
    ensures Locking(Apply(s, e))
  {
    hide Enabled, Apply;
    ShapeOf(s, e);
  }

  /** How a step of p bears on the open ends. */
  ghost predicate EndShape(s: State, t: State, p: Pid, step: bool) {
    && p in s.pcs && p in t.pcs
    && t.writeopen == (s.writeopen && !(step && s.pcs[p] == CloseStart(true)))
    && t.readopen == (s.readopen && !(step && s.pcs[p] == CloseStart(false)))
    && (Writer(t.pcs[p]) ==> Writer(s.pcs[p]) || (s.writeopen && !Shutting(s, true)))
    && (Reader(t.pcs[p]) ==> Reader(s.pcs[p]) || (s.readopen && !Shutting(s, false)))
    && (t.pcs[p].CloseStart? ==> t.pcs[p] == s.pcs[p] || (s.pcs[p].Idle? && LastUser(s, t.pcs[p].writable)))
    && (step && s.pcs[p].CloseStart? ==> !t.pcs[p].CloseStart?)
  }

  lemma RunEnds(s: State, p: Pid)
    requires Enabled(s, Step(p)) && |s.data| == PIPESIZE
    ensures EndShape(s, Run(s, p), p, true)
  {
    hide Shutting, LastUser, Full, Empty, Wakeup, Woken, Holds;
    if Writer(s.pcs[p]) {
      hide ReadStep, CloseStep;
    } else if Reader(s.pcs[p]) {
      hide WriteStep, CloseStep;
    } else {
      hide WriteStep, ReadStep;
    }
  }

  lemma EndFacts(s: State, e: Event)
    requires Enabled(s, e) && |s.data| == PIPESIZE
    ensures EndShape(s, Apply(s, e), e.p, e.Step?)
  {
    hide Shutting, LastUser, Full, Empty, Run, Holds;
    if e.Step? { RunEnds(s, e.p); }
  }

  lemma SimilarRoles(a: Pc, b: Pc)
    requires Similar(a, b)
    ensures Writer(a) == Writer(b) && Reader(a) == Reader(b) && (a.CloseStart? || b.CloseStart? ==> a == b)
  {
  }

  lemma EndsKept(s: State, e: Event)
    requires EndsOpen(s) && Enabled(s, e) && |s.data| == PIPESIZE && Locking(s)
    ensures EndsOpen(Apply(s, e))
  {
    hide Enabled, Apply, Locking, Holds, Similar;
    ShapeOf(s, e);
    EndFacts(s, e);
    var t, p := Apply(s, e), e.p;
    forall q | q in s.pcs && q != p
      ensures Writer(t.pcs[q]) == Writer(s.pcs[q]) && Reader(t.pcs[q]) == Reader(s.pcs[q])
      ensures t.pcs[q].CloseStart? || s.pcs[q].CloseStart? ==> t.pcs[q] == s.pcs[q]
    {
      SimilarRoles(s.pcs[q], t.pcs[q]);
    }
  }

  ghost predicate SameRing(s: State, t: State) {
    t.taken == s.taken && t.nread == s.nread && t.nwrite == s.nwrite && t.writeopen == s.writeopen
  }

  /** Only the holder of the lock touches the pipe. */
  lemma OutsideFacts(s: State, e: Event)
    requires Enabled(s, e) && |s.data| == PIPESIZE && s.holder.Some? && !Holds(s.pcs[e.p])
    ensures SameRing(s, Apply(s, e))
  {
    hide Shutting, LastUser, Full, Empty;
  }

  lemma TakeFacts(s: State, p: Pid, t: State)
    requires Ring(s) && p in s.pcs && Gets(s, s.pcs[p]) && ReadSoFar(s, s.pcs[p]) && |s.taken| < |s.written|
    requires var b := s.data[s.nread % PIPESIZE];
             t.taken == s.taken + [b] && p in t.pcs && t.pcs[p] == Reading(s.pcs[p].n, s.pcs[p].got + [b])
    ensures ReadSoFar(t, t.pcs[p])
  {
    var Reading(n, got) := s.pcs[p];
    var b := s.data[s.nread % PIPESIZE];
    hide Ring, Gets, Empty;
    assert (s.taken + [b])[|s.taken| + 1 - |got + [b]|..] == s.taken[|s.taken| - |got|..] + [b];
  }

  lemma ReadFacts(s: State, e: Event)
    requires Ring(s) && Enabled(s, e) && e.Step? && (s.pcs[e.p].Reading? || s.pcs[e.p].ReadTest?)
    requires s.pcs[e.p].Reading? ==> ReadSoFar(s, s.pcs[e.p])
    ensures var t := Apply(s, e); t.pcs[e.p].Reading? || t.pcs[e.p].ReadEnd? ==> ReadSoFar(t, t.pcs[e.p])
  {
    Counters(|s.taken|, |s.written|);
    if Gets(s, s.pcs[e.p]) {
      hide Shutting, LastUser, Full, Wakeup, WriteStep, CloseStep, ReadSoFar;
      TakeFacts(s, e.p, Apply(s, e));
    } else {
      hide Ring, Shutting, LastUser, Full, Wakeup, WriteStep, CloseStep;
    }
  }

  lemma ReadersFrom(s: State, e: Event)
    requires Enabled(s, e) && |s.data| == PIPESIZE
    ensures var t := Apply(s, e).pcs[e.p];
            t.Reading? || t.ReadEnd? ==>
              if e.Step? then s.pcs[e.p].Reading? || s.pcs[e.p].ReadTest?
              else t == s.pcs[e.p] && SameRing(s, Apply(s, e))
  {
    hide Shutting, LastUser, Full, Empty;
  }

  lemma ReadsKept(s: State, e: Event)
    requires Ring(s) && Locking(s) && Reads(s) && Enabled(s, e)
    ensures Reads(Apply(s, e))
  {
    var t, p := Apply(s, e), e.p;
    hide Enabled, Apply, Ring;
    ShapeOf(s, e);
    forall q | q in t.pcs && (t.pcs[q].Reading? || t.pcs[q].ReadEnd?)
      ensures ReadSoFar(t, t.pcs[q])
    {
      if q == p {
        ReadersFrom(s, e);
        if e.Step? { ReadFacts(s, e); }
      } else {
        assert t.pcs[q] == s.pcs[q] && Holds(s.pcs[q]);
        OutsideFacts(s, e);
      }
    }
  }

  /** Every step of every process keeps the ring, the lock and the open ends as they should be. */
  lemma StepKeeps(s: State, e: Event)
    requires Inv(s) && Enabled(s, e)
    ensures Inv(Apply(s, e))
  {
    hide Ring, Locking, EndsOpen, Reads, Apply, Enabled;
    assert |s.data| == PIPESIZE by { RingSize(s); }
    RingKept(s, e);
    LockingKept(s, e);
    EndsKept(s, e);
    ReadsKept(s, e);
  }

  lemma RingSize(s: State)
    requires Ring(s)
    ensures |s.data| == PIPESIZE && s.nread < WRAP
  {
  }

  // ----- No lost wakeup -----

  /** The holder of the lock has still to wake the readers, or the writers. */
  predicate OwesReaders(s: State) {
    s.holder.Some? && s.holder.value in s.pcs &&
    (s.pcs[s.holder.value].Writing? || s.pcs[s.holder.value] == Closing(true))
  }

  predicate OwesWriters(s: State) {
    s.holder.Some? && s.holder.value in s.pcs &&
    (s.pcs[s.holder.value].Reading? || s.pcs[s.holder.value] == Closing(false))
  }

  ghost predicate Awaited(s: State) {
    && (forall p :: p in s.pcs && s.pcs[p].ReadSleep? ==> (Empty(s) && s.writeopen) || OwesReaders(s))
    && (forall p :: p in s.pcs && s.pcs[p].WriteSleep? ==> (Full(s) && s.readopen) || OwesWriters(s))
    && (forall p :: p in s.pcs && s.pcs[p].WriteFull? ==> Full(s) && s.readopen)
  }

  /** No process is killed while it writes. */
  ghost predicate Calm(s: State) {
    forall p :: p in s.killed && p in s.pcs ==> !Writer(s.pcs[p])
  }

  /** p returns from a full pipe because it was killed, while a reader sleeps. */
  ghost predicate Abandons(s: State, p: Pid) {
    && p in s.pcs && s.pcs[p].Writing? && s.pcs[p].i < |s.pcs[p].addr| && Full(s) && p in s.killed
    && exists q :: q in s.pcs && s.pcs[q].ReadSleep?
  }

  lemma WriteAwaited(s: State, p: Pid)
    requires Awaited(s) && Locking(s) && EndsOpen(s) && p in s.pcs && Writer(s.pcs[p]) && !s.pcs[p].WriteSleep?
    requires |s.data| == PIPESIZE && (!Holds(s.pcs[p]) ==> s.holder == None) && !Abandons(s, p)
    ensures Awaited(WriteStep(s, p))
  {
  }

  lemma AbandonedReader(s: State, p: Pid)
    requires |s.data| == PIPESIZE && Abandons(s, p) && s.nread < WRAP
    ensures !Awaited(WriteStep(s, p))
  {
    var t := WriteStep(s, p);
    var q :| q in s.pcs && s.pcs[q].ReadSleep?;
    assert t.pcs[q].ReadSleep? && !Empty(t) && t.holder == None;
  }

  lemma CopyAwaited(s: State, p: Pid)
    requires Awaited(s) && Locking(s) && p in s.pcs && s.pcs[p].Reading? && |s.data| == PIPESIZE
    ensures Awaited(ReadStep(s, p))
  {
    assert s.holder == Some(p);
    hide Locking;
  }

  lemma ReadAwaited(s: State, p: Pid)
    requires Awaited(s) && Locking(s) && p in s.pcs && Reader(s.pcs[p]) && !s.pcs[p].ReadSleep?
    requires |s.data| == PIPESIZE && (!Holds(s.pcs[p]) ==> s.holder == None)
    ensures Awaited(ReadStep(s, p))
  {
    if s.pcs[p].Reading? {
      hide Awaited, ReadStep;
      CopyAwaited(s, p);
    } else {
      assert s.holder == None || s.holder == Some(p);
      hide Locking, Wakeup, Woken;
    }
  }

  lemma CloseAwaited(s: State, p: Pid)
    requires Awaited(s) && Locking(s) && p in s.pcs && (s.pcs[p].CloseStart? || s.pcs[p].Closing? || s.pcs[p].CloseEnd?)
    requires !Holds(s.pcs[p]) ==> s.holder == None
    ensures Awaited(CloseStep(s, p))
  {
  }

  lemma CallAwaited(s: State, e: Event)
    requires Awaited(s) && Locking(s) && Enabled(s, e) && !e.Step? && |s.data| == PIPESIZE
    ensures Awaited(Apply(s, e))
  {
    hide Shutting, LastUser;
  }

  /** A step keeps every sleeper's reason to sleep, except exactly when a killed writer abandons a full pipe. */
  lemma StepAwaited(s: State, e: Event)
    requires Inv(s) && Awaited(s) && Enabled(s, e)
    ensures Awaited(Apply(s, e)) <==> !(e.Step? && Abandons(s, e.p))
  {
    RingSize(s);
    hide Awaited, Ring, Locking, EndsOpen, Reads, Shutting, LastUser, WriteStep, ReadStep, CloseStep;
    if e.Step? {
      var p := e.p;
      if Writer(s.pcs[p]) {
        if Abandons(s, p) { AbandonedReader(s, p); } else { WriteAwaited(s, p); }
      } else if Reader(s.pcs[p]) {
        ReadAwaited(s, p);
      } else {
        CloseAwaited(s, p);
      }
    } else {
      CallAwaited(s, e);
    }
  }

  // ----- Whole runs -----

  ghost predicate Runs(s: State, es: seq<Event>)
    decreases |es|
  {
    es == [] || (|s.data| == PIPESIZE && Enabled(s, es[0]) && Runs(Apply(s, es[0]), es[1..]))
  }

  ghost function After(s: State, es: seq<Event>): State
    requires Runs(s, es)
    decreases |es|
  {
    if es == [] then s else After(Apply(s, es[0]), es[1..])
  }

  lemma {:induction false} RunKeeps(s: State, es: seq<Event>)
    requires Inv(s) && Runs(s, es)
    ensures Inv(After(s, es))
    decreases |es|
  {
    if es != [] {
      hide Inv, Enabled, Apply;
      StepKeeps(s, es[0]);
      RunKeeps(Apply(s, es[0]), es[1..]);
    }
  }

  /** A pipe is a bounded FIFO: what has been read is a prefix of what has been written, and the
      counters, although they wrap, differ by the number of bytes in between. */
  lemma Fifo(s0: State, es: seq<Event>)
    requires Initial(s0) && Runs(s0, es)
    ensures var s := After(s0, es);
            && s.taken <= s.written && |s.written| - |s.taken| <= PIPESIZE
            && (s.nwrite - s.nread) % WRAP == |s.written| - |s.taken|
  {
    RunKeeps(s0, es);
    var s := After(s0, es);
    hide Runs, After, Locking, EndsOpen, Reads;
    Counters(|s.taken|, |s.written|);
  }

  /** What piperead is about to return: consecutive bytes of the stream, as many as were asked for or as
      there were when it began to copy, whichever is less; none only if none was asked for or the writers
      are gone and everything has been read. */
  lemma ReadReturns(s0: State, es: seq<Event>, p: Pid)
    requires Initial(s0) && Runs(s0, es) && p in After(s0, es).pcs && After(s0, es).pcs[p].ReadEnd?
    ensures var s := After(s0, es); var ReadEnd(n, got) := s.pcs[p];
            && |got| <= n && |got| <= |s.taken| <= |s.written| && got == s.written[|s.taken| - |got|..|s.taken|]
            && |got| == Min(n, |got| + |s.written| - |s.taken|)
            && (got == [] && n > 0 ==> s.taken == s.written && !s.writeopen)
  {
    RunKeeps(s0, es);
    var s := After(s0, es);
    assert ReadSoFar(s, s.pcs[p]);
    hide Runs, After, Locking, EndsOpen, Reads;
    Counters(|s.taken|, |s.written|);
  }

  /** How calls end, and what sends a process to sleep.  pipewrite fails only when the pipe is full and no
      one can read, or the caller was killed; piperead fails only when the caller was killed and the pipe
      is empty; both return otherwise only after their last wakeup.  A process goes to sleep only for a
      full or an empty pipe, not when it was killed, and kill leaves no one asleep. */
  lemma CallEnds(s: State, e: Event)
    requires Inv(s) && Enabled(s, e)
    ensures var pc, pc' := s.pcs[e.p], Apply(s, e).pcs[e.p];
            && (e.Step? && pc'.Idle? ==>
                  || pc.WriteEnd? || pc.ReadEnd? || pc.CloseEnd?
                  || (pc.Writing? && |s.written| == |s.taken| + PIPESIZE && (!s.readopen || e.p in s.killed))
                  || (pc.ReadTest? && s.written == s.taken && s.writeopen && e.p in s.killed))
            && (pc'.ReadSleep? && !pc.ReadSleep? ==>
                  e.Step? && pc == ReadTest(pc'.n) && s.written == s.taken && s.writeopen && e.p !in s.killed)
            && (pc'.WriteSleep? && !pc.WriteSleep? ==> e.Step? && pc.WriteFull?)
            && (pc'.WriteFull? && !pc.WriteFull? ==>
                  && e.Step? && pc.Writing? && |s.written| == |s.taken| + PIPESIZE
                  && s.readopen && e.p !in s.killed)
            && (e.Kill? ==> !pc'.ReadSleep? && !pc'.WriteSleep? && e.p in Apply(s, e).killed)
            && (Reader(pc) && Reader(pc') ==> pc'.n == pc.n)
  {
    hide Locking, EndsOpen, Reads, Shutting, LastUser;
    Counters(|s.taken|, |s.written|);
  }

  /** In no state of the run does a killed writer abandon a full pipe with a reader asleep. */
  ghost predicate Patient(s: State, es: seq<Event>)
    requires Runs(s, es)
    decreases |es|
  {
    es == [] || (!(es[0].Step? && Abandons(s, es[0].p)) && Patient(Apply(s, es[0]), es[1..]))
  }

  lemma {:induction false} RunAwaited(s: State, es: seq<Event>)
    requires Inv(s) && Awaited(s) && Runs(s, es) && Patient(s, es)
    ensures Awaited(After(s, es))
    decreases |es|
  {
    if es != [] {
      hide Inv, Enabled, Apply, Awaited, Abandons;
      StepKeeps(s, es[0]);
      StepAwaited(s, es[0]);
      RunAwaited(Apply(s, es[0]), es[1..]);
    }
  }

  /** No lost wakeup: a process asleep has still reason to be, or the holder of the lock has yet to wake it. */
  lemma NoLostWakeup(s0: State, es: seq<Event>)
    requires Initial(s0) && Runs(s0, es) && Patient(s0, es)
    ensures Awaited(After(s0, es))
  {
    hide Runs, After, Patient;
    RunAwaited(s0, es);
  }

  ghost predicate CalmRun(s: State, es: seq<Event>)
    requires Runs(s, es)
    decreases |es|
  {
    Calm(s) && (es == [] || CalmRun(Apply(s, es[0]), es[1..]))
  }

  /** In particular in every run where no writer is killed. */
  lemma {:induction false} CalmIsPatient(s: State, es: seq<Event>)
    requires Runs(s, es) && CalmRun(s, es)
    ensures Patient(s, es)
    decreases |es|
  {
    if es != [] {
      hide Enabled, Apply, Full;
      CalmIsPatient(Apply(s, es[0]), es[1..]);
    }
  }

  // ----- What a writer has written -----

  /** The bytes of the stream from position k on that p wrote. */
  function By(w: seq<Byte>, a: seq<Pid>, p: Pid, k: nat): seq<Byte>
    requires |w| == |a|
  {
    var n := |w| - 1;
    if n < k then [] else By(w[..n], a[..n], p, k) + (if a[n] == p then [w[n]] else [])
  }

  lemma ByAppend(w: seq<Byte>, a: seq<Pid>, p: Pid, k: nat, b: Byte, q: Pid)
    requires |w| == |a| && k <= |w|
    ensures By(w + [b], a + [q], p, k) == By(w, a, p, k) + (if q == p then [b] else [])
  {
    assert (w + [b])[..|w|] == w && (a + [q])[..|a|] == a;
  }

  /** Of a call in progress exactly the first i bytes are in the stream, in order. */
  ghost predicate Wrote(s: State, p: Pid, pc: Pc)
    requires |s.written| == |s.authors|
  {
    match pc
    case Writing(addr, i, n) => i <= |addr| && n <= |s.written| && By(s.written, s.authors, p, n) == addr[..i]
    case WriteFull(addr, i, n) => i <= |addr| && n <= |s.written| && By(s.written, s.authors, p, n) == addr[..i]
    case WriteSleep(addr, i, n) => i <= |addr| && n <= |s.written| && By(s.written, s.authors, p, n) == addr[..i]
    case WriteAgain(addr, i, n) => i <= |addr| && n <= |s.written| && By(s.written, s.authors, p, n) == addr[..i]
    case WriteEnd(addr, n) => n <= |s.written| && By(s.written, s.authors, p, n) == addr
    case _ => true
  }

  ghost predicate Authored(s: State) {
    |s.written| == |s.authors| && forall p :: p in s.pcs ==> Wrote(s, p, s.pcs[p])
  }

  lemma WokenWrote(s: State, p: Pid, pc: Pc, readers: bool)
    requires |s.written| == |s.authors|
    ensures Wrote(s, p, Woken(pc, readers)) <==> Wrote(s, p, pc)
  {
  }

  /** p stores byte i of its call. */
  lemma StoreWrote(s: State, p: Pid, t: State)
    requires Authored(s) && p in s.pcs && s.pcs[p].Writing? && s.pcs[p].i < |s.pcs[p].addr|
    requires var Writing(addr, i, n) := s.pcs[p];
             t.written == s.written + [addr[i]] && t.authors == s.authors + [p] &&
             t.pcs == s.pcs[p := Writing(addr, i + 1, n)]
    ensures Authored(t)
  {
    var Writing(addr, i, n) := s.pcs[p];
    forall q | q in t.pcs
      ensures Wrote(t, q, t.pcs[q])
    {
      assert Wrote(s, q, s.pcs[q]);
      var pc := s.pcs[q];
      if pc.Writing? || pc.WriteFull? || pc.WriteSleep? || pc.WriteAgain? || pc.WriteEnd? {
        hide By;
        ByAppend(s.written, s.authors, q, pc.since, addr[i], p);
      }
      assert q == p ==> addr[..i] + [addr[i]] == addr[..i + 1];
    }
  }

  /** A step of p that puts nothing into the stream. */
  lemma AuthorsKept(s: State, t: State, p: Pid)
    requires Authored(s) && t.written == s.written && t.authors == s.authors && Shape(s, t, p)
    requires Wrote(s, p, t.pcs[p])
    ensures Authored(t)
  {
    hide By, Holds, Woken;
    forall q | q in t.pcs
      ensures Wrote(t, q, t.pcs[q])
    {
      if q != p {
        assert Wrote(s, q, s.pcs[q]) && Similar(s.pcs[q], t.pcs[q]);
        WokenWrote(s, q, s.pcs[q], true);
        WokenWrote(s, q, s.pcs[q], false);
      }
    }
  }

  lemma WriteAuthored(s: State, p: Pid)
    requires Authored(s) && p in s.pcs && Writer(s.pcs[p]) && !s.pcs[p].WriteSleep? && |s.data| == PIPESIZE
    requires if Holds(s.pcs[p]) then s.holder == Some(p) else s.holder == None
    ensures Authored(WriteStep(s, p))
  {
    var t, pc := WriteStep(s, p), s.pcs[p];
    assert Wrote(s, p, pc);
    hide By, Authored, Shape, Full, Woken, Holds;
    if pc.Writing? && pc.i < |pc.addr| && !Full(s) {
      StoreWrote(s, p, t);
    } else {
      WriteShape(s, p);
      ByNone(s.written, s.authors, p);
      assert pc.Writing? && pc.i >= |pc.addr| ==> pc.addr[..pc.i] == pc.addr;
      assert pc.WriteStart? ==> pc.addr[..0] == [];
      AuthorsKept(s, t, p);
    }
  }

  lemma ByNone(w: seq<Byte>, a: seq<Pid>, p: Pid)
    requires |w| == |a|
    ensures By(w, a, p, |w|) == []
  {
  }

  lemma OtherPc(s: State, e: Event)
    requires Enabled(s, e) && |s.data| == PIPESIZE && !(e.Step? && Writer(s.pcs[e.p])) && |s.written| == |s.authors|
    requires Wrote(s, e.p, s.pcs[e.p])
    ensures Apply(s, e).written == s.written && Apply(s, e).authors == s.authors && e.p in Apply(s, e).pcs
    ensures Wrote(s, e.p, Apply(s, e).pcs[e.p])
  {
    hide By, Shutting, LastUser, Full, Empty, WriteStep, Wakeup;
    if e.Kill? {
      WokenWrote(s, e.p, s.pcs[e.p], true);
      WokenWrote(s, e.p, Woken(s.pcs[e.p], true), false);
    }
  }

  lemma AuthoredKept(s: State, e: Event)
    requires Inv(s) && Authored(s) && Enabled(s, e)
    ensures Authored(Apply(s, e))
  {
    RingSize(s);
    assert Wrote(s, e.p, s.pcs[e.p]);
    hide Authored, By, Ring, EndsOpen, Reads, Shape, WriteStep, ReadStep, CloseStep, Shutting, LastUser, Wrote;
    if e.Step? && Writer(s.pcs[e.p]) {
      WriteAuthored(s, e.p);
    } else {
      OtherPc(s, e);
      ShapeOf(s, e);
      AuthorsKept(s, Apply(s, e), e.p);
    }
  }

  lemma {:induction false} RunAuthored(s: State, es: seq<Event>)
    requires Inv(s) && Authored(s) && Runs(s, es)
    ensures Authored(After(s, es))
    decreases |es|
  {
    if es != [] {
      hide Inv, Authored, Enabled, Apply;
      StepKeeps(s, es[0]);
      AuthoredKept(s, es[0]);
      RunAuthored(Apply(s, es[0]), es[1..]);
    }
  }

  /** When pipewrite is about to return, what the caller put into the stream since the call began is
      exactly the bytes it was given, in order. */
  lemma WriteReturns(s0: State, es: seq<Event>, p: Pid)
    requires Initial(s0) && Runs(s0, es) && p in After(s0, es).pcs && After(s0, es).pcs[p].WriteEnd?
    ensures var s := After(s0, es); var WriteEnd(addr, since) := s.pcs[p];
            |s.written| == |s.authors| && By(s.written, s.authors, p, since) == addr
  {
    hide Runs, After;
    RunAuthored(s0, es);
    var s := After(s0, es);
    assert Wrote(s, p, s.pcs[p]);
  }

  // ----- It does happen -----

  /** Reader 1 sleeps; writer 2, killed, has put k of its bytes into the ring. */
  ghost predicate Doomed(s: State, addr: seq<Byte>, k: nat) {
    && |s.data| == PIPESIZE && s.nread == 0 && s.nwrite == k <= PIPESIZE < |addr| && s.killed == {2}
    && s.pcs == map[1 := ReadSleep(1), 2 := Writing(addr, k, 0)]
  }

  lemma {:induction false} FillAndLose(s: State, addr: seq<Byte>, k: nat) returns (es: seq<Event>)
    requires Doomed(s, addr, k)
    ensures Runs(s, es) && !Awaited(After(s, es))
    decreases PIPESIZE - k
  {
    var t := Apply(s, Step(2));
    if k == PIPESIZE {
      es := [Step(2)];
      assert s.pcs[1].ReadSleep?;
      AbandonedReader(s, 2);
      assert Runs(t, es[1..]) && After(t, es[1..]) == t;
    } else {
      var rest := FillAndLose(t, addr, k + 1);
      es := [Step(2)] + rest;
      assert es[1..] == rest;
    }
  }

  lemma Extend(s: State, e: Event, es: seq<Event>)
    requires |s.data| == PIPESIZE && Enabled(s, e) && Runs(Apply(s, e), es)
    ensures Runs(s, [e] + es) && After(s, [e] + es) == After(Apply(s, e), es)
  {
    assert ([e] + es)[1..] == es;
  }

  /** The reader goes to sleep. */
  lemma ReaderSleeps(s0: State) returns (s: State)
    requires |s0.data| == PIPESIZE && s0.nread == s0.nwrite == 0 && s0.readopen && s0.writeopen && s0.holder == None
    requires s0.pcs == map[1 := Idle, 2 := Idle] && s0.killed == {}
    ensures s == s0.(pcs := map[1 := ReadSleep(1), 2 := Idle])
    ensures forall es :: Runs(s, es) ==> Leads(s0, [CallRead(1, 1), Step(1), Step(1)] + es, s, es)
  {
    var s1 := Apply(s0, CallRead(1, 1));
    var s2 := Apply(s1, Step(1));
    s := Apply(s2, Step(1));
    assert s.pcs == map[1 := ReadSleep(1), 2 := Idle];
    forall es | Runs(s, es)
      ensures Leads(s0, [CallRead(1, 1), Step(1), Step(1)] + es, s, es)
    {
      Extend(s2, Step(1), es);
      Extend(s1, Step(1), [Step(1)] + es);
      Extend(s0, CallRead(1, 1), [Step(1)] + ([Step(1)] + es));
      assert [CallRead(1, 1), Step(1), Step(1)] + es == [CallRead(1, 1)] + ([Step(1)] + ([Step(1)] + es));
    }
  }

  /** Running es from s is running es0 from s0. */
  ghost predicate Leads(s0: State, es0: seq<Event>, s: State, es: seq<Event>) {
    Runs(s0, es0) && Runs(s, es) && After(s0, es0) == After(s, es)
  }

  /** The writer is killed and begins to write. */
  lemma WriterDoomed(s0: State, addr: seq<Byte>) returns (es: seq<Event>)
    requires |s0.data| == PIPESIZE < |addr| && s0.nread == s0.nwrite == 0 && s0.written == [] && s0.writeopen &&
             s0.holder == None
    requires s0.pcs == map[1 := ReadSleep(1), 2 := Idle] && s0.killed == {}
    ensures Runs(s0, es) && !Awaited(After(s0, es))
  {
    var s1 := Apply(s0, CallWrite(2, addr));
    var s2 := Apply(s1, Kill(2));
    var s3 := Apply(s2, Step(2));
    assert s3.pcs == map[1 := ReadSleep(1), 2 := Writing(addr, 0, 0)];
    es := FillAndLose(s3, addr, 0);
    Extend(s2, Step(2), es);
    Extend(s1, Kill(2), [Step(2)] + es);
    Extend(s0, CallWrite(2, addr), [Kill(2)] + ([Step(2)] + es));
    es := [CallWrite(2, addr)] + ([Kill(2)] + ([Step(2)] + es));
  }

  /** A writer killed in a full pipe can leave a reader asleep with bytes to read and nobody to wake it. */
  lemma LostWakeupHappens() returns (s0: State, es: seq<Event>)
    ensures Initial(s0) && Runs(s0, es) && !Awaited(After(s0, es))
  {
    var data: seq<Byte>, addr: seq<Byte> := seq(PIPESIZE, i => 0), seq(PIPESIZE + 1, i => 0);
    s0 := State(0, 0, data, true, true, None, map[1 := Idle, 2 := Idle], {}, [], [], []);
    hide Runs, After, Awaited;
    var s := ReaderSleeps(s0);
    var rest := WriterDoomed(s, addr);
    es := [CallRead(1, 1), Step(1), Step(1)] + rest;
    assert Leads(s0, es, s, rest);
  }
}
