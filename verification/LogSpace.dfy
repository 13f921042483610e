/**
 Space in the log: what begin_op reserves is enough for every operation that stays within
 MAXOPBLOCKS calls of log_write, and exactly when the panic of log_write cannot occur.
 */
module LogSpace {
  import opened Common
  import opened Journal

  function Left(o: Op): nat {
    if o.used < MAXOPBLOCKS then MAXOPBLOCKS - o.used else 0
  }

  /** The log_write calls that the operations in progress may still make. */
  ghost function Reserved(active: map<nat, Op>): nat
    decreases |active|
  {
    if active == map[] then 0
    else
      var p :| p in active;
      SmallerMap(active, p);
      Left(active[p]) + Reserved(active - {p})
  }

  lemma SmallerMap(active: map<nat, Op>, p: nat)
    requires p in active
    ensures |active - {p}| < |active|
  {
    MapSizes(active, p, active[p]);
  }

  lemma {:induction false} ReservedRemove(active: map<nat, Op>, p: nat)
    requires p in active
    ensures Reserved(active) == Left(active[p]) + Reserved(active - {p})
    decreases |active|
  {
    var q :| q in active && Reserved(active) == Left(active[q]) + Reserved(active - {q});
    if q != p {
      SmallerMap(active, q);
      ReservedRemove(active - {q}, p);
      SmallerMap(active, p);
      ReservedRemove(active - {p}, q);
      assert active - {q} - {p} == active - {p} - {q};
    }
  }

  lemma {:induction false} ReservedBound(active: map<nat, Op>)
    ensures Reserved(active) <= MAXOPBLOCKS * |active|
    decreases |active|
  {
    if active != map[] {
      var p :| p in active;
      ReservedRemove(active, p);
      MapSizes(active, p, active[p]);
      ReservedBound(active - {p});
    }
  }

  /** A header that fits the arrays, with distinct home blocks. */
  predicate Listed(geo: Geometry, lh: seq<nat>) {
    && |lh| <= LOGSIZE && (forall i :: 0 <= i < |lh| ==> Home(geo, lh[i]))
    && (forall i, j :: 0 <= i < j < |lh| ==> lh[i] != lh[j])
  }

  /** The header on disk, and its cached copy. */
  ghost predicate DiskHead(geo: Geometry, disk: seq<Block>, cache: map<nat, Buf>)
    requires GeoOk(geo) && |disk| == geo.nblocks
  {
    && disk[geo.start][0] <= LOGSIZE && Listed(geo, HeadOf(disk[geo.start]))
    && (geo.start in cache ==> cache[geo.start].data == disk[geo.start] && cache[geo.start].holder.Free?)
  }

  /** What holds of the header in memory and on disk, whatever the size of the log area. */
  ghost predicate HeadInv(k: Kernel) {
    && GeoOk(k.geo) && |k.disk| == k.geo.nblocks && Listed(k.geo, k.lh) && DiskHead(k.geo, k.disk, k.cache)
    && (k.pc.Idle? <==> k.booted && !k.committing)
  }

  ghost predicate SpaceInv(w: World) {
    && HeadInv(w.k) && |w.k.cache| <= NBUF && Calls(w.k, w.active) && w.k.outstanding == |w.active|
    && (!w.k.pc.Idle? ==> w.active == map[])
    && |w.k.lh| + Reserved(w.active) <= LOGSIZE
  }

  lemma NoneListed(geo: Geometry)
    ensures Listed(geo, []) && Reserved(map[]) == 0
  {
  }

  lemma PutHead(k: Kernel, lh: seq<nat>)
    requires HeadInv(k) && Listed(k.geo, lh)
    ensures var k' := PutBlock(k, k.geo.start, SetHead(Content(k, k.geo.start), lh));
            DiskHead(k.geo, k'.disk, k'.cache)
  {
    HeadRoundTrip(Content(k, k.geo.start), lh);
  }

  lemma FillKeepsHead(k: Kernel, b: nat)
    requires HeadInv(k) && b < |k.disk|
    ensures DiskHead(k.geo, k.disk, Fill(k, b).cache)
    ensures b == k.geo.start ==> Listed(k.geo, HeadOf(Content(Fill(k, b), b)))
  {
    hide Listed, HeadOf;
  }

  lemma PutKeepsHead(k: Kernel, b: nat, data: Block)
    requires GeoOk(k.geo) && |k.disk| == k.geo.nblocks && DiskHead(k.geo, k.disk, k.cache)
    requires b < |k.disk| && b != k.geo.start
    ensures DiskHead(k.geo, PutBlock(k, b, data).disk, PutBlock(k, b, data).cache)
  {
    hide Listed, HeadOf;
  }

  lemma CopyKeepsHead(k: Kernel)
    requires HeadInv(k) && CanAdvance(k) && (k.pc.WriteLog? || k.pc.Install?)
    ensures HeadInv(Advance(k)) && Advance(k).lh == k.lh && Advance(k).outstanding == k.outstanding
  {
    hide Listed, DiskHead, HasBuffers;
    var slot, home := k.geo.start + 1 + k.pc.i, k.lh[k.pc.i];
    var source := if k.pc.WriteLog? then home else slot;
    ListedHome(k, k.pc.i);
    FillKeepsHead(k, source);
    PutKeepsHead(Fill(k, source), slot + home - source, Content(Fill(k, source), source));
  }

  lemma ListedHome(k: Kernel, i: nat)
    requires HeadInv(k) && i < |k.lh|
    ensures k.lh[i] != k.geo.start
  {
  }

  lemma AdvanceHead(k: Kernel)
    requires HeadInv(k) && CanAdvance(k)
    ensures HeadInv(Advance(k)) && Advance(k).outstanding == k.outstanding
  {
    hide Listed, DiskHead, HeadOf, SetHead, HasBuffers;
    NoneListed(k.geo);
    if k.pc.WriteLog? || k.pc.Install? {
      CopyKeepsHead(k);
    } else {
      PutHead(k, k.lh);
      PutHead(k, []);
      FillKeepsHead(k, k.geo.start);
    }
  }

  lemma PutKeys(k: Kernel, b: nat, data: Block)
    requires b < |k.disk|
    ensures PutBlock(k, b, data).cache.Keys == k.cache.Keys + {b}
    ensures Fill(k, b).cache.Keys == k.cache.Keys + {b} && |Fill(k, b).disk| == |k.disk|
  {
  }

  lemma CopyKeys(k: Kernel)
    requires CanAdvance(k) && (k.pc.WriteLog? || k.pc.Install?)
    ensures Advance(k).cache.Keys == k.cache.Keys + Needs(k)
  {
    hide PutBlock, Fill, HeadOf, SetHead, HasBuffers;
    var slot, home := k.geo.start + 1 + k.pc.i, k.lh[k.pc.i];
    var source, dest := if k.pc.WriteLog? then home else slot, if k.pc.WriteLog? then slot else home;
    PutKeys(k, source, Content(k, source));
    var k1 := Fill(k, source);
    PutKeys(k1, dest, Content(k1, source));
    assert Advance(k).cache == PutBlock(k1, dest, Content(k1, source)).cache;
    assert Needs(k) == {source} + {dest};
  }

  lemma HeadKeys(k: Kernel)
    requires CanAdvance(k) && !k.pc.WriteLog? && !k.pc.Install?
    ensures Advance(k).cache.Keys == k.cache.Keys + Needs(k)
  {
    hide HeadOf, SetHead, HasBuffers;
  }

  /** The cache after a step holds what it held before and the buffers the step needed. */
  lemma AdvanceBuffers(k: Kernel)
    requires CanAdvance(k)
    ensures |Advance(k).cache| <= NBUF && Advance(k).cache.Keys == k.cache.Keys + Needs(k)
  {
    hide Advance, Needs;
    if k.pc.WriteLog? || k.pc.Install? { CopyKeys(k); } else { HeadKeys(k); }
    assert |Advance(k).cache| == |Advance(k).cache.Keys|;
  }

  lemma HeadBound(k: Kernel)
    requires HeadInv(k)
    ensures |k.lh| <= LOGSIZE
  {
  }

  /** What changes in the reservation when an operation starts, moves on or ends. */
  lemma ReservedChange(active: map<nat, Op>, p: nat, o: Op)
    ensures Reserved(active[p := o]) == Left(o) + Reserved(active - {p})
    ensures p in active ==> Reserved(active) == Left(active[p]) + Reserved(active - {p})
    ensures p !in active ==> active - {p} == active
  {
    ReservedRemove(active[p := o], p);
    assert active[p := o] - {p} == active - {p};
    if p in active { ReservedRemove(active, p); }
  }

  lemma BeginSpace(w: World, p: nat)
    requires SpaceInv(w) && Enabled(w, EvBeginOp(p))
    ensures SpaceInv(Apply(w, EvBeginOp(p)))
  {
    hide Reserved, Listed, DiskHead;
    var o := Op(w.nextOp, 0, Outside);
    MapSizes(w.active, p, o);
    ReservedChange(w.active, p, o);
    ReservedBound(w.active);
  }

  lemma EndSpace(w: World, p: nat)
    requires SpaceInv(w) && Enabled(w, EvEndOp(p))
    ensures SpaceInv(Apply(w, EvEndOp(p)))
  {
    hide Reserved, Listed, DiskHead;
    MapSizes(w.active, p, w.active[p]);
    ReservedChange(w.active, p, w.active[p]);
    assert w.k.outstanding == 1 ==> w.active - {p} == map[];
  }

  lemma GuardSpace(w: World, p: nat, b: nat)
    requires SpaceInv(w) && Enabled(w, EvLogGuard(p, b))
    ensures SpaceInv(Apply(w, EvLogGuard(p, b)))
  {
    hide Reserved, HeadInv;
    var o := w.active[p].(call := Passed(b));
    MapSizes(w.active, p, o);
    ReservedChange(w.active, p, o);
  }

  lemma AbsorbListed(geo: Geometry, lh: seq<nat>, b: nat)
    requires Listed(geo, lh) && Home(geo, b) && |lh| < LOGSIZE
    ensures Listed(geo, Absorb(lh, b))
  {
  }

  lemma AppendSpace(w: World, p: nat, b: nat)
    requires SpaceInv(w) && Enabled(w, EvLogAppend(p, b))
    ensures |w.k.lh| < LOGSIZE && SpaceInv(Apply(w, EvLogAppend(p, b)))
  {
    hide Reserved, Listed;
    var o := w.active[p].(used := w.active[p].used + 1, call := Outside);
    MapSizes(w.active, p, o);
    ReservedChange(w.active, p, o);
    AbsorbListed(w.k.geo, w.k.lh, b);
    CacheStays(w, EvLogAppend(p, b));
  }

  lemma SizeAfter(cache: map<nat, Buf>, b: nat, x: Buf)
    requires |cache| <= NBUF && (b in cache || |cache| < NBUF)
    ensures |cache[b := x]| <= NBUF && |cache - {b}| <= NBUF
  {
    MapSizes(cache, b, x);
    if b !in cache { assert cache - {b} == cache; }
  }

  lemma CacheStays(w: World, e: Event)
    requires |w.k.cache| <= NBUF && Enabled(w, e)
    requires e.EvBread? || e.EvModify? || e.EvLogAppend? || e.EvBrelse? || e.EvEvict?
    ensures |Apply(w, e).k.cache| <= NBUF
  {
    hide Home, InOp, NotLogging, Absorb, HasBuffers;
    var cache := w.k.cache;
    match e
    case EvBread(p, b) =>
      var cache' := Apply(w, e).k.cache;
      assert cache' == cache[b := cache'[b]];
      SizeAfter(cache, b, cache'[b]);
    case EvModify(p, b, data) => SizeAfter(cache, b, cache[b].(data := data, raw := true));
    case EvLogAppend(p, b) => SizeAfter(cache, b, cache[b].(dirty := true, raw := false));
    case EvBrelse(p, b) => SizeAfter(cache, b, cache[b].(holder := Free));
    case EvEvict(b) => SizeAfter(cache, b, cache[b]);
  }

  lemma BreadSpace(w: World, p: nat, b: nat)
    requires SpaceInv(w) && Enabled(w, EvBread(p, b))
    ensures SpaceInv(Apply(w, EvBread(p, b)))
  {
    hide Listed, Reserved, HeadOf;
    CacheStays(w, EvBread(p, b));
  }

  lemma BufferSpace(w: World, e: Event)
    requires SpaceInv(w) && Enabled(w, e)
    requires e.EvModify? || e.EvBrelse? || e.EvEvict?
    ensures SpaceInv(Apply(w, e))
  {
    hide Listed, Reserved, HeadOf;
    CacheStays(w, e);
  }

  lemma CrashSpace(w: World)
    requires SpaceInv(w) && Enabled(w, EvCrash)
    ensures SpaceInv(Apply(w, EvCrash))
  {
    hide Listed, Reserved, HeadOf;
    NoneListed(w.k.geo);
  }

  lemma SpaceStep(w: World, e: Event)
    requires SpaceInv(w) && Enabled(w, e)
    ensures SpaceInv(Apply(w, e))
  {
    hide Listed, Reserved, DiskHead;
    match e
    case EvBeginOp(p) => hide SpaceInv; BeginSpace(w, p);
    case EvEndOp(p) => hide SpaceInv; EndSpace(w, p);
    case EvLogGuard(p, b) => hide SpaceInv; GuardSpace(w, p, b);
    case EvLogAppend(p, b) => hide SpaceInv; AppendSpace(w, p, b);
    case EvBread(p, b) => hide SpaceInv; BreadSpace(w, p, b);
    case EvCrash => hide SpaceInv; CrashSpace(w);
    case EvAdvance =>
      hide HeadInv, Advance;
      NoneListed(w.k.geo);
      AdvanceHead(w.k);
      AdvanceBuffers(w.k);
      HeadBound(Advance(w.k));
    case _ => hide SpaceInv; BufferSpace(w, e);
  }

  lemma InitialSpace(w: World)
    requires Initial(w)
    ensures SpaceInv(w)
  {
  }

  lemma {:induction false} RunSpace(w: World, es: seq<Event>)
    requires SpaceInv(w) && Runs(w, es)
    ensures SpaceInv(After(w, es))
    decreases |es|
  {
    hide SpaceInv, Enabled, Apply;
    if es != [] {
      SpaceStep(w, es[0]);
      RunSpace(Apply(w, es[0]), es[1..]);
    }
  }

  /** In every reachable state, whatever the size of the log area, log.lh.n plus what is reserved fits
      the header, the block numbers in it are distinct, and a process that passed the tests of
      log_write, however long ago, can record its block in a slot of the header. */
  lemma SlotInBounds(w: World, es: seq<Event>, p: nat)
    requires Initial(w) && Runs(w, es)
    ensures var w' := After(w, es);
            && |w'.k.lh| + Reserved(w'.active) <= LOGSIZE
            && (forall i, j :: 0 <= i < j < |w'.k.lh| ==> w'.k.lh[i] != w'.k.lh[j])
            && (p in w'.active && w'.active[p].used < MAXOPBLOCKS ==>
                  |w'.k.lh| < LOGSIZE && w'.k.outstanding >= 1 && !w'.k.committing)
            && (p in w'.active && w'.active[p].call.Passed? ==>
                  |w'.k.lh| < LOGSIZE && Enabled(w', EvLogAppend(p, w'.active[p].call.b)))
  {
    hide Runs, After;
    InitialSpace(w);
    RunSpace(w, es);
    var w' := After(w, es);
    if p in w'.active {
      ReservedRemove(w'.active, p);
      MapSizes(w'.active, p, w'.active[p]);
    }
  }

  lemma StepGeo(w: World, e: Event)
    requires Enabled(w, e)
    ensures Apply(w, e).k.geo == w.k.geo
  {
    hide HasBuffers, CanCopy, HeadOf, SetHead, Absorb, Home, InOp, NotLogging;
  }

  /** In a log area larger than LOGSIZE every log_write finds room when it takes the lock, although it
      looked for room before. */
  lemma {:induction false} AlwaysFits(w: World, es: seq<Event>)
    requires SpaceInv(w) && Runs(w, es) && w.k.geo.size > LOGSIZE
    ensures Fitting(w, es)
    decreases |es|
  {
    hide SpaceInv, Enabled, Apply;
    if es != [] {
      if es[0].EvLogAppend? { AppendSpace(w, es[0].p, es[0].b); }
      SpaceStep(w, es[0]);
      StepGeo(w, es[0]);
      AlwaysFits(Apply(w, es[0]), es[1..]);
    }
  }

  // ----- When "too big a transaction" cannot happen -----

  /** The j-th block outside the log area. */
  function HomeNo(geo: Geometry, j: nat): nat {
    if j < geo.start then j else j + geo.size
  }

  /** Calls made by operation p < 3 when the three have made j in turn. */
  function Spent(j: nat, p: nat): nat
    requires p < 3
  {
    (j + 2 - p) / 3
  }

  /** Nothing is held and nothing has been committed since the disk was d. */
  ghost predicate Calm(w: World, d: seq<Block>) {
    && GeoOk(w.k.geo) && w.k.disk == d && |d| == w.k.geo.nblocks && d[w.k.geo.start][0] == 0
    && w.k.booted && w.cut == 0
    && (forall b :: b in w.k.cache ==> w.k.cache[b].holder.Free? && !w.k.cache[b].raw)
  }

  predicate FirstHomes(geo: Geometry, lh: seq<nat>, j: nat) {
    |lh| == j && forall i :: 0 <= i < j ==> lh[i] == HomeNo(geo, i)
  }

  /** The cached blocks are those of the in-memory log. */
  ghost predicate OnlyLogged(k: Kernel) {
    forall b :: b in k.cache <==> b in k.lh
  }

  /** Three operations are running and have logged j distinct blocks between them. */
  ghost predicate Logged(w: World, d: seq<Block>, j: nat) {
    && Calm(w, d) && w.k.pc.Idle? && !w.k.committing && w.k.outstanding == 3
    && FirstHomes(w.k.geo, w.k.lh, j) && OnlyLogged(w.k) && |w.k.cache| == j && Pinned(w.k.cache, w.k.lh)
    && (forall p :: 0 <= p < 3 ==> p in w.active && w.active[p].used == Spent(j, p) && w.active[p].call == Outside)
  }

  lemma {:induction false} RunsConcat(w: World, es: seq<Event>, fs: seq<Event>)
    requires Runs(w, es) && Runs(After(w, es), fs)
    ensures Runs(w, es + fs) && After(w, es + fs) == After(After(w, es), fs)
    decreases |es|
  {
    hide Apply, Enabled;
    if es == [] {
      assert es + fs == fs;
    } else {
      assert (es + fs)[1..] == es[1..] + fs;
      RunsConcat(Apply(w, es[0]), es[1..], fs);
    }
  }

  /** A run of es and then the event e. */
  lemma RunThen(w: World, es: seq<Event>, e: Event)
    requires Runs(w, es) && Enabled(After(w, es), e)
    ensures Runs(w, es + [e]) && After(w, es + [e]) == Apply(After(w, es), e)
  {
    hide Enabled, Apply;
    var w' := After(w, es);
    assert Runs(Apply(w', e), []) && [e][1..] == [];
    assert Runs(w', [e]) && After(w', [e]) == Apply(w', e);
    RunsConcat(w, es, [e]);
  }

  lemma ThreeSteps(w: World, e0: Event, e1: Event, e2: Event)
    requires Enabled(w, e0) && Enabled(Apply(w, e0), e1) && Enabled(Apply(Apply(w, e0), e1), e2)
    ensures Runs(w, [e0, e1, e2])
    ensures After(w, [e0, e1, e2]) == Apply(Apply(Apply(w, e0), e1), e2)
  {
    hide Apply, Enabled;
    assert Runs(w, []);
    RunThen(w, [], e0);
    RunThen(w, [e0], e1);
    RunThen(w, [e0, e1], e2);
    assert [] + [e0] == [e0] && [e0] + [e1] == [e0, e1] && [e0, e1] + [e2] == [e0, e1, e2];
  }

  lemma OneBuffer(k: Kernel)
    requires k.cache.Keys <= {k.geo.start} && (k.pc.ReadHead? || k.pc.Clear? || k.pc.Finish?)
    ensures HasBuffers(k)
  {
    assert k.cache.Keys + Needs(k) <= {k.geo.start};
    assert |{k.geo.start} - (k.cache.Keys + Needs(k))| >= 0;
  }

  /** Recovery of an empty log: the header is read and written back as it was. */
  lemma BootSteps(k: Kernel)
    requires GeoOk(k.geo) && |k.disk| == k.geo.nblocks && k.disk[k.geo.start][0] == 0 && k == Reboot(k)
    ensures CanAdvance(k) && CanAdvance(Advance(k)) && CanAdvance(Advance(Advance(k)))
    ensures Advance(Advance(Advance(k)))
            == k.(cache := map[k.geo.start := Buf(k.disk[k.geo.start], false, Free, false)], pc := Idle, booted := true)
  {
    hide HasBuffers;
    OneBuffer(k);
    var k1 := Advance(k);
    assert k1.pc.Clear?;
    OneBuffer(k1);
    assert SetHead(Content(k1, k.geo.start), []) == k.disk[k.geo.start];
    var k2 := Advance(k1);
    assert k2.disk == k.disk && k2.pc.Finish?;
    OneBuffer(k2);
  }

  lemma BootRun(w: World) returns (es: seq<Event>)
    requires Initial(w)
    ensures Runs(w, es) && Calm(After(w, es), w.k.disk)
    ensures var w' := After(w, es);
            && w'.k.geo == w.k.geo && w'.k.pc.Idle? && !w'.k.committing && w'.k.outstanding == 0
            && w'.k.lh == [] && w'.active == map[] && w'.k.cache == map[]
  {
    hide Runs, After, CanAdvance;
    var advances, free := [EvAdvance, EvAdvance, EvAdvance], EvEvict(w.k.geo.start);
    es := advances + [free];
    BootSteps(w.k);
    BootPcs(w);
    hide Advance;
    ThreeSteps(w, EvAdvance, EvAdvance, EvAdvance);
    assert Enabled(After(w, advances), free);
    RunThen(w, advances, free);
    assert After(w, es).k.cache == map[];
  }

  lemma BootPcs(w: World)
    requires Initial(w) && CanAdvance(w.k) && CanAdvance(Advance(w.k))
    ensures w.k.pc.ReadHead? && Advance(w.k).pc.Clear? && Advance(Advance(w.k)).pc.Finish?
  {
    hide HasBuffers;
  }

  lemma BeginRun(w: World, d: seq<Block>) returns (es: seq<Event>)
    requires Calm(w, d) && w.k.pc.Idle? && !w.k.committing && w.k.outstanding == 0
    requires w.k.lh == [] && w.active == map[] && w.k.cache == map[]
    ensures Runs(w, es) && After(w, es).k.geo == w.k.geo && Logged(After(w, es), d, 0)
  {
    hide CanAdvance, Advance;
    es := [EvBeginOp(0), EvBeginOp(1), EvBeginOp(2)];
    ThreeSteps(w, es[0], es[1], es[2]);
  }

  /** The operation whose turn it is to log the j-th block. */
  function Turn(j: nat): (p: nat)
    ensures p < 3
  {
    j % 3
  }

  lemma SpentNext(j: nat, p: nat)
    requires j < LOGSIZE && p < 3
    ensures Spent(j + 1, p) == if p == Turn(j) then Spent(j, p) + 1 else Spent(j, p)
    ensures p == Turn(j) || (j <= LOGSIZE - 2 && p > 0) ==> Spent(j, p) < MAXOPBLOCKS
  {
  }

  /** bread, log_write and brelse of a block that was not logged before. */
  lemma LogBlock(w: World, p: nat, b: nat)
    requires w.k.booted && |w.k.disk| == w.k.geo.nblocks && Home(w.k.geo, b) && Unheld(w.k, b)
    requires InOp(w, p) && w.active[p].used < MAXOPBLOCKS && LogHasRoom(w.k) && b !in w.k.lh && w.k.outstanding >= 1
    requires |w.k.cache| < NBUF
    ensures var es := [EvBread(p, b), EvLogGuard(p, b), EvLogAppend(p, b)] + [EvBrelse(p, b)];
            && Runs(w, es)
            && var w' := After(w, es);
            && w'.k == w.k.(lh := w.k.lh + [b], cache := w.k.cache[b := Buf(Content(w.k, b), true, Free, false)])
            && w'.active == w.active[p := w.active[p].(used := w.active[p].used + 1)] && w'.cut == w.cut
  {
    hide Runs, After, CanAdvance, Advance;
    var w1 := Apply(w, EvBread(p, b));
    var w2 := Apply(w1, EvLogGuard(p, b));
    var w3 := Apply(w2, EvLogAppend(p, b));
    ThreeSteps(w, EvBread(p, b), EvLogGuard(p, b), EvLogAppend(p, b));
    assert w3.k.cache == w.k.cache[b := Buf(Content(w.k, b), true, Held(p), false)];
    RunThen(w, [EvBread(p, b), EvLogGuard(p, b), EvLogAppend(p, b)], EvBrelse(p, b));
  }

  /** The next home block is not in the log yet. */
  lemma FreshHome(geo: Geometry, lh: seq<nat>, j: nat, i: nat)
    requires GeoOk(geo) && geo.size + LOGSIZE <= geo.nblocks && FirstHomes(geo, lh, j) && j <= i < LOGSIZE
    ensures HomeNo(geo, i) !in lh && Home(geo, HomeNo(geo, i))
    ensures i == j ==> FirstHomes(geo, lh + [HomeNo(geo, i)], j + 1)
  {
  }

  lemma LogOne(w: World, d: seq<Block>, j: nat) returns (es: seq<Event>)
    requires w.k.geo.size + LOGSIZE <= w.k.geo.nblocks
    requires Logged(w, d, j) && j < LOGSIZE && j < w.k.geo.size - 1
    ensures Runs(w, es) && After(w, es).k.geo == w.k.geo && Logged(After(w, es), d, j + 1)
  {
    hide Runs, After, FirstHomes, Spent, Turn, Enabled, Apply;
    var p, b := Turn(j), HomeNo(w.k.geo, j);
    es := [EvBread(p, b), EvLogGuard(p, b), EvLogAppend(p, b)] + [EvBrelse(p, b)];
    SpentNext(j, p);
    FreshHome(w.k.geo, w.k.lh, j, j);
    LogBlock(w, p, b);
    LoggedNext(w, After(w, es), d, j, p, b);
  }

  lemma LoggedNext(w: World, w': World, d: seq<Block>, j: nat, p: nat, b: nat)
    requires Logged(w, d, j) && j < LOGSIZE && p == Turn(j) && b !in w.k.lh && b < |w.k.disk|
    requires FirstHomes(w.k.geo, w.k.lh + [b], j + 1)
    requires w'.k == w.k.(lh := w.k.lh + [b], cache := w.k.cache[b := Buf(Content(w.k, b), true, Free, false)])
    requires w'.active == w.active[p := w.active[p].(used := w.active[p].used + 1)] && w'.cut == w.cut
    ensures Logged(w', d, j + 1)
  {
    hide FirstHomes, Spent, Turn;
    SpentNext(j, 0);
    SpentNext(j, 1);
    SpentNext(j, 2);
    MapSizes(w.k.cache, b, Buf(Content(w.k, b), true, Free, false));
  }

  lemma {:induction false} LogMany(w: World, d: seq<Block>, j: nat) returns (es: seq<Event>)
    requires w.k.geo.size + LOGSIZE <= w.k.geo.nblocks
    requires Logged(w, d, 0) && j <= LOGSIZE && j <= w.k.geo.size - 1
    ensures Runs(w, es) && After(w, es).k.geo == w.k.geo && Logged(After(w, es), d, j)
  {
    hide Logged, Apply, Enabled;
    if j == 0 {
      es := [];
    } else {
      var fs := LogMany(w, d, j - 1);
      var gs := LogOne(After(w, fs), d, j - 1);
      RunsConcat(w, fs, gs);
      es := fs + gs;
    }
  }

  /** From first boot to three operations that have logged j blocks. */
  lemma LoggedRun(w: World, j: nat) returns (es: seq<Event>)
    requires Initial(w) && w.k.geo.size + LOGSIZE <= w.k.geo.nblocks && j <= LOGSIZE && j <= w.k.geo.size - 1
    ensures Runs(w, es) && After(w, es).k.geo == w.k.geo && Logged(After(w, es), w.k.disk, j)
  {
    hide Runs, After, Logged, Calm, Apply, Enabled;
    var es0 := BootRun(w);
    var es1 := BeginRun(After(w, es0), w.k.disk);
    RunsConcat(w, es0, es1);
    var es2 := LogMany(After(w, es0 + es1), w.k.disk, j);
    RunsConcat(w, es0 + es1, es2);
    es := es0 + es1 + es2;
  }

  /** A log of at most LOGSIZE blocks, header included, can be filled up by operations that all
      keep to their budget: the next log_write panics. */
  lemma SmallLogPanics(w: World) returns (es: seq<Event>, p: nat, b: nat)
    requires Initial(w) && w.k.geo.size <= LOGSIZE && w.k.geo.size + LOGSIZE <= w.k.geo.nblocks
    ensures Runs(w, es) && MayLogWrite(After(w, es), p, b) && !LogHasRoom(After(w, es).k)
  {
    hide Runs, After, FirstHomes, Turn;
    var j := w.k.geo.size - 1;
    var es0 := LoggedRun(w, j);
    var w' := After(w, es0);
    p, b := Turn(j), HomeNo(w.k.geo, j);
    SpentNext(j, p);
    FreshHome(w.k.geo, w'.k.lh, j, j);
    FullLog(w', j);
    RunThen(w, es0, EvBread(p, b));
    es := es0 + [EvBread(p, b)];
  }

  lemma FullLog(w: World, j: nat)
    requires FirstHomes(w.k.geo, w.k.lh, j)
    ensures |w.k.lh| == j
  {
  }

  /** log_write never panics with "too big a transaction" if and only if the log area is larger
      than LOGSIZE; mkfs makes it exactly LOGSIZE blocks, so there the panic can be reached. */
  lemma TooBigExactly(w: World)
    requires Initial(w) && w.k.geo.size + LOGSIZE <= w.k.geo.nblocks
    ensures (forall es, p, b :: Runs(w, es) && MayLogWrite(After(w, es), p, b) ==> LogHasRoom(After(w, es).k))
            <==> w.k.geo.size > LOGSIZE
  {
    hide Initial, Runs, After;
    if w.k.geo.size > LOGSIZE {
      forall es, p, b | Runs(w, es) && MayLogWrite(After(w, es), p, b)
        ensures LogHasRoom(After(w, es).k)
      {
        SlotInBounds(w, es, p);
        RunConstants(w, es);
      }
    } else {
      var es, p, b := SmallLogPanics(w);
      assert Runs(w, es) && MayLogWrite(After(w, es), p, b);
    }
  }
}
