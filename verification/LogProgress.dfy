/**
 Commit and recovery come to an end: exactly when bget has a buffer for the first block a commit goes
 through, and recovery does always, also after a crash at any point of any run.  Also, what the
 steps of the machine change of what readers see and of the history of logged writes.
 */
module LogProgress {
  import opened Common
  import opened Journal
  import opened LogSpace
  import opened LogRace
  import opened LogBuffers

  /** Only the committing or recovering process runs, and buffers of clean free blocks are reused. */
  predicate Working(fs: seq<Event>) {
    forall i :: 0 <= i < |fs| ==> fs[i].EvEvict? || fs[i].EvAdvance?
  }

  function Advances(fs: seq<Event>): nat {
    if fs == [] then 0 else Advances(fs[1..]) + if fs[0].EvAdvance? then 1 else 0
  }

  /** The steps that commit or recovery has still to make: two block writes for each logged block, two
      of the header and the end. */
  function StepsLeft(k: Kernel): int {
    match k.pc
    case Idle => 0
    case Finish => 1
    case Clear => 2
    case Install(i) => 2 + |k.lh| - i
    case WriteHead => 3 + |k.lh|
    case WriteLog(i) => 3 + 2 * |k.lh| - i
    case ReadHead => 3 + if k.geo.start < |k.disk| then |HeadOf(k.disk[k.geo.start])| else 0
  }

  /** No buffer is in use, or one is left besides those in use, and the blocks still to be installed
      are among them. */
  ghost predicate Roomy(k: Kernel) {
    || Pins(k.cache) == {}
    || (|Pins(k.cache)| < NBUF && (k.pc.Install? ==> Pinned(k.cache, if k.pc.i <= |k.lh| then k.lh[k.pc.i..] else [])))
  }

  // ----- One step -----

  lemma RoomyNeeds(k: Kernel)
    requires Roomy(k) && (k.pc.Install? ==> k.pc.i < |k.lh|)
    requires k.pc.WriteLog? ==> k.pc.i < |k.lh| && Pinned(k.cache, k.lh)
    ensures |Pins(k.cache) + Needs(k)| <= NBUF
  {
    var pins := Pins(k.cache);
    if pins == {} {
      assert pins + Needs(k) == Needs(k);
      if k.pc.Install? || k.pc.WriteLog? { Fewer(Needs(k), {k.lh[k.pc.i], k.geo.start + 1 + k.pc.i}); }
    } else {
      var x := if k.pc.Install? || k.pc.WriteLog? then k.geo.start + 1 + k.pc.i else k.geo.start;
      if k.pc.Install? { assert k.lh[k.pc.i..][0] == k.lh[k.pc.i]; }
      Fewer(pins + Needs(k), pins + {x});
    }
  }

  /** What the invariant says about a step besides buffers. */
  lemma StepFacts(w: World)
    requires Inv(w) && !w.k.pc.Idle? && Quiet(w.k)
    ensures CouldAdvance(w.k) && HeadOk(w.k.geo, w.k.lh)
    ensures w.k.pc.WriteLog? ==> w.k.pc.i < |w.k.lh| && Pinned(w.k.cache, w.k.lh)
    ensures w.k.pc.WriteHead? ==> Pinned(w.k.cache, w.k.lh)
    ensures w.k.pc.Install? ==> w.k.pc.i < |w.k.lh|
    ensures w.k.pc.ReadHead? ==> w.k.cache == map[]
    ensures forall b :: b in w.k.cache && InLog(w.k.geo, b) ==> !w.k.cache[b].dirty && w.k.cache[b].holder.Free?
  {
    hide LogGood, Absent, RestClean, OpsInv, Installed, Copied;
    InvCould(w);
  }

  lemma PutPins(k: Kernel, b: nat, data: Block)
    requires b < |k.disk|
    ensures Pins(PutBlock(k, b, data).cache) == Pins(k.cache) - {b}
  {
  }

  lemma FillPins(k: Kernel, b: nat)
    requires b < |k.disk|
    ensures Pins(Fill(k, b).cache) == Pins(k.cache) && |Fill(k, b).disk| == |k.disk|
  {
  }

  lemma AdvancePins(k: Kernel)
    requires CanAdvance(k)
    ensures Pins(Advance(k).cache) <= Pins(k.cache)
    ensures k.pc.Install? ==> Pins(k.cache) - {k.lh[k.pc.i]} <= Pins(Advance(k).cache) + {k.geo.start + 1 + k.pc.i}
    ensures k.pc.WriteHead? ==> Pins(k.cache) <= Pins(Advance(k).cache) + {k.geo.start}
  {
    hide Pins, PutBlock, Fill, HasBuffers, Unheld;
    match k.pc
    case WriteLog(i) =>
      FillPins(k, k.lh[i]);
      PutPins(Fill(k, k.lh[i]), k.geo.start + 1 + i, Content(Fill(k, k.lh[i]), k.lh[i]));
    case WriteHead => PutPins(k, k.geo.start, SetHead(Content(k, k.geo.start), k.lh));
    case Install(i) =>
      var slot := k.geo.start + 1 + i;
      FillPins(k, slot);
      PutPins(Fill(k, slot), k.lh[i], Content(Fill(k, slot), slot));
    case Clear => PutPins(k, k.geo.start, SetHead(Content(k, k.geo.start), []));
    case ReadHead => FillPins(k, k.geo.start);
    case Finish =>
  }

  /** Each step brings the end one step nearer. */
  lemma AdvanceCounts(k: Kernel)
    requires CanAdvance(k) && (k.pc.ReadHead? ==> k.cache == map[])
    ensures StepsLeft(Advance(k)) == StepsLeft(k) - 1 && (Advance(k).pc.Idle? <==> k.pc.Finish?)
  {
    hide HasBuffers, Unheld, Needs, SetHead, HeadOf;
  }

  lemma AdvanceQuiet(k: Kernel)
    requires CanAdvance(k) && Quiet(k) && (k.pc.ReadHead? ==> k.cache == map[])
    ensures Quiet(Advance(k))
  {
    hide HasBuffers, Needs;
  }

  lemma PinnedIsIn(cache: map<nat, Buf>, lh: seq<nat>, i: nat)
    requires forall b :: b in cache && b in lh ==> cache[b].holder.Free?
    requires i <= |lh|
    ensures Pinned(cache, lh[i..]) <==> forall j :: i <= j < |lh| ==> lh[j] in Pins(cache)
  {
    if Pinned(cache, lh[i..]) {
      forall j | i <= j < |lh| ensures lh[j] in Pins(cache) { assert lh[i..][j - i] == lh[j]; }
    }
  }

  lemma InstallNext(k: Kernel)
    requires CanAdvance(k) && Advance(k).pc.Install? && !k.pc.ReadHead?
    ensures var k' := Advance(k);
            k'.lh == k.lh && k'.pc.i < |k.lh|
            && (if k.pc.WriteHead? then k'.pc.i == 0 else k.pc.Install? && k'.pc.i == k.pc.i + 1)
  {
    hide HasBuffers, Unheld, Needs;
  }

  lemma StillPinned(k: Kernel)
    requires CanAdvance(k) && HeadOk(k.geo, k.lh) && Quiet(k) && Advance(k).pc.Install? && !k.pc.ReadHead?
    requires k.pc.WriteHead? ==> Pinned(k.cache, k.lh)
    requires k.pc.Install? ==> Pinned(k.cache, k.lh[k.pc.i..])
    ensures var k' := Advance(k); k'.pc.i <= |k'.lh| && Pinned(k'.cache, k'.lh[k'.pc.i..])
  {
    hide Pins, Needs, HasBuffers, Advance, Unheld, Pinned;
    AdvancePins(k);
    AdvanceQuiet(k);
    InstallNext(k);
    var k' := Advance(k);
    if k.pc.WriteHead? {
      assert k.lh[0..] == k.lh;
      PinnedIsIn(k.cache, k.lh, 0);
    } else {
      PinnedIsIn(k.cache, k.lh, k.pc.i);
    }
    PinnedIsIn(k'.cache, k.lh, k'.pc.i);
    forall j | k'.pc.i <= j < |k.lh|
      ensures k.lh[j] in Pins(k'.cache)
    {
      assert Home(k.geo, k.lh[j]) && k.lh[j] in Pins(k.cache);
      if k.pc.Install? {
        assert InLog(k.geo, k.geo.start + 1 + k.pc.i) && k.lh[j] in Pins(k.cache) - {k.lh[k.pc.i]};
      } else {
        assert InLog(k.geo, k.geo.start);
      }
    }
  }

  /** A step of commit or recovery takes no buffer into use. */
  lemma AdvanceRoomy(k: Kernel)
    requires CanAdvance(k) && HeadOk(k.geo, k.lh) && Quiet(k) && Roomy(k)
    requires k.pc.WriteHead? ==> Pinned(k.cache, k.lh)
    requires k.pc.ReadHead? ==> k.cache == map[]
    ensures Roomy(Advance(k))
  {
    hide Needs, HasBuffers, Advance, Unheld, Pinned, HeadOk, Quiet;
    AdvancePins(k);
    var k' := Advance(k);
    Fewer(Pins(k'.cache), Pins(k.cache));
    if k'.pc.Install? && Pins(k.cache) != {} {
      StillPinned(k);
    }
  }

  // ----- To the end -----

  lemma {:induction false} NoAdvances(es: seq<Event>)
    requires Evictions(es)
    ensures Advances(es + [EvAdvance]) == 1
  {
    var fs := es + [EvAdvance];
    if es == [] {
      assert fs[1..] == [];
    } else {
      assert fs[1..] == es[1..] + [EvAdvance];
      NoAdvances(es[1..]);
    }
  }

  lemma FinishDisk(k: Kernel)
    requires CanAdvance(k) && k.pc.Finish?
    ensures Advance(k) == k.(committing := false, booted := true, pc := Idle)
  {
  }

  lemma {:induction false} EvictionsInv(w: World, es: seq<Event>)
    requires Inv(w) && Evictions(es) && Runs(w, es)
    ensures Inv(After(w, es))
    decreases |es|
  {
    hide Inv;
    if es != [] {
      StepKeeps(w, es[0]);
      EvictionsInv(Apply(w, es[0]), es[1..]);
    }
  }

  lemma SmallerCache(k: Kernel, k': Kernel)
    requires k' == k.(cache := k'.cache) && Quiet(k) && Roomy(k) && Pins(k.cache) <= k'.cache.Keys
    requires forall b :: b in k'.cache ==> b in k.cache && k'.cache[b] == k.cache[b]
    ensures Quiet(k') && Roomy(k') && Pins(k'.cache) == Pins(k.cache) && StepsLeft(k') == StepsLeft(k)
  {
    assert Pins(k'.cache) == Pins(k.cache);
  }

  lemma MakeRoom(w: World) returns (es: seq<Event>)
    requires Inv(w) && !w.k.pc.Idle? && Quiet(w.k) && Roomy(w.k)
    ensures Evictions(es) && Runs(w, es)
    ensures var w' := After(w, es);
            && Inv(w') && Quiet(w'.k) && Roomy(w'.k) && StepsLeft(w'.k) == StepsLeft(w.k) && CanAdvance(w'.k)
            && w' == w.(k := w'.k) && w'.k == w.k.(cache := w'.k.cache)
  {
    hide Inv, Needs, HasBuffers, Runs, After, Quiet, Roomy, Pins, StepsLeft, CouldAdvance;
    StepFacts(w);
    RoomyNeeds(w.k);
    var keep := Pins(w.k.cache) + Needs(w.k);
    es := EvictAll(w, keep);
    EvictionsKeep(w, es);
    EvictionsInv(w, es);
    var k := After(w, es).k;
    SmallerCache(w.k, k);
    FewerBuffers(w.k, k);
    Fewer(k.cache.Keys + Needs(k), keep);
    EnoughBuffers(k);
  }

  lemma EnoughBuffers(k: Kernel)
    requires |k.cache.Keys + Needs(k)| <= NBUF
    ensures HasBuffers(k)
  {
  }

  /** Commit or recovery can make its next step, after taking buffers away if need be. */
  lemma NextStep(w: World) returns (fs: seq<Event>)
    requires Inv(w) && !w.k.pc.Idle? && Quiet(w.k) && Roomy(w.k)
    ensures Working(fs) && Advances(fs) == 1 && Runs(w, fs)
    ensures var w' := After(w, fs);
            && Inv(w') && Quiet(w'.k) && Roomy(w'.k) && StepsLeft(w'.k) == StepsLeft(w.k) - 1
            && w' == w.(k := w'.k, cut := w'.cut) && w'.k.geo == w.k.geo && (w'.k.pc.Idle? <==> w.k.pc.Finish?)
            && (w.k.pc.Finish? ==> w'.k.disk == w.k.disk && w'.k.lh == w.k.lh && w'.cut == w.cut)
  {
    hide Inv, Needs, HasBuffers, Runs, After, Quiet, Roomy, Pins, StepsLeft, Advance, CouldAdvance;
    var es := MakeRoom(w);
    var w1 := After(w, es);
    StepFacts(w1);
    AdvanceKeeps(w1);
    StepGeo(w1, EvAdvance);
    AdvanceQuiet(w1.k);
    AdvanceRoomy(w1.k);
    AdvanceCounts(w1.k);
    if w.k.pc.Finish? { FinishDisk(w1.k); }
    fs := es + [EvAdvance];
    RunThen(w, es, EvAdvance);
    NoAdvances(es);
  }

  /** Commit and recovery run to their end, in as many steps as are left. */
  lemma {:induction false} RunsOut(w: World) returns (fs: seq<Event>)
    requires Inv(w) && !w.k.pc.Idle? && Quiet(w.k) && Roomy(w.k)
    ensures Working(fs) && Advances(fs) == StepsLeft(w.k) && Runs(w, fs)
    ensures Finished(w, After(w, fs))
    decreases StepsLeft(w.k) + 1
  {
    hide Inv, Runs, After, Quiet, Roomy, StepsLeft, Apply, Enabled;
    fs := NextStep(w);
    var w1 := After(w, fs);
    StepsRemain(w);
    if w.k.pc.Finish? {
      LastStep(w, w1);
    } else {
      StepsRemain(w1);
      var gs := RunsOut(w1);
      RunsConcat(w, fs, gs);
      AdvancesAdd(fs, gs);
      fs := fs + gs;
    }
  }

  lemma StepsRemain(w: World)
    requires Inv(w)
    ensures StepsLeft(w.k) >= 0 && (w.k.pc.Idle? <==> StepsLeft(w.k) == 0) && (w.k.pc.Finish? <==> StepsLeft(w.k) == 1)
  {
    hide LogGood, CacheInv, OpsInv, Absent, RestClean;
  }

  lemma {:induction false} AdvancesAdd(es: seq<Event>, fs: seq<Event>)
    ensures Advances(es + fs) == Advances(es) + Advances(fs)
  {
    if es == [] {
      assert es + fs == fs;
    } else {
      assert (es + fs)[1..] == es[1..] + fs;
      AdvancesAdd(es[1..], fs);
    }
  }

  /** The kernel is up, the log empty and nobody in an operation; the logged writes are those of w, and
      all of them are durable, home, and what readers see. */
  ghost predicate Finished(w: World, w': World) {
    && w'.k.booted && w'.k.pc.Idle? && !w'.k.committing && w'.k.lh == [] && w'.active == map[]
    && w'.k.geo == w.k.geo && w'.writes == w.writes && w'.cut == |w.writes|
    && |w'.k.disk| == |w.origin| == w.k.geo.nblocks
    && forall b: nat {:trigger Home(w.k.geo, b)} :: Home(w.k.geo, b) ==>
         w'.k.disk[b] == Content(w'.k, b) == Replay(w.origin, w.writes)[b]
  }

  lemma LastStep(w: World, w': World)
    requires Inv(w) && Inv(w') && w.k.pc.Finish? && w'.k.pc.Idle? && w' == w.(k := w'.k)
    requires w'.k.disk == w.k.disk && w'.k.lh == w.k.lh && w'.k.geo == w.k.geo
    ensures Finished(w, w')
  {
  }

  // ----- Recovery -----

  lemma Reached(w: World, es: seq<Event>)
    requires Initial(w) && Runs(w, es) && (w.k.geo.size >= NBUF || Fitting(w, es))
    ensures (Inv(After(w, es)) || Brimming(After(w, es))) && SpaceInv(After(w, es))
  {
    InitialSpace(w);
    InitialInv(w);
    hide Inv, Brimming, SpaceInv, Fitting, Runs, After;
    if Fitting(w, es) { RunKeeps(w, es); } else { RunBrims(w, es); }
    RunSpace(w, es);
  }

  lemma FreshRoomy(k: Kernel)
    requires k.cache == map[]
    ensures Quiet(k) && Roomy(k)
  {
    assert Pins(k.cache) == {};
  }

  lemma CrashedInv(w: World)
    requires Inv(w) || (Brimming(w) && SpaceInv(w))
    ensures Enabled(w, EvCrash) && Inv(Apply(w, EvCrash))
  {
    hide KInv, OpsInv, LogGood, SpaceInv;
    if Inv(w) { CrashKeeps(w); } else { BrimmingCrash(w); }
  }

  /** After a crash at any point of any run, recovery comes to its end without help, and then disk and
      readers have the file system of exactly the writes that were durable. */
  lemma RecoveryCompletes(w: World, es: seq<Event>) returns (fs: seq<Event>)
    requires Initial(w) && Runs(w, es) && (w.k.geo.size >= NBUF || Fitting(w, es))
    ensures var w' := After(w, es);
            && w'.cut <= |w'.writes| && w.k.geo.start < |w'.k.disk|
            && Enabled(w', EvCrash) && Working(fs) && Runs(Apply(w', EvCrash), fs)
            && Advances(fs) == 3 + |HeadOf(w'.k.disk[w.k.geo.start])|
            && var w2 := After(Apply(w', EvCrash), fs);
               && w2.k.booted && w2.k.pc.Idle? && w2.k.lh == [] && w2.active == map[]
               && w2.writes == w'.writes[..w'.cut] && w2.cut == w'.cut
               && |w2.k.disk| == w.k.geo.nblocks == |w.k.disk|
               && forall b: nat {:trigger Home(w.k.geo, b)} :: Home(w.k.geo, b) ==>
                    w2.k.disk[b] == Content(w2.k, b) == Replay(w.k.disk, w'.writes[..w'.cut])[b]
  {
    hide Inv, Brimming, SpaceInv, Fitting, Roomy, Quiet, SameHome, Runs, After, Finished, HeadOf;
    Reached(w, es);
    RunConstants(w, es);
    var w' := After(w, es);
    CrashedInv(w');
    var w1 := Apply(w', EvCrash);
    FreshRoomy(w1.k);
    DiskThere(w1);
    fs := RunsOut(w1);
    Restored(w1, After(w1, fs));
  }

  lemma DiskThere(w: World)
    requires Inv(w)
    ensures w.k.geo.start < |w.k.disk| == w.k.geo.nblocks && w.cut <= |w.writes|
  {
    hide LogGood, CacheInv, OpsInv, Absent, RestClean, PcInv;
  }

  lemma Restored(w: World, w': World)
    requires Finished(w, w')
    ensures w'.k.booted && w'.k.pc.Idle? && w'.k.lh == [] && w'.active == map[]
    ensures w'.writes == w.writes && w'.cut == |w.writes| && |w'.k.disk| == |w.origin| == w.k.geo.nblocks
    ensures forall b: nat {:trigger Home(w.k.geo, b)} :: Home(w.k.geo, b) ==>
              w'.k.disk[b] == Content(w'.k, b) == Replay(w.origin, w.writes)[b]
  {
  }

  // ----- Commit -----

  /** The committing process, left alone, can bring the commit to its end. */
  ghost predicate CanFinish(w: World) {
    exists fs :: Working(fs) && Runs(w, fs) && Finished(w, After(w, fs))
  }

  lemma RoomAfter(w: World, e: Event)
    requires e.EvEvict? && Enabled(w, e) && CanMakeRoom(Apply(w, e))
    ensures CanMakeRoom(w)
  {
    hide CanAdvance, Apply;
    var gs :| Evictions(gs) && Runs(Apply(w, e), gs) && Enabled(After(Apply(w, e), gs), EvAdvance);
    var es := [e] + gs;
    assert es[1..] == gs;
    assert Evictions(es) && Runs(w, es) && After(w, es) == After(Apply(w, e), gs);
  }

  lemma {:induction false} FirstAdvance(w: World, fs: seq<Event>)
    requires Working(fs) && Runs(w, fs) && !w.k.pc.Idle? && After(w, fs).k.pc.Idle?
    ensures CanMakeRoom(w)
    decreases |fs|
  {
    hide CanAdvance, Advance;
    if fs[0].EvAdvance? {
      assert Evictions([]) && Runs(w, []) && Enabled(After(w, []), EvAdvance);
    } else {
      hide CanMakeRoom;
      FirstAdvance(Apply(w, fs[0]), fs[1..]);
      RoomAfter(w, fs[0]);
    }
  }

  lemma AvailableRoomy(k: Kernel)
    requires k.pc.WriteLog? && k.pc.i < |k.lh| && |Pins(k.cache) + Needs(k)| <= NBUF
    requires k.geo.start + 1 + k.pc.i !in Pins(k.cache)
    ensures Roomy(k)
  {
    var slot := k.geo.start + 1 + k.pc.i;
    Fewer(Pins(k.cache) + {slot}, Pins(k.cache) + Needs(k));
  }

  lemma AvailableFinishes(w: World)
    requires (Inv(w) || Brimming(w)) && |w.k.cache| <= NBUF && w.k.pc.WriteLog? && Quiet(w.k)
    requires Available(w.k.cache)
    ensures CanFinish(w)
  {
    hide Inv, Brimming, Runs, After, Available, Quiet, Finished, Pins, Needs, Pinned, Roomy;
    if Inv(w) {
      InvCould(w);
      SlotNeedsOne(w.k);
      AvailableRoomy(w.k);
      var fs := RunsOut(w);
    } else {
      BrimmingFull(w);
    }
  }

  lemma FinishesFirst(w: World)
    requires CanFinish(w) && !w.k.pc.Idle?
    ensures CanMakeRoom(w)
  {
    hide Runs, After, Finished;
    var fs :| Working(fs) && Runs(w, fs) && Finished(w, After(w, fs));
    Restored(w, After(w, fs));
    FirstAdvance(w, fs);
  }

  /** A commit that is writing the log, while no process holds a logged block, can come to its end if and
      only if bget has a buffer for the next log block: an unused one, or a clean one nobody holds. */
  lemma CommitCompletesExactly(w: World, es: seq<Event>)
    requires Initial(w) && Runs(w, es) && (w.k.geo.size >= NBUF || Fitting(w, es))
    requires After(w, es).k.pc.WriteLog? && Quiet(After(w, es).k)
    ensures CanFinish(After(w, es)) <==> Available(After(w, es).k.cache)
  {
    hide Inv, Brimming, SpaceInv, Fitting, Runs, After, CanMakeRoom, Available, Quiet, CanFinish, Pins, Needs, Initial;
    var w' := After(w, es);
    Reached(w, es);
    CacheBound(w');
    CommitCanProceed(w, es);
    if Available(w'.k.cache) { AvailableFinishes(w'); }
    if CanFinish(w') { FinishesFirst(w'); }
  }

  // ----- What a step changes -----

  lemma SettledContent(w: World, b: nat)
    requires Inv(w) && w.k.booted && Home(w.k.geo, b) && w.active == map[]
    ensures b < |w.k.disk| && b < |w.origin| && Content(w.k, b) == Current(w)[b]
  {
    hide LogGood, OpsInv, RestClean, PcInv;
  }

  lemma AdvanceAlone(w: World)
    requires Inv(w) && w.k.booted && CanAdvance(w.k)
    ensures w.active == map[] && Advance(w.k).booted && |Advance(w.k).disk| == |w.k.disk|
  {
    hide LogGood, OpsInv, RestClean, CacheInv, Absent, HasBuffers, Needs, Unheld, Pinned, Installed, Copied;
  }

  lemma AdvanceContent(w: World, b: nat)
    requires Inv(w) && w.k.booted && CanAdvance(w.k) && Home(w.k.geo, b)
    ensures b < |w.k.disk| == |Advance(w.k).disk| && Content(Advance(w.k), b) == Content(w.k, b)
  {
    hide Inv, CanAdvance, Advance, Content;
    var w' := Apply(w, EvAdvance);
    AdvanceAlone(w);
    AdvanceKeeps(w);
    StepGeo(w, EvAdvance);
    SettledContent(w, b);
    SettledContent(w', b);
  }

  lemma EvictContent(w: World, b: nat, c: nat)
    requires Inv(w) && Enabled(w, EvEvict(c)) && Home(w.k.geo, b)
    ensures b < |w.k.disk| && Content(Apply(w, EvEvict(c)).k, b) == Content(w.k, b)
  {
    hide LogGood, OpsInv, RestClean, PcInv;
  }

  /** What readers see of a block is changed by its holder alone; a crash keeps the disk and nothing
      else; the history grows by what log_write records, the data that the block has then, and a write
      becomes durable only when commit writes the header. */
  lemma StepChanges(w: World, e: Event)
    requires Inv(w) && Enabled(w, e) && w.k.booted
    ensures var w' := Apply(w, e);
            && |w.k.disk| == |w'.k.disk| == w.k.geo.nblocks && w.cut <= |w.writes|
            && (e.EvCrash? ==>
                  && w'.k.disk == w.k.disk && w'.k.cache == map[] && w'.active == map[] && !w'.k.booted
                  && w'.writes == w.writes[..w.cut] && w'.cut == w.cut)
            && (!e.EvCrash? ==>
                  forall b: nat {:trigger Home(w.k.geo, b)} :: Home(w.k.geo, b) ==>
                    Content(w'.k, b) == if e.EvModify? && e.b == b then e.data else Content(w.k, b))
            && (e.EvLogAppend? ==>
                  w'.writes == w.writes + [Write(w.active[e.p].id, e.b, w.k.cache[e.b].data)])
            && (!e.EvCrash? && !e.EvLogAppend? ==> w'.writes == w.writes)
            && (w'.cut != w.cut ==> e.EvAdvance? && w.k.pc.WriteHead? && w'.cut == |w.writes|)
  {
    hide CanAdvance, Advance, KInv, OpsInv;
    DiskThere(w);
    if e.EvAdvance? {
      AdvanceAlone(w);
      forall b: nat | Home(w.k.geo, b) ensures Content(Apply(w, e).k, b) == Content(w.k, b) { AdvanceContent(w, b); }
    } else if e.EvEvict? {
      forall b: nat | Home(w.k.geo, b) ensures Content(Apply(w, e).k, b) == Content(w.k, b) {
        EvictContent(w, b, e.b);
      }
    }
  }
}
