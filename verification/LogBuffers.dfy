/**
 Buffers for commit and recovery.  bget may take a buffer for another block only if it is clean and
 nobody holds it, and a commit needs one besides those of the logged blocks; this module says exactly
 when there is one, and gives a run after which there is none.
 */
module LogBuffers {
  import opened Common
  import opened Journal
  import opened LogSpace
  import opened LogRace

  predicate Evictions(fs: seq<Event>) {
    forall i :: 0 <= i < |fs| ==> fs[i].EvEvict?
  }

  /** After taking some buffers away from clean free blocks the step can be made. */
  ghost predicate CanMakeRoom(w: World) {
    exists fs :: Evictions(fs) && Runs(w, fs) && Enabled(After(w, fs), EvAdvance)
  }

  /** bget finds a buffer for a block that is not cached. */
  predicate Available(cache: map<nat, Buf>) {
    |cache| < NBUF || exists b :: b in cache && !cache[b].dirty && cache[b].holder.Free?
  }

  // ----- Taking buffers away -----

  lemma {:induction false} EvictionsKeep(w: World, fs: seq<Event>)
    requires Evictions(fs) && Runs(w, fs)
    ensures var k := After(w, fs).k;
            k == w.k.(cache := k.cache) && Pins(w.k.cache) <= k.cache.Keys && Needs(k) == Needs(w.k)
    decreases |fs|
  {
    if fs != [] {
      var w1 := Apply(w, fs[0]);
      assert Pins(w1.k.cache) == Pins(w.k.cache);
      EvictionsKeep(w1, fs[1..]);
    }
  }

  /** All clean free buffers but those of `keep` are taken away. */
  lemma {:induction false} EvictAll(w: World, keep: set<nat>) returns (fs: seq<Event>)
    requires Pins(w.k.cache) <= keep
    ensures Evictions(fs) && Runs(w, fs)
    ensures var k := After(w, fs).k;
            After(w, fs) == w.(k := k) && k == w.k.(cache := k.cache) && k.cache.Keys <= keep
            && forall b :: b in k.cache ==> b in w.k.cache && k.cache[b] == w.k.cache[b]
    decreases |w.k.cache|
  {
    if b :| b in w.k.cache && b !in keep {
      var e := EvEvict(b);
      assert b !in Pins(w.k.cache);
      var w1 := Apply(w, e);
      MapSizes(w.k.cache, b, w.k.cache[b]);
      assert Pins(w1.k.cache) <= keep;
      var gs := EvictAll(w1, keep);
      fs := [e] + gs;
      assert fs[1..] == gs;
    } else {
      fs := [];
    }
  }

  // ----- When commit and recovery can go on -----

  /** What the next step demands besides buffers. */
  predicate CouldAdvance(k: Kernel) {
    && !k.pc.Idle? && GeoOk(k.geo) && |k.disk| == k.geo.nblocks && |k.lh| <= LOGSIZE && Unheld(k, k.geo.start)
    && (k.pc.WriteLog? ==> CanCopy(k, k.pc.i)) && (k.pc.Install? ==> CanCopy(k, k.pc.i))
  }

  lemma FewerBuffers(k: Kernel, k': Kernel)
    requires CouldAdvance(k) && k' == k.(cache := k'.cache)
    requires forall b :: b in k'.cache ==> b in k.cache && k'.cache[b] == k.cache[b]
    ensures CouldAdvance(k') && Needs(k') == Needs(k) && (HasBuffers(k') <==> CanAdvance(k'))
  {
    hide HasBuffers;
  }

  /** The step can be made, after taking buffers away, exactly when the buffers in use and those it
      needs are not more than there are. */
  lemma RoomExactly(w: World)
    requires CouldAdvance(w.k)
    ensures CanMakeRoom(w) <==> |Pins(w.k.cache) + Needs(w.k)| <= NBUF
  {
    hide Runs, After;
    if |Pins(w.k.cache) + Needs(w.k)| <= NBUF {
      var keep := Pins(w.k.cache) + Needs(w.k);
      var fs := EvictAll(w, keep);
      var k := After(w, fs).k;
      FewerBuffers(w.k, k);
      Fewer(k.cache.Keys + Needs(k), keep);
      assert Enabled(After(w, fs), EvAdvance);
    }
    if CanMakeRoom(w) {
      var fs :| Evictions(fs) && Runs(w, fs) && Enabled(After(w, fs), EvAdvance);
      EvictionsKeep(w, fs);
      var k := After(w, fs).k;
      Fewer(Pins(w.k.cache) + Needs(w.k), k.cache.Keys + Needs(k));
    }
  }

  /** While the log is written, every logged block is pinned and the slot is not. */
  lemma SlotNeedsOne(k: Kernel)
    requires k.pc.WriteLog? && k.pc.i < |k.lh| && Pinned(k.cache, k.lh) && |k.cache| <= NBUF
    requires k.geo.start + 1 + k.pc.i !in Pins(k.cache)
    ensures |Pins(k.cache) + Needs(k)| <= NBUF <==> Available(k.cache)
  {
    var pins, slot := Pins(k.cache), k.geo.start + 1 + k.pc.i;
    assert pins + Needs(k) == pins + {slot};
    assert pins <= k.cache.Keys;
    Fewer(pins, k.cache.Keys);
    assert |k.cache.Keys| == |k.cache|;
    if b :| b in k.cache && !k.cache[b].dirty && k.cache[b].holder.Free? {
      Fewer(pins + {b}, k.cache.Keys);
    } else {
      assert pins == k.cache.Keys;
    }
  }

  /** No process holds a block of the in-memory log. */
  ghost predicate Quiet(k: Kernel) {
    forall b :: b in k.cache && b in k.lh ==> k.cache[b].holder.Free?
  }

  lemma InvCould(w: World)
    requires Inv(w) && !w.k.pc.Idle? && Quiet(w.k)
    ensures CouldAdvance(w.k)
    ensures w.k.pc.WriteLog? ==> w.k.pc.i < |w.k.lh| && Pinned(w.k.cache, w.k.lh)
                                 && w.k.geo.start + 1 + w.k.pc.i !in Pins(w.k.cache)
  {
    hide LogGood, Absent, RestClean, OpsInv;
  }

  lemma ManyPins(k: Kernel)
    requires Listed(k.geo, k.lh) && |k.lh| == NBUF && Pinned(k.cache, k.lh) && k.pc == WriteLog(0) && GeoOk(k.geo)
    ensures |Pins(k.cache) + Needs(k)| > NBUF
  {
    var slot := k.geo.start + 1;
    DistinctCount(k.lh);
    assert slot !in Elements(k.lh);
    Fewer(Elements(k.lh) + {slot}, Pins(k.cache) + Needs(k));
  }

  /** As many pinned blocks as buffers leave none for the first slot. */
  lemma Stuck(w: World)
    requires Listed(w.k.geo, w.k.lh) && |w.k.lh| == NBUF && Pinned(w.k.cache, w.k.lh)
    requires w.k.pc == WriteLog(0) && GeoOk(w.k.geo)
    ensures !CanMakeRoom(w)
  {
    ManyPins(w.k);
    hide Runs, After, Listed, Pinned, Pins, Needs, CanCopy;
    if CanMakeRoom(w) {
      var fs :| Evictions(fs) && Runs(w, fs) && Enabled(After(w, fs), EvAdvance);
      EvictionsKeep(w, fs);
      Fewer(Pins(w.k.cache) + Needs(w.k), After(w, fs).k.cache.Keys + Needs(After(w, fs).k));
    }
  }

  lemma BrimmingFull(w: World)
    requires Brimming(w) && w.k.pc.WriteLog? && |w.k.cache| <= NBUF
    ensures |Pins(w.k.cache) + Needs(w.k)| > NBUF && !Available(w.k.cache)
  {
    hide LogGood, OpsInv;
    var lh := w.k.lh;
    ManyPins(w.k);
    DistinctCount(lh);
    forall b | b in w.k.cache ensures b in Pins(w.k.cache) {
      if b !in Pins(w.k.cache) { Fewer(Elements(lh) + {b}, w.k.cache.Keys); }
    }
    Fewer(Elements(lh), w.k.cache.Keys);
  }

  /** When no process holds a logged block, commit and recovery can go on exactly when the buffers in
      use and those of the next step are not more than NBUF; for a block of the log to be written that
      is when bget has a free buffer or a clean one that nobody holds. */
  lemma CommitCanProceed(w: World, es: seq<Event>)
    requires Initial(w) && Runs(w, es) && (w.k.geo.size >= NBUF || Fitting(w, es))
    requires !After(w, es).k.pc.Idle? && Quiet(After(w, es).k)
    ensures var w' := After(w, es);
            && (CanMakeRoom(w') <==> |Pins(w'.k.cache) + Needs(w'.k)| <= NBUF)
            && (w'.k.pc.WriteLog? ==> (CanMakeRoom(w') <==> Available(w'.k.cache)))
  {
    InitialSpace(w);
    InitialInv(w);
    hide Runs, After, Inv, Brimming, SpaceInv, Fitting, CanMakeRoom, Available, Quiet, Pinned, Needs, Pins;
    if Fitting(w, es) { RunKeeps(w, es); } else { RunBrims(w, es); }
    RunSpace(w, es);
    var w' := After(w, es);
    CacheBound(w');
    if Inv(w') {
      InvCould(w');
      RoomExactly(w');
      if w'.k.pc.WriteLog? { SlotNeedsOne(w'.k); }
    } else {
      BrimmingPc(w');
      Stuck(w');
      BrimmingFull(w');
    }
  }

  lemma CacheBound(w: World)
    requires SpaceInv(w)
    ensures |w.k.cache| <= NBUF
  {
  }

  lemma BrimmingPc(w: World)
    requires Brimming(w)
    ensures GeoOk(w.k.geo) && Listed(w.k.geo, w.k.lh) && |w.k.lh| == NBUF && Pinned(w.k.cache, w.k.lh)
    ensures w.k.pc == Idle || w.k.pc == WriteLog(0)
  {
  }

  // ----- A commit without a buffer -----

  lemma HomesListed(geo: Geometry, lh: seq<nat>, j: nat)
    requires GeoOk(geo) && geo.size + LOGSIZE <= geo.nblocks && FirstHomes(geo, lh, j) && j <= LOGSIZE
    ensures Listed(geo, lh)
  {
  }

  /** Three operations have logged as many blocks as there are buffers: within their budget, or in a log
      of NBUF blocks because two of them shared its last slot. */
  lemma AllLogged(w: World) returns (es: seq<Event>)
    requires Initial(w) && w.k.geo.size >= NBUF && w.k.geo.size + LOGSIZE <= w.k.geo.nblocks
    ensures Runs(w, es) && After(w, es).k.geo == w.k.geo
    ensures var w' := After(w, es);
            Calm(w', w.k.disk) && Ending(w') && FirstHomes(w.k.geo, w'.k.lh, NBUF) && Pinned(w'.k.cache, w'.k.lh)
  {
    hide Runs, After, FirstHomes, Pinned;
    if w.k.geo.size > NBUF {
      es := LoggedRun(w, NBUF);
    } else {
      es := FillRun(w, w.k.disk[0]);
    }
    FullLog(After(w, es), NBUF);
  }

  /** Operations within their budget can leave commit without a buffer although nobody holds one: bget
      panics before anything has reached the disk. */
  lemma CommitPanics(w: World) returns (es: seq<Event>)
    requires Initial(w) && w.k.geo.size >= NBUF && w.k.geo.size + LOGSIZE <= w.k.geo.nblocks
    ensures Runs(w, es)
    ensures var w' := After(w, es);
            && w'.k.pc == WriteLog(0) && !CanMakeRoom(w') && w'.k.disk == w.k.disk
            && (forall b :: b in w'.k.cache ==> w'.k.cache[b].holder.Free?)
  {
    hide Runs, After, FirstHomes, Pinned, CanMakeRoom, Listed;
    var es0 := AllLogged(w);
    var w0 := After(w, es0);
    EndThree(w0);
    RunsConcat(w, es0, [EvEndOp(0), EvEndOp(1), EvEndOp(2)]);
    es := es0 + [EvEndOp(0), EvEndOp(1), EvEndOp(2)];
    HomesListed(w.k.geo, w0.k.lh, NBUF);
    FullLog(w0, NBUF);
    Stuck(After(w, es));
  }
}
