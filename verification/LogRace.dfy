/**
 Two calls of log_write at once.  The panic tests of log_write read log.lh.n before it takes the
 lock, so two processes may pass them when only one slot is left.  In a log of fewer than NBUF
 blocks commit then overruns the log area; in a log of NBUF blocks it finds no buffer and panics
 first.  This module gives the run, and shows for which logs every run is crash safe.
 */
module LogRace {
  import opened Common
  import opened Journal
  import opened LogSpace

  /** The block right behind the log area. */
  function Behind(geo: Geometry): nat {
    geo.start + geo.size
  }

  /** What commit() is about to write as a log block lies in the log area. */
  predicate StaysInside(w: World) {
    w.k.pc.WriteLog? ==> InLog(w.k.geo, w.k.geo.start + 1 + w.k.pc.i)
  }

  // ----- The run -----

  lemma BreadModify(w: World, p: nat, b: nat, data: Block)
    requires w.k.booted && |w.k.disk| == w.k.geo.nblocks && Home(w.k.geo, b) && Unheld(w.k, b) && InOp(w, p)
    requires b in w.k.cache || |w.k.cache| < NBUF
    ensures Enabled(w, EvBread(p, b)) && Enabled(Apply(w, EvBread(p, b)), EvModify(p, b, data))
    ensures var dirty := b in w.k.cache && w.k.cache[b].dirty;
            Apply(Apply(w, EvBread(p, b)), EvModify(p, b, data))
              == w.(k := w.k.(cache := w.k.cache[b := Buf(data, dirty, Held(p), true)]))
  {
    hide CanAdvance, Advance;
    var w1 := Apply(w, EvBread(p, b));
    assert w1.k.cache == w.k.cache[b := w1.k.cache[b]];
    var w2 := Apply(w1, EvModify(p, b, data));
    assert w2.k.cache == w.k.cache[b := w2.k.cache[b]];
  }

  /** bread, a change and the panic tests of log_write. */
  lemma PassGuard(w: World, p: nat, b: nat, data: Block)
    requires w.k.booted && |w.k.disk| == w.k.geo.nblocks && Home(w.k.geo, b) && Unheld(w.k, b)
    requires InOp(w, p) && w.active[p].used < MAXOPBLOCKS && LogHasRoom(w.k) && w.k.outstanding >= 1
    requires b in w.k.cache || |w.k.cache| < NBUF
    ensures var es := [EvBread(p, b), EvModify(p, b, data), EvLogGuard(p, b)];
            && Runs(w, es)
            && var dirty := b in w.k.cache && w.k.cache[b].dirty;
            After(w, es) == w.(k := w.k.(cache := w.k.cache[b := Buf(data, dirty, Held(p), true)]),
                               active := w.active[p := w.active[p].(call := Passed(b))])
  {
    hide Runs, After;
    var dirty := b in w.k.cache && w.k.cache[b].dirty;
    BreadModify(w, p, b, data);
    var w2 := Apply(Apply(w, EvBread(p, b)), EvModify(p, b, data));
    assert Enabled(w2, EvLogGuard(p, b));
    ThreeSteps(w, EvBread(p, b), EvModify(p, b, data), EvLogGuard(p, b));
  }

  /** The rest of log_write, and brelse. */
  lemma AppendRelease(w: World, p: nat, b: nat)
    requires w.k.booted && p in w.active && w.active[p].call == Passed(b) && Holds(w.k, p, b) && b !in w.k.lh
    ensures var es := [EvLogAppend(p, b)] + [EvBrelse(p, b)];
            && Runs(w, es)
            && var w' := After(w, es);
            && w'.k == w.k.(lh := w.k.lh + [b],
                            cache := w.k.cache[b := Buf(w.k.cache[b].data, true, Free, false)])
            && w'.active == w.active[p := w.active[p].(used := w.active[p].used + 1, call := Outside)]
            && w'.cut == w.cut
  {
    hide CanAdvance, Advance;
    assert Runs(w, []) && [] + [EvLogAppend(p, b)] == [EvLogAppend(p, b)];
    RunThen(w, [], EvLogAppend(p, b));
    RunThen(w, [EvLogAppend(p, b)], EvBrelse(p, b));
  }

  /** Both processes found one free slot; the last one changed its block to `data`. */
  ghost predicate Full(w: World, d: seq<Block>, data: Block) {
    && Calm(w, d) && w.k.pc.Idle? && !w.k.committing && w.k.outstanding == 3
    && FirstHomes(w.k.geo, w.k.lh, w.k.geo.size) && OnlyLogged(w.k) && |w.k.cache| == w.k.geo.size
    && HomeNo(w.k.geo, w.k.geo.size - 1) in w.k.cache
    && w.k.cache[HomeNo(w.k.geo, w.k.geo.size - 1)].data == data && Pinned(w.k.cache, w.k.lh)
    && (forall p :: 0 <= p < 3 ==> InOp(w, p))
  }

  /** Both are past the tests; each will append. */
  ghost predicate BothPassed(w: World, d: seq<Block>, b1: nat, b2: nat, data: Block) {
    && GeoOk(w.k.geo) && w.k.disk == d && |d| == w.k.geo.nblocks && d[w.k.geo.start][0] == 0
    && w.k.booted && w.cut == 0 && w.k.pc.Idle? && !w.k.committing && w.k.outstanding == 3
    && b1 != b2 && Holds(w.k, 1, b1) && Holds(w.k, 2, b2) && w.k.cache[b2].data == data
    && (forall b :: b in w.k.cache && b != b1 && b != b2 ==> w.k.cache[b].holder.Free? && !w.k.cache[b].raw)
    && (forall b :: b in w.k.cache <==> b in w.k.lh || b == b1 || b == b2) && |w.k.cache| == |w.k.lh| + 2
    && Pinned(w.k.cache, w.k.lh)
    && InOp(w, 0) && 1 in w.active && w.active[1].call == Passed(b1) && 2 in w.active && w.active[2].call == Passed(b2)
  }

  lemma PassBoth(w: World, d: seq<Block>, b1: nat, b2: nat, data: Block) returns (es: seq<Event>)
    requires Calm(w, d) && w.k.pc.Idle? && !w.k.committing && w.k.outstanding == 3 && LogHasRoom(w.k)
    requires forall p :: 0 <= p < 3 ==> InOp(w, p) && (p > 0 ==> w.active[p].used < MAXOPBLOCKS)
    requires b1 != b2 && Home(w.k.geo, b1) && Home(w.k.geo, b2) && b1 !in w.k.lh && b2 !in w.k.lh
    requires OnlyLogged(w.k) && |w.k.cache| == |w.k.lh| <= NBUF - 2 && Pinned(w.k.cache, w.k.lh)
    ensures Runs(w, es) && BothPassed(After(w, es), d, b1, b2, data)
    ensures After(w, es).k.geo == w.k.geo && After(w, es).k.lh == w.k.lh
  {
    hide Runs, After, Enabled, Apply;
    var es1 := [EvBread(1, b1), EvModify(1, b1, data), EvLogGuard(1, b1)];
    var es2 := [EvBread(2, b2), EvModify(2, b2, data), EvLogGuard(2, b2)];
    PassGuard(w, 1, b1, data);
    MapSizes(w.k.cache, b1, Buf(data, false, Held(1), true));
    PassGuard(After(w, es1), 2, b2, data);
    MapSizes(After(w, es1).k.cache, b2, Buf(data, false, Held(2), true));
    RunsConcat(w, es1, es2);
    es := es1 + es2;
  }

  /** One of the two appends its block and lets it go. */
  lemma AppendFirst(w: World, d: seq<Block>, b1: nat, b2: nat, data: Block) returns (es: seq<Event>)
    requires BothPassed(w, d, b1, b2, data) && b1 !in w.k.lh
    ensures Runs(w, es)
    ensures var w' := After(w, es);
            && w'.k == w.k.(lh := w.k.lh + [b1], cache := w'.k.cache) && w'.cut == 0 && Settling(w', b2, data)
  {
    hide Runs, After, Enabled, Apply;
    es := [EvLogAppend(1, b1)] + [EvBrelse(1, b1)];
    AppendRelease(w, 1, b1);
    MapSizes(w.k.cache, b1, After(w, es).k.cache[b1]);
  }

  /** One process is still to append its block b; all other buffers are logged and free. */
  ghost predicate Settling(w: World, b: nat, data: Block) {
    && Holds(w.k, 2, b) && w.k.cache[b].data == data && |w.k.cache| == |w.k.lh| + 1
    && (forall c :: c in w.k.cache && c != b ==> w.k.cache[c].holder.Free? && !w.k.cache[c].raw)
    && (forall c :: c in w.k.cache <==> c in w.k.lh || c == b) && Pinned(w.k.cache, w.k.lh)
    && InOp(w, 0) && InOp(w, 1) && 2 in w.active && w.active[2].call == Passed(b)
  }

  lemma AppendSecond(w: World, b: nat, data: Block) returns (es: seq<Event>)
    requires w.k.booted && Settling(w, b, data) && b !in w.k.lh
    ensures Runs(w, es)
    ensures var w' := After(w, es);
            && w'.k == w.k.(lh := w.k.lh + [b], cache := w'.k.cache) && w'.cut == w.cut
            && (forall c :: c in w'.k.cache ==> w'.k.cache[c].holder.Free? && !w'.k.cache[c].raw)
            && OnlyLogged(w'.k) && |w'.k.cache| == |w'.k.lh| && Pinned(w'.k.cache, w'.k.lh)
            && b in w'.k.cache && w'.k.cache[b].data == data && (forall p :: 0 <= p < 3 ==> InOp(w', p))
  {
    hide Runs, After, Enabled, Apply;
    es := [EvLogAppend(2, b)] + [EvBrelse(2, b)];
    AppendRelease(w, 2, b);
    MapSizes(w.k.cache, b, After(w, es).k.cache[b]);
  }

  lemma AppendBoth(w: World, d: seq<Block>, b1: nat, b2: nat, data: Block) returns (es: seq<Event>)
    requires BothPassed(w, d, b1, b2, data) && w.k.geo.size >= 2
    requires FirstHomes(w.k.geo, w.k.lh, w.k.geo.size - 2) && w.k.geo.size + LOGSIZE <= w.k.geo.nblocks
    requires w.k.geo.size <= LOGSIZE
    requires b1 == HomeNo(w.k.geo, w.k.geo.size - 2) && b2 == HomeNo(w.k.geo, w.k.geo.size - 1)
    ensures Runs(w, es) && After(w, es).k.geo == w.k.geo && Full(After(w, es), d, data)
  {
    hide Runs, After, FirstHomes, HomeNo, Enabled, Apply, Settling, Holds, Pinned, OnlyLogged, InOp;
    FreshHome(w.k.geo, w.k.lh, w.k.geo.size - 2, w.k.geo.size - 2);
    var es1 := AppendFirst(w, d, b1, b2, data);
    var w1 := After(w, es1);
    FreshHome(w.k.geo, w1.k.lh, w.k.geo.size - 1, w.k.geo.size - 1);
    var es2 := AppendSecond(w1, b2, data);
    FullLog(After(w1, es2), w.k.geo.size);
    RunsConcat(w, es1, es2);
    es := es1 + es2;
  }

  lemma FillRun(w: World, data: Block) returns (es: seq<Event>)
    requires Initial(w) && w.k.geo.size <= LOGSIZE && w.k.geo.size + LOGSIZE <= w.k.geo.nblocks
    ensures Runs(w, es) && After(w, es).k.geo == w.k.geo && Full(After(w, es), w.k.disk, data)
  {
    hide Runs, After, Calm, FirstHomes, Spent;
    var geo, j := w.k.geo, w.k.geo.size - 2;
    var es0 := LoggedRun(w, j);
    var w0 := After(w, es0);
    FullLog(w0, j);
    SpentNext(j, 1);
    SpentNext(j, 2);
    FreshHome(geo, w0.k.lh, j, j);
    FreshHome(geo, w0.k.lh, j, j + 1);
    DistinctHomes(geo, j);
    var es1 := PassBoth(w0, w.k.disk, HomeNo(geo, j), HomeNo(geo, j + 1), data);
    RunsConcat(w, es0, es1);
    var es2 := AppendBoth(After(w0, es1), w.k.disk, HomeNo(geo, j), HomeNo(geo, j + 1), data);
    RunsConcat(w, es0 + es1, es2);
    es := es0 + es1 + es2;
  }

  lemma DistinctHomes(geo: Geometry, j: nat)
    ensures HomeNo(geo, j) != HomeNo(geo, j + 1)
  {
  }

  // ----- commit() of the overfull log -----

  /** commit() has copied i blocks; nothing but log slots changed since the disk was d. */
  ghost predicate Copying(w: World, d: seq<Block>, data: Block, i: nat) {
    && GeoOk(w.k.geo) && |w.k.disk| == |d| == w.k.geo.nblocks && w.cut == 0
    && (forall x :: 0 <= x < |d| && !(w.k.geo.start < x <= w.k.geo.start + i) ==> w.k.disk[x] == d[x])
    && d[w.k.geo.start][0] == 0
    && (forall b :: b in w.k.cache ==> w.k.cache[b].holder.Free?)
    && FirstHomes(w.k.geo, w.k.lh, w.k.geo.size) && OnlyLogged(w.k) && |w.k.cache| == w.k.geo.size
    && HomeNo(w.k.geo, w.k.geo.size - 1) in w.k.cache
    && w.k.cache[HomeNo(w.k.geo, w.k.geo.size - 1)].data == data
    && w.k.pc == WriteLog(i)
  }

  /** Three operations with logged blocks are about to end. */
  ghost predicate Ending(w: World) {
    && w.k.booted && w.k.pc.Idle? && !w.k.committing && w.k.outstanding == 3 && w.k.lh != []
    && (forall p :: 0 <= p < 3 ==> InOp(w, p)) && (forall b :: b in w.k.cache ==> !w.k.cache[b].raw)
  }

  lemma EndThree(w: World)
    requires Ending(w)
    ensures var es := [EvEndOp(0), EvEndOp(1), EvEndOp(2)];
            && Runs(w, es) && After(w, es).cut == w.cut
            && After(w, es).k == w.k.(outstanding := 0, committing := true, pc := WriteLog(0))
  {
    hide Runs, After;
    assert InOp(w, 0) && InOp(w, 1) && InOp(w, 2);
    var w1 := Apply(w, EvEndOp(0));
    assert w1.k == w.k.(outstanding := 2) && InOp(w1, 1) && InOp(w1, 2);
    var w2 := Apply(w1, EvEndOp(1));
    assert w2.k == w.k.(outstanding := 1) && InOp(w2, 2);
    ThreeSteps(w, EvEndOp(0), EvEndOp(1), EvEndOp(2));
  }

  lemma EndRun(w: World, d: seq<Block>, data: Block)
    requires Full(w, d, data)
    ensures var es := [EvEndOp(0), EvEndOp(1), EvEndOp(2)];
            Runs(w, es) && After(w, es).k.geo == w.k.geo && Copying(After(w, es), d, data, 0)
  {
    hide Runs, After, FirstHomes, HomeNo;
    FullLog(w, w.k.geo.size);
    EndThree(w);
  }

  /** Only the slot needs a buffer; the logged block has one. */
  lemma RoomForSlot(k: Kernel, i: nat)
    requires k.pc == WriteLog(i) && i < |k.lh| && k.lh[i] in k.cache && |k.cache| < NBUF
    ensures HasBuffers(k)
  {
    var slot := k.geo.start + 1 + i;
    assert k.cache.Keys + {k.lh[i], slot} == k.cache.Keys + {slot};
    assert |k.cache.Keys| == |k.cache|;
  }

  lemma CanCopyOne(w: World, d: seq<Block>, data: Block, i: nat)
    requires Copying(w, d, data, i) && i < w.k.geo.size < NBUF
    requires w.k.geo.size + LOGSIZE <= w.k.geo.nblocks && Behind(w.k.geo) < w.k.geo.nblocks
    ensures CanAdvance(w.k) && w.k.lh[i] == HomeNo(w.k.geo, i) && Home(w.k.geo, w.k.lh[i]) && w.k.lh[i] in w.k.cache
  {
    hide HasBuffers;
    RoomForSlot(w.k, i);
  }

  /** One block is copied, and the buffer of its slot taken back. */
  lemma CopyOne(w: World, d: seq<Block>, data: Block, i: nat)
    requires Copying(w, d, data, i) && i < w.k.geo.size - 1 && w.k.geo.size < NBUF
    requires w.k.geo.size + LOGSIZE <= w.k.geo.nblocks && Behind(w.k.geo) < w.k.geo.nblocks
    ensures Enabled(w, EvAdvance) && Enabled(Apply(w, EvAdvance), EvEvict(w.k.geo.start + 1 + i))
    ensures var w' := Apply(Apply(w, EvAdvance), EvEvict(w.k.geo.start + 1 + i));
            w'.k.geo == w.k.geo && Copying(w', d, data, i + 1)
  {
    hide FirstHomes, HomeNo, HasBuffers;
    CanCopyOne(w, d, data, i);
    LastHome(w, d, data, i);
    var slot := w.k.geo.start + 1 + i;
    var w1 := Apply(w, EvAdvance);
    assert slot !in w.k.lh by { SlotNotLogged(w, d, data, i); }
    assert w1.k.cache == w.k.cache[slot := Buf(w.k.cache[w.k.lh[i]].data, false, Free, false)];
    assert w1.k.cache - {slot} == w.k.cache;
  }

  lemma SlotNotLogged(w: World, d: seq<Block>, data: Block, i: nat)
    requires Copying(w, d, data, i) && i < w.k.geo.size - 1 && w.k.geo.size < NBUF
    requires w.k.geo.size + LOGSIZE <= w.k.geo.nblocks
    ensures w.k.geo.start + 1 + i !in w.k.lh
  {
  }

  lemma LastHome(w: World, d: seq<Block>, data: Block, i: nat)
    requires Copying(w, d, data, i) && w.k.geo.size <= LOGSIZE && w.k.geo.size + LOGSIZE <= w.k.geo.nblocks
    ensures Home(w.k.geo, HomeNo(w.k.geo, w.k.geo.size - 1)) && |w.k.lh| == w.k.geo.size
  {
  }

  lemma {:induction false} CopyMany(w: World, d: seq<Block>, data: Block, i: nat) returns (es: seq<Event>)
    requires Copying(w, d, data, 0) && i <= w.k.geo.size - 1 && w.k.geo.size < NBUF
    requires w.k.geo.size + LOGSIZE <= w.k.geo.nblocks && Behind(w.k.geo) < w.k.geo.nblocks
    ensures Runs(w, es) && After(w, es).k.geo == w.k.geo && Copying(After(w, es), d, data, i)
  {
    hide Copying, Enabled, Apply;
    if i == 0 {
      es := [];
    } else {
      es := CopyMany(w, d, data, i - 1);
      var free := EvEvict(w.k.geo.start + i);
      CopyOne(After(w, es), d, data, i - 1);
      RunThen(w, es, EvAdvance);
      RunThen(w, es + [EvAdvance], free);
      es := es + [EvAdvance] + [free];
    }
  }

  /** The run up to the log write that leaves the log area. */
  lemma OverflowRun(w: World, data: Block) returns (es: seq<Event>)
    requires Initial(w) && w.k.geo.size < NBUF
    requires w.k.geo.size + LOGSIZE <= w.k.geo.nblocks && Behind(w.k.geo) < w.k.geo.nblocks
    ensures Runs(w, es) && After(w, es).k.geo == w.k.geo
    ensures Copying(After(w, es), w.k.disk, data, w.k.geo.size - 1)
  {
    hide Runs, After, Copying, Full, Enabled, Apply;
    var es0 := FillRun(w, data);
    var w0 := After(w, es0);
    var es1 := [EvEndOp(0), EvEndOp(1), EvEndOp(2)];
    EndRun(w0, w.k.disk, data);
    RunsConcat(w, es0, es1);
    var es2 := CopyMany(After(w0, es1), w.k.disk, data, w.k.geo.size - 1);
    RunsConcat(w, es0 + es1, es2);
    es := es0 + es1 + es2;
  }

  /** The write behind the log area puts unlogged data into a file system block. */
  lemma LastCopy(w: World, d: seq<Block>, data: Block)
    requires 1 <= w.k.geo.size < NBUF && Copying(w, d, data, w.k.geo.size - 1)
    requires w.k.geo.size + LOGSIZE <= w.k.geo.nblocks && Behind(w.k.geo) < w.k.geo.nblocks
    ensures Enabled(w, EvAdvance) && !StaysInside(w)
    ensures var w' := Apply(w, EvAdvance);
            && w'.cut == 0 && w'.k.geo == w.k.geo && |w'.k.disk| == |d|
            && w'.k.disk[w.k.geo.start] == d[w.k.geo.start] && w'.k.disk[Behind(w.k.geo)] == data
  {
    hide HasBuffers;
    CanCopyOne(w, d, data, w.k.geo.size - 1);
  }

  /** A log of fewer than NBUF blocks, header included, loses crash safety: after two log_write calls
      that shared its last slot, commit() writes one log block over the first block behind the log. */
  lemma SmallLogUnsafe(w: World) returns (es: seq<Event>)
    requires Initial(w) && w.k.geo.size < NBUF
    requires w.k.geo.size + LOGSIZE <= w.k.geo.nblocks && Behind(w.k.geo) < w.k.geo.nblocks
    ensures Runs(w, es) && !StaysInside(After(w, es)) && Enabled(After(w, es), EvAdvance)
    ensures Runs(w, es + [EvAdvance]) && !CrashSafe(w, After(w, es + [EvAdvance]))
  {
    hide Runs, After, Copying, Enabled, Apply, StaysInside;
    var geo, d := w.k.geo, w.k.disk;
    var data: Block := d[Behind(geo)][0 := d[Behind(geo)][0] + 1];
    assert data[0] != d[Behind(geo)][0];
    es := OverflowRun(w, data);
    LastCopy(After(w, es), d, data);
    RunThen(w, es, EvAdvance);
    var w' := After(w, es + [EvAdvance]);
    assert HeadOf(w'.k.disk[geo.start]) == [] && Recovered(geo, w'.k.disk) == w'.k.disk;
    assert CrashSafe(w, w') ==> w'.writes[..w'.cut] == [];
    assert Home(geo, Behind(geo));
  }

  // ----- In a log of NBUF blocks commit stops in time -----

  /** The log holds as many blocks as there are buffers, all of them pinned; on the disk no
      transaction has been committed since. */
  ghost predicate Brimming(w: World) {
    && GeoOk(w.k.geo) && |w.k.disk| == |w.origin| == w.k.geo.nblocks && w.cut <= |w.writes|
    && Listed(w.k.geo, w.k.lh) && |w.k.lh| == NBUF && Pinned(w.k.cache, w.k.lh)
    && (w.k.pc == Idle || w.k.pc == WriteLog(0))
    && LogGood(w.k.geo, w.k.disk, Durable(w))
    && OpsInv(w.k.geo, w.active, w.nextOp, w.writes, w.cut)
  }

  function Elements(lh: seq<nat>): set<nat> {
    set b | b in lh
  }

  lemma {:induction false} DistinctCount(lh: seq<nat>)
    requires forall i, j :: 0 <= i < j < |lh| ==> lh[i] != lh[j]
    ensures |Elements(lh)| == |lh|
  {
    if lh != [] {
      var n := |lh| - 1;
      DistinctCount(lh[..n]);
      assert Elements(lh) == Elements(lh[..n]) + {lh[n]};
    }
  }

  /** No buffer is left for the first log slot. */
  lemma NoBufferLeft(w: World)
    requires Brimming(w)
    ensures !CanAdvance(w.k)
  {
    hide LogGood, OpsInv;
    DistinctCount(w.k.lh);
    var all := w.k.cache.Keys + Needs(w.k);
    if w.k.pc == WriteLog(0) {
      var slot := w.k.geo.start + 1;
      assert slot !in Elements(w.k.lh);
      assert Elements(w.k.lh) + {slot} <= all;
      Fewer(Elements(w.k.lh) + {slot}, all);
    }
  }

  lemma Fewer(a: set<nat>, b: set<nat>)
    requires a <= b
    ensures |a| <= |b|
  {
    assert b == a + (b - a);
  }

  lemma RebootsWell(k: Kernel, d: seq<Block>)
    requires LogGood(k.geo, k.disk, d)
    ensures KInv(Reboot(k), d, d, map[])
  {
  }

  lemma BrimmingCrash(w: World)
    requires Brimming(w) && Enabled(w, EvCrash)
    ensures Inv(Apply(w, EvCrash))
  {
    hide KInv, LogGood;
    var w' := Apply(w, EvCrash);
    assert w'.writes[..w'.cut] == w'.writes == w.writes[..w.cut];
    RebootsWell(w.k, Durable(w));
  }

  lemma PinsStay(w: World, e: Event)
    requires Enabled(w, e) && Pinned(w.k.cache, w.k.lh)
    requires e.EvBread? || e.EvModify? || e.EvBrelse? || e.EvEvict?
    ensures var k := Apply(w, e).k;
            Pinned(k.cache, k.lh) && k == w.k.(cache := k.cache) && Apply(w, e) == w.(k := k)
  {
  }

  /** An overfull log stays as it is until a crash. */
  lemma BrimmingStep(w: World, e: Event)
    requires Brimming(w) && SpaceInv(w) && Enabled(w, e)
    ensures Inv(Apply(w, e)) || Brimming(Apply(w, e))
  {
    hide LogGood, OpsInv, Pinned, Listed, Inv, SpaceInv, CanAdvance;
    match e
    case EvBeginOp(p) => BeginOpOps(w, p);
    case EvLogGuard(p, b) => GuardOps(w, p, b);
    case EvLogAppend(p, b) => AppendSpace(w, p, b);
    case EvEndOp(p) => EndOpOps(w, p);
    case EvAdvance => NoBufferLeft(w);
    case EvCrash => BrimmingCrash(w);
    case _ => PinsStay(w, e);
  }

  lemma IdleFacts(k: Kernel, v: seq<Block>, d: seq<Block>, ops: map<nat, Op>)
    requires KInv(k, v, d, ops) && k.pc.Idle?
    ensures GeoOk(k.geo) && |k.disk| == k.geo.nblocks && LogGood(k.geo, k.disk, d) && Pinned(k.cache, k.lh)
  {
  }

  lemma PinMore(cache: map<nat, Buf>, lh: seq<nat>, b: nat)
    requires Pinned(cache, lh) && b in cache
    ensures Pinned(cache[b := cache[b].(dirty := true, raw := false)], Absorb(lh, b))
  {
  }

  lemma HeadFacts(w: World)
    requires SpaceInv(w)
    ensures GeoOk(w.k.geo) && Listed(w.k.geo, w.k.lh) && |w.k.lh| <= LOGSIZE
  {
  }

  lemma CallFacts(w: World, p: nat, b: nat)
    requires SpaceInv(w) && Enabled(w, EvLogAppend(p, b))
    ensures Home(w.k.geo, b)
  {
  }

  /** A log_write that finds no room in a log of NBUF blocks makes it brim over. */
  lemma Overfills(w: World, p: nat, b: nat)
    requires Inv(w) && SpaceInv(w) && w.k.geo.size >= NBUF
    requires Enabled(w, EvLogAppend(p, b)) && !Fits(w, EvLogAppend(p, b))
    ensures Brimming(Apply(w, EvLogAppend(p, b)))
  {
    hide KInv, OpsInv, LogGood, Pinned, SpaceInv, Listed, CanAdvance, Advance;
    var w' := Apply(w, EvLogAppend(p, b));
    AppendSpace(w, p, b);
    HeadFacts(w');
    CallFacts(w, p, b);
    PcFacts(w.k, Current(w), Durable(w), w.active);
    IdleFacts(w.k, Current(w), Durable(w), w.active);
    PinMore(w.k.cache, w.k.lh, b);
    LogWriteOps(w, p, w'.active[p], w'.writes[|w.writes|]);
    assert w'.writes[..w'.cut] == w.writes[..w.cut];
  }

  /** Every run of a log of at least NBUF blocks stays within the invariant, or stops before commit
      has written anything. */
  lemma {:induction false} RunBrims(w: World, es: seq<Event>)
    requires (Inv(w) || Brimming(w)) && SpaceInv(w) && Runs(w, es) && w.k.geo.size >= NBUF
    ensures Inv(After(w, es)) || Brimming(After(w, es))
    decreases |es|
  {
    hide Inv, Brimming, SpaceInv, Enabled, Apply, Fits;
    if es != [] {
      var e := es[0];
      SpaceStep(w, e);
      StepGeo(w, e);
      if Brimming(w) { BrimmingStep(w, e); }
      else if Fits(w, e) { StepKeeps(w, e); }
      else { NotFitting(w, e); Overfills(w, e.p, e.b); }
      RunBrims(Apply(w, e), es[1..]);
    }
  }

  lemma NotFitting(w: World, e: Event)
    requires !Fits(w, e)
    ensures e.EvLogAppend?
  {
  }

  // ----- The exact condition -----

  lemma BrimmingSafe(w: World)
    requires Brimming(w)
    ensures SameHome(w.k.geo, Recovered(w.k.geo, w.k.disk), Durable(w)) && WholeOps(w.writes, w.cut) && StaysInside(w)
  {
    hide SameHome, Recovered, Pinned, Listed;
    GoodRecovers(w.k.geo, w.k.disk, Durable(w));
  }

  lemma InvSafe(w: World)
    requires Inv(w)
    ensures |w.origin| == |w.k.disk| == w.k.geo.nblocks && w.cut <= |w.writes|
    ensures SameHome(w.k.geo, Recovered(w.k.geo, w.k.disk), Durable(w)) && WholeOps(w.writes, w.cut) && StaysInside(w)
  {
    hide SameHome, Recovered, CacheInv, Absent, RestClean;
    GoodRecovers(w.k.geo, w.k.disk, Durable(w));
  }

  lemma LargeLogSafe(w: World, es: seq<Event>)
    requires Initial(w) && Runs(w, es) && w.k.geo.size >= NBUF
    ensures CrashSafe(w, After(w, es)) && StaysInside(After(w, es))
  {
    InitialSpace(w);
    InitialInv(w);
    hide Runs, After, Inv, Brimming, SpaceInv, SameHome, Recovered, WholeOps, StaysInside;
    RunBrims(w, es);
    RunConstants(w, es);
    var w' := After(w, es);
    if Brimming(w') { BrimmingCut(w'); BrimmingSafe(w'); } else { InvSafe(w'); }
  }

  lemma BrimmingCut(w: World)
    requires Brimming(w)
    ensures |w.origin| == |w.k.disk| == w.k.geo.nblocks && w.cut <= |w.writes|
  {
  }

  /** Every run is crash safe if and only if the log area has at least NBUF blocks, and then and only
      then every log write of every run stays inside the log area. */
  lemma CrashSafeExactly(w: World)
    requires Initial(w) && w.k.geo.size + LOGSIZE <= w.k.geo.nblocks && Behind(w.k.geo) < w.k.geo.nblocks
    ensures (forall es :: Runs(w, es) ==> CrashSafe(w, After(w, es))) <==> w.k.geo.size >= NBUF
    ensures (forall es :: Runs(w, es) ==> StaysInside(After(w, es))) <==> w.k.geo.size >= NBUF
  {
    hide Initial, Runs, After, CrashSafe, StaysInside;
    if w.k.geo.size >= NBUF {
      forall es | Runs(w, es)
        ensures CrashSafe(w, After(w, es)) && StaysInside(After(w, es))
      {
        LargeLogSafe(w, es);
      }
    } else {
      var es := SmallLogUnsafe(w);
      assert Runs(w, es) && Runs(w, es + [EvAdvance]);
    }
  }
}
