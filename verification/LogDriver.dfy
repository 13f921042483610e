/**
 The routines of log.c as they run: loops over log.lh that move blocks between the cache, the
 log area and the home locations.  `images` collects the disk after every single block write,
 so a crash leaves one of its elements.  Each write is proved to be a step of the Journal machine,
 after such evictions of clean buffers as bget makes.
 */
module LogDriver {
  import opened Common
  import opened Journal
  import LogSpace
  import opened LogBuffers

  class Log {
    const geo: Geometry
    var disk: seq<Block>
    var cache: map<nat, Buf>
    const block: array<nat> // log.lh.block
    var n: nat              // log.lh.n
    var outstanding: nat
    var committing: bool
    ghost var pc: Pc
    ghost var booted: bool
    ghost var images: seq<seq<Block>>

    ghost predicate Valid()
      reads this, block
    {
      block.Length == LOGSIZE && n <= LOGSIZE && |cache| <= NBUF
    }

    ghost function View(): Kernel
      reads this, block
      requires Valid()
    {
      Kernel(geo, disk, cache, block[..n], outstanding, committing, pc, booted)
    }

    /** No process holds a block of the in-memory log. */
    ghost predicate Quiet()
      reads this, block
      requires Valid()
    {
      LogBuffers.Quiet(View())
    }

    /** After power-on, before recover_from_log. */
    constructor (geo: Geometry, disk: seq<Block>)
      requires GeoOk(geo) && |disk| == geo.nblocks
      ensures Valid() && Quiet() && fresh(block)
      ensures View() == Kernel(geo, disk, map[], [], 0, false, ReadHead, false) && images == [disk]
    {
      this.geo := geo;
      this.disk := disk;
      cache, n, outstanding, committing := map[], 0, 0, false;
      block := new nat[LOGSIZE];
      pc, booted, images := ReadHead, false, [disk];
    }

    /** bread of b while the caller holds the blocks `hold`; fails where bget panics.  k1 is the state
        after bget has taken a buffer from a clean free block, if it had to. */
    method Bread(b: nat, hold: set<nat>) returns (ok: bool, data: Block, ghost k1: Kernel)
      requires Valid() && b < |disk|
      modifies this`cache
      ensures Valid() && (ok <==> b in old(cache) || HasVictim(old(cache), hold))
      ensures !ok ==> View() == old(View())
      ensures ok ==> Evicted(old(View()), k1, hold) && View() == Fill(k1, b) && data == Content(k1, b)
    {
      k1 := View();
      data := disk[b];
      if b !in cache {
        if |cache| == NBUF {
          ok := exists x :: x in cache && x !in hold && !cache[x].dirty && cache[x].holder.Free?;
          if !ok {
            return;
          }
          var x :| x in cache && x !in hold && !cache[x].dirty && cache[x].holder.Free?;
          MapSizes(cache, x, cache[x]);
          cache := cache - {x};
          k1 := View();
        }
        MapSizes(cache, b, Buf(disk[b], false, Free, false));
        cache := cache[b := Buf(disk[b], false, Free, false)];
      }
      ok := true;
      data := cache[b].data;
    }

    /** bwrite and brelse of a buffer got by Bread. */
    method Bwrite(b: nat, data: Block)
      requires Valid() && b < |disk| && b in cache
      modifies this`cache, this`disk, this`images
      ensures Valid() && View() == PutBlock(old(View()), b, data) && images == old(images) + [disk]
    {
      MapSizes(cache, b, Buf(data, false, Free, false));
      cache := cache[b := Buf(data, false, Free, false)];
      disk := disk[b := data];
      images := images + [disk];
    }

    /** The body of write_log's loop. */
    method LogOne(tail: nat, ghost v: seq<Block>, ghost d: seq<Block>) returns (ok: bool)
      requires Valid() && Quiet() && pc == Journal.WriteLog(tail) && tail < n && KInv(View(), v, d, map[])
      modifies this`cache, this`disk, this`images, this`pc
      ensures Valid() && (ok <==> Available(old(cache)))
      ensures !ok ==> View() == old(View()) && images == old(images)
      ensures ok ==> Quiet() && KInv(View(), v, d, map[]) && Available(cache) && images == old(images) + [disk]
      ensures ok ==> pc == if tail + 1 < n then Journal.WriteLog(tail + 1) else Journal.WriteHead
    {
      hide KInv, Available, HasVictim, Evicted, LogBuffers.Quiet, CanAdvance, Advance, PutBlock, Fill, Content;
      ghost var k := View();
      ghost var k1, k2;
      var slot := geo.start + tail + 1;
      var to, from, found;
      CopyFacts(k, v, d);
      ok, to, k1 := Bread(slot, {});
      if !ok {
        return;
      }
      FilledSlot(k, k1, v, d);
      PinStays(k, k1, block[tail], slot);
      found, from, k2 := Bread(block[tail], {slot});
      LoggedOne(k, k1, k2, v, d);
      Bwrite(slot, from);
      pc := if tail + 1 < n then Journal.WriteLog(tail + 1) else Journal.WriteHead;
      assert View() == Advance(k2);
    }

    /** Copy the modified blocks from the cache to the log area. */
    method WriteLog(ghost v: seq<Block>, ghost d: seq<Block>) returns (ok: bool)
      requires Valid() && Quiet() && n > 0 && pc == Journal.WriteLog(0) && KInv(View(), v, d, map[])
      modifies this`cache, this`disk, this`images, this`pc
      ensures Valid() && (ok <==> Available(old(cache)))
      ensures !ok ==> View() == old(View()) && images == old(images)
      ensures ok ==> Quiet() && pc == Journal.WriteHead && KInv(View(), v, d, map[]) && Available(cache)
      ensures ok ==> |images| == |old(images)| + n && old(images) <= images
      ensures forall i :: |old(images)| <= i < |images| ==> SameHome(geo, Recovered(geo, images[i]), d)
    {
      hide KInv, SameHome, Recovered, Available;
      var tail := 0;
      while tail < n
        invariant tail <= n && Valid() && Quiet()
        invariant pc == if tail < n then Journal.WriteLog(tail) else Journal.WriteHead
        invariant KInv(View(), v, d, map[])
        invariant tail > 0 ==> Available(cache) && Available(old(cache))
        invariant tail == 0 ==> View() == old(View())
        invariant |images| == |old(images)| + tail && old(images) <= images
        invariant forall i :: |old(images)| <= i < |images| ==> SameHome(geo, Recovered(geo, images[i]), d)
      {
        ok := LogOne(tail, v, d);
        if !ok {
          return;
        }
        tail := tail + 1;
        KernelRecovers(View(), v, d);
      }
      ok := true;
    }

    /** Write the in-memory header to the disk: entries first into the buffer, then one block write. */
    method WriteHeader() returns (ghost k1: Kernel)
      requires Valid() && Quiet() && geo.start < |disk| && Unheld(View(), geo.start) && Available(cache)
      modifies this`cache, this`disk, this`images
      ensures Valid() && Quiet() && images == old(images) + [disk] && Available(cache)
      ensures Evicted(old(View()), k1, {}) && |k1.cache.Keys + {geo.start}| <= NBUF
      ensures View() == PutBlock(k1, geo.start, SetHead(Content(k1, geo.start), old(View()).lh))
    {
      hide Available, HasVictim, Evicted, LogBuffers.Quiet, PutBlock, Fill, Content, SetHead;
      ghost var k := View();
      AvailableVictim(cache);
      var ok, hb;
      ok, hb, k1 := Bread(geo.start, {});
      EvictedLh(k, k1, {});
      HeaderDone(k, k1, SetHead(hb, block[..n]));
      hb := FillHeader(hb);
      Bwrite(geo.start, hb);
    }

    /** The copying loop of write_head. */
    method FillHeader(hb0: Block) returns (hb: Block)
      requires Valid()
      ensures hb == SetHead(hb0, block[..n])
    {
      hb := hb0[0 := n];
      var i := 0;
      while i < n
        invariant i <= n && hb[0] == n
        invariant forall j :: 1 <= j < 128 ==> hb[j] == if j <= i then block[j - 1] else hb0[j]
      {
        hb := hb[1 + i := block[i]];
        i := i + 1;
      }
      assert hb == [n] + block[..n] + hb0[1 + n..];
    }

    /** Read the header from the disk into the in-memory one. */
    method ReadHeader()
      requires Valid() && geo.start < |disk| && cache == map[] && disk[geo.start][0] <= LOGSIZE
      modifies this`cache, this`n, block
      ensures Valid()
      ensures var k := Fill(old(View()), geo.start);
              View() == k.(lh := HeadOf(Content(k, geo.start)))
    {
      var ok, lh;
      ghost var k1;
      ok, lh, k1 := Bread(geo.start, {});
      ghost var k := View();
      n := lh[0];
      var i := 0;
      while i < n
        invariant i <= n == lh[0] && Valid() && cache == k.cache
        invariant forall j :: 0 <= j < i ==> block[j] == lh[1 + j]
      {
        block[i] := lh[1 + i];
        i := i + 1;
      }
      assert block[..n] == lh[1..1 + n];
    }

    /** The body of install_trans's loop. */
    method InstallOne(tail: nat, ghost v: seq<Block>)
      requires Valid() && Quiet() && pc == Install(tail) && tail < n && KInv(View(), v, v, map[]) && Roomy(View(), tail)
      modifies this`cache, this`disk, this`images, this`pc
      ensures Valid() && Quiet() && KInv(View(), v, v, map[]) && Roomy(View(), tail + 1)
      ensures pc == InstallPc(tail + 1, View().lh) && images == old(images) + [disk]
    {
      hide KInv, Available, HasVictim, Evicted, LogBuffers.Quiet, CanAdvance, Advance, PutBlock, Fill, Content, Roomy;
      ghost var k := View();
      ghost var k1, k2;
      var slot := geo.start + tail + 1;
      var ok, lbuf, dbuf;
      CopyFacts(k, v, v);
      RoomyFacts(k, tail);
      ok, lbuf, k1 := Bread(slot, {});
      FilledSlot(k, k1, v, v);
      SecondBuffer(k, k1, slot);
      ok, dbuf, k2 := Bread(block[tail], {slot});
      InstalledOne(k, k1, k2, v);
      Bwrite(block[tail], lbuf);
      pc := InstallPc(tail + 1, block[..n]);
      assert View() == Advance(k2);
    }

    /** Copy committed blocks from the log to their home locations. */
    method InstallTrans(ghost v: seq<Block>)
      requires Valid() && Quiet() && pc == InstallPc(0, View().lh) && KInv(View(), v, v, map[]) && Roomy(View(), 0)
      modifies this`cache, this`disk, this`images, this`pc
      ensures Valid() && Quiet() && pc == Clear && KInv(View(), v, v, map[]) && Available(cache)
      ensures |images| == |old(images)| + n && old(images) <= images
      ensures forall i :: |old(images)| <= i < |images| ==> SameHome(geo, Recovered(geo, images[i]), v)
    {
      hide KInv, SameHome, Recovered, Available;
      var tail := 0;
      while tail < n
        invariant tail <= n && Valid() && Quiet() && pc == InstallPc(tail, View().lh)
        invariant KInv(View(), v, v, map[]) && Roomy(View(), tail)
        invariant |images| == |old(images)| + tail && old(images) <= images
        invariant forall i :: |old(images)| <= i < |images| ==> SameHome(geo, Recovered(geo, images[i]), v)
      {
        InstallOne(tail, v);
        tail := tail + 1;
        KernelRecovers(View(), v, v);
      }
    }

    /** log.lh.n = 0; write_head(). */
    method Erase(ghost v: seq<Block>)
      requires Valid() && Quiet() && pc == Clear && KInv(View(), v, v, map[]) && Available(cache)
      modifies this`cache, this`disk, this`images, this`pc, this`n
      ensures Valid() && Quiet() && pc == Finish && n == 0 && KInv(View(), v, v, map[])
      ensures images == old(images) + [disk] && SameHome(geo, Recovered(geo, disk), v)
    {
      hide KInv, SameHome, Recovered, Available, Evicted, PutBlock, SetHead, Content;
      ghost var k := View();
      HeadFree(k, v, v);
      n := 0;
      assert View() == k.(lh := []);
      NoneListed(k);
      ghost var k0 := WriteHeader();
      EraseDone(k, k0, v);
      pc := Finish;
      KernelRecovers(View(), v, v);
    }

    /** The first write_head() of commit(): the true commit point. */
    method CommitPoint(ghost v: seq<Block>, ghost d: seq<Block>)
      requires Valid() && Quiet() && pc == Journal.WriteHead && KInv(View(), v, d, map[]) && Available(cache)
      modifies this`cache, this`disk, this`images, this`pc
      ensures Valid() && Quiet() && pc == InstallPc(0, View().lh) && KInv(View(), v, v, map[]) && Roomy(View(), 0)
      ensures images == old(images) + [disk] && SameHome(geo, Recovered(geo, disk), v)
    {
      hide KInv, SameHome, Recovered, Available, Evicted, PutBlock, SetHead, Content, CanAdvance, Advance, Roomy;
      ghost var k := View();
      HeadFree(k, v, d);
      ghost var k1 := WriteHeader();
      PointDone(k, k1, v, d);
      pc := InstallPc(0, block[..n]);
      assert View() == Advance(k1);
      KernelRecovers(View(), v, v);
    }

    /** commit(): v is the file system with all logged writes, d the one before the transaction.
        A crash after any of the first n block writes recovers d; from the header write on, v.  It fails
        where bget panics: at its first block, when no buffer is unused or clean and free. */
    method Commit(ghost v: seq<Block>, ghost d: seq<Block>) returns (ok: bool)
      requires Valid() && Quiet() && KInv(View(), v, d, map[])
      requires pc == if n > 0 then Journal.WriteLog(0) else Finish
      modifies this`cache, this`disk, this`images, this`pc, this`n
      ensures Valid() && (ok <==> old(n) == 0 || Available(old(cache)))
      ensures !ok ==> View() == old(View()) && images == old(images)
      ensures ok ==> Quiet() && pc == Finish && n == 0 && KInv(View(), v, v, map[]) && SameHome(geo, disk, v)
      ensures ok ==> old(images) <= images && |images| == |old(images)| + if old(n) > 0 then 2 * old(n) + 2 else 0
      ensures forall i :: |old(images)| <= i < |images| && i < |old(images)| + old(n) ==>
                SameHome(geo, Recovered(geo, images[i]), d)
      ensures forall i :: |old(images)| + old(n) <= i < |images| ==>
                SameHome(geo, Recovered(geo, images[i]), v)
    {
      hide KInv, SameHome, Recovered, Available;
      ok := true;
      if n > 0 {
        ok := WriteLog(v, d);
        if !ok {
          return;
        }
        CommitPoint(v, d);
        InstallTrans(v);
        Erase(v);
        FinishHome(View(), v, v, map[]);
      } else {
        FinishHome(View(), v, d, map[]);
      }
    }

    /** The first step of recovery: read_head() with an empty cache. */
    method BootHeader(ghost v: seq<Block>)
      requires Valid() && pc == ReadHead && cache == map[] && n == 0 && !booted && !committing
      requires LogGood(geo, disk, v)
      modifies this`cache, this`pc, this`n, block
      ensures Valid() && Quiet() && pc == InstallPc(0, View().lh) && KInv(View(), v, v, map[]) && Roomy(View(), 0)
    {
      hide KInv, LogGood, Fill, Content, HeadOf, Roomy, LogBuffers.Quiet;
      ghost var k := View();
      BootDone(k, v);
      ReadHeader();
      pc := InstallPc(0, block[..n]);
    }

    /** recover_from_log(): every intermediate disk still recovers to the same file system v, so
        recovery may be cut short and started over any number of times. */
    method RecoverFromLog(ghost v: seq<Block>)
      requires Valid() && Quiet() && pc == ReadHead && cache == map[] && n == 0 && !booted && !committing
      requires LogGood(geo, disk, v)
      modifies this`cache, this`disk, this`images, this`pc, this`n, block
      ensures Valid() && Quiet() && pc == Finish && n == 0 && KInv(View(), v, v, map[])
      ensures SameHome(geo, disk, v) && LogGood(geo, disk, v) && HeadOf(disk[geo.start]) == []
      ensures old(images) <= images
      ensures forall i :: |old(images)| <= i < |images| ==> SameHome(geo, Recovered(geo, images[i]), v)
    {
      hide KInv, SameHome, Recovered;
      BootHeader(v);
      InstallTrans(v);
      Erase(v);
      FinishHome(View(), v, v, map[]);
    }

    /** One pass of begin_op's loop: admitted, or must sleep until a commit or an end_op. */
    method BeginOp() returns (admitted: bool)
      requires Valid()
      modifies this`outstanding
      ensures Valid() && admitted == Admits(old(View()))
      ensures View() == old(View()).(outstanding := old(outstanding) + if admitted then 1 else 0)
    {
      if committing {
        admitted := false;
      } else if n + (outstanding + 1) * MAXOPBLOCKS > LOGSIZE {
        admitted := false;
      } else {
        outstanding := outstanding + 1;
        admitted := true;
      }
    }

    /** The tests of log_write, made before it takes the lock; log.c panics when they fail. */
    method LogGuard() returns (ok: bool)
      requires Valid()
      ensures ok == (LogHasRoom(View()) && outstanding >= 1)
    {
      if n >= LOGSIZE || n >= geo.size - 1 {
        return false;
      }
      return outstanding >= 1;
    }

    /** The rest of log_write, under the lock. */
    method LogAppend(b: nat)
      requires Valid() && b in cache && (b in block[..n] || n < LOGSIZE)
      modifies this`n, this`cache, block
      ensures Valid()
      ensures View() == old(View()).(lh := Absorb(old(View()).lh, b),
                                     cache := old(cache)[b := old(cache)[b].(dirty := true, raw := false)])
    {
      ghost var lh := block[..n];
      var i := 0;
      while i < n && block[i] != b
        invariant i <= n && block[..n] == lh && cache == old(cache) && n == old(n)
        invariant b !in lh[..i]
      {
        i := i + 1;
      }
      assert lh[..n] == lh;
      block[i] := b;
      if i == n {
        n := n + 1;
        assert block[..n] == lh + [b];
      } else {
        assert lh[i] == b && block[..n] == lh;
      }
      cache := cache[b := cache[b].(dirty := true, raw := false)];
    }

    /** log_write of the buffer of block b when no other process comes between its two halves. */
    method LogWrite(b: nat) returns (ok: bool)
      requires Valid() && b in cache
      modifies this`n, this`cache, block
      ensures Valid() && ok == (LogHasRoom(old(View())) && outstanding >= 1)
      ensures !ok ==> View() == old(View())
      ensures ok ==> View() == old(View()).(lh := Absorb(old(View()).lh, b),
                                            cache := old(cache)[b := old(cache)[b].(dirty := true, raw := false)])
    {
      ok := LogGuard();
      if ok {
        LogAppend(b);
      }
    }

    /** end_op: the last operation out commits the group.  v and d are as in Commit; ops are the
        operations in progress, p the one that ends. */
    method EndOp(ghost v: seq<Block>, ghost d: seq<Block>, ghost ops: map<nat, Op>, ghost p: nat) returns (ok: bool)
      requires Valid() && pc == Idle && KInv(View(), v, d, ops) && p in ops && outstanding == |ops|
      requires n == 0 ==> v == d
      requires outstanding == 1 ==> Quiet()
      requires forall b :: b in cache && cache[b].raw ==> !Holds(View(), p, b)
      modifies this`cache, this`disk, this`images, this`pc, this`n, this`outstanding, this`committing
      ensures Valid() && (ok <==> old(outstanding) > 1 || old(n) == 0 || Available(old(cache)))
      ensures !ok ==> disk == old(disk) && images == old(images)
      ensures ok ==> pc == Idle && !committing && outstanding == old(outstanding) - 1
      ensures ok ==> KInv(View(), v, if old(outstanding) == 1 then v else d, ops - {p})
      ensures old(outstanding) > 1 ==>
                View() == old(View()).(outstanding := old(outstanding) - 1) && images == old(images)
      ensures ok && old(outstanding) == 1 ==> n == 0 && SameHome(geo, disk, v)
      ensures old(images) <= images
      ensures forall i :: |old(images)| <= i < |images| ==>
                SameHome(geo, Recovered(geo, images[i]), if i < |old(images)| + old(n) then d else v)
    {
      MapSizes(ops, p, ops[p]);
      PcFacts(View(), v, d, ops);
      EndOpKernel(View(), v, d, ops, p, outstanding == 1);
      hide KInv, SameHome, Recovered, Available;
      var doCommit := false;
      ok := true;
      outstanding := outstanding - 1;
      if outstanding == 0 {
        doCommit := true;
        committing := true;
        pc := if n > 0 then Journal.WriteLog(0) else Finish;
      }
      if doCommit {
        assert ops - {p} == map[];
        ok := Commit(v, d);
        if !ok {
          return;
        }
        FinishDone(View(), v);
        committing := false;
        pc := Idle;
      }
    }
  }

  // ----- Buffers taken by bget -----

  /** There is an unused buffer, or a clean free one outside `hold`. */
  predicate HasVictim(cache: map<nat, Buf>, hold: set<nat>) {
    |cache| < NBUF || exists x :: x in cache && x !in hold && !cache[x].dirty && cache[x].holder.Free?
  }

  lemma AvailableVictim(cache: map<nat, Buf>)
    ensures Available(cache) <==> HasVictim(cache, {})
  {
  }

  /** k1 is k without some clean free buffers, none of them of `hold`. */
  ghost predicate Evicted(k: Kernel, k1: Kernel, hold: set<nat>) {
    && k1 == k.(cache := k1.cache) && (forall b :: b in k1.cache ==> b in k.cache && k1.cache[b] == k.cache[b])
    && (forall b :: b in k.cache && b !in k1.cache ==>
          b !in hold && !k.cache[b].dirty && k.cache[b].holder.Free?)
  }

  lemma EvictedLh(k: Kernel, k1: Kernel, hold: set<nat>)
    requires Evicted(k, k1, hold)
    ensures k1 == k.(cache := k1.cache)
  {
  }

  lemma EvictedKeeps(k: Kernel, k1: Kernel, hold: set<nat>, v: seq<Block>, d: seq<Block>)
    requires KInv(k, v, d, map[]) && Evicted(k, k1, hold)
    ensures KInv(k1, v, d, map[])
  {
    if k.pc.ReadHead? {
      assert k1.cache == map[];
    } else {
      hide HeadOk, LogGood, RestClean, PcInv;
      CacheStepKernel(k, k1.cache, v, d, map[]);
    }
  }

  function Slot(k: Kernel): nat
    requires k.pc.WriteLog? || k.pc.Install?
  {
    k.geo.start + k.pc.i + 1
  }

  /** What a step that copies a block finds. */
  lemma CopyFacts(k: Kernel, v: seq<Block>, d: seq<Block>)
    requires KInv(k, v, d, map[]) && |k.cache| <= NBUF && (k.pc.WriteLog? || k.pc.Install?)
    ensures k.pc.i < |k.lh| && Home(k.geo, k.lh[k.pc.i]) && InLog(k.geo, Slot(k))
    ensures Slot(k) < |k.disk| && k.lh[k.pc.i] < |k.disk|
    ensures Slot(k) in k.cache || HasVictim(k.cache, {}) <==> Available(k.cache)
    ensures k.pc.WriteLog? ==> k.lh[k.pc.i] in k.cache && k.cache[k.lh[k.pc.i]].dirty
  {
    hide LogGood, Absent, RestClean;
    assert InLog(k.geo, Slot(k));
  }

  lemma FillSlotCache(k: Kernel, b: nat, v: seq<Block>)
    requires |k.disk| == |v| == k.geo.nblocks && InLog(k.geo, b) && b < |k.disk|
    requires CacheInv(k.geo, k.disk, k.cache, k.lh, v, map[])
    ensures CacheInv(k.geo, k.disk, Fill(k, b).cache, k.lh, v, map[])
    ensures Absent(k.geo, k.disk, k.cache, v) ==> Absent(k.geo, k.disk, Fill(k, b).cache, v)
    ensures SamePins(k.cache, Fill(k, b).cache)
  {
  }

  lemma FilledSlot(k: Kernel, k1: Kernel, v: seq<Block>, d: seq<Block>)
    requires KInv(k, v, d, map[]) && (k.pc.WriteLog? || k.pc.Install?) && Evicted(k, k1, {})
    requires Slot(k) < |k.disk| && InLog(k.geo, Slot(k))
    ensures k1 == k.(cache := k1.cache) && KInv(Fill(k1, Slot(k)), v, d, map[])
  {
    hide HeadOk, LogGood, RestClean, PcInv, CacheInv, Absent, SamePins;
    EvictedKeeps(k, k1, {}, v, d);
    FillSlotCache(k1, Slot(k), v);
    CacheStepKernel(k1, Fill(k1, Slot(k)).cache, v, d, map[]);
  }

  lemma PinStays(k: Kernel, k1: Kernel, b: nat, slot: nat)
    requires Evicted(k, k1, {}) && b in k.cache && k.cache[b].dirty && slot < |k1.disk|
    ensures b in Fill(k1, slot).cache && Fill(k1, slot).cache[b] == k.cache[b]
  {
  }

  /** bread of the slot, then of the home block; the second does not take the buffer of the first. */
  ghost predicate TwoBreads(k: Kernel, k1: Kernel, k2: Kernel)
    requires k.pc.WriteLog? || k.pc.Install?
  {
    && Slot(k) < |k.disk| && InLog(k.geo, Slot(k)) && k.pc.i < |k.lh| && k.lh[k.pc.i] < |k.disk|
    && Evicted(k, k1, {}) && Evicted(Fill(k1, Slot(k)), k2, {Slot(k)}) && |Fill(k2, k.lh[k.pc.i]).cache| <= NBUF
  }

  /** What two breads leave: the second has not taken the buffer of the first. */
  lemma TwoBuffers(k: Kernel, k1: Kernel, k2: Kernel, v: seq<Block>, d: seq<Block>)
    requires KInv(k, v, d, map[]) && (k.pc.WriteLog? || k.pc.Install?) && LogBuffers.Quiet(k)
    requires TwoBreads(k, k1, k2)
    ensures k2 == k.(cache := k2.cache) && KInv(k2, v, d, map[]) && CanAdvance(k2) && LogBuffers.Quiet(k2)
    ensures Slot(k) in k2.cache && k2.cache[Slot(k)] == Fill(k1, Slot(k)).cache[Slot(k)]
  {
    hide KInv, HasBuffers;
    FilledSlot(k, k1, v, d);
    EvictedKeeps(Fill(k1, Slot(k)), k2, {Slot(k)}, v, d);
    BothThere(k2, k.lh[k.pc.i], Slot(k));
    StepReady(k2, v, d);
  }

  lemma BothThere(k: Kernel, home: nat, slot: nat)
    requires slot in k.cache && home < |k.disk| && |Fill(k, home).cache| <= NBUF
    requires (k.pc.WriteLog? || k.pc.Install?) && k.pc.i < |k.lh| && home == k.lh[k.pc.i] && slot == Slot(k)
    ensures HasBuffers(k)
  {
    LogSpace.PutKeys(k, home, k.disk[home]);
    assert k.cache.Keys + Needs(k) == k.cache.Keys + {home};
    assert |Fill(k, home).cache.Keys| == |Fill(k, home).cache|;
  }

  lemma PutFacts(k: Kernel, b: nat, data: Block)
    requires b < |k.disk|
    ensures Available(PutBlock(k, b, data).cache) && PutBlock(Fill(k, b), b, data) == PutBlock(k, b, data)
    ensures LogBuffers.Quiet(k) ==> LogBuffers.Quiet(PutBlock(k, b, data)) && LogBuffers.Quiet(Fill(k, b))
  {
    assert b in PutBlock(k, b, data).cache;
  }

  lemma LoggedOne(k: Kernel, k1: Kernel, k2: Kernel, v: seq<Block>, d: seq<Block>)
    requires KInv(k, v, d, map[]) && k.pc.WriteLog? && LogBuffers.Quiet(k)
    requires TwoBreads(k, k1, k2)
    ensures CanAdvance(k2) && KInv(Advance(k2), v, d, map[]) && LogBuffers.Quiet(Advance(k2))
    ensures Available(Advance(k2).cache) && Slot(k) in Fill(k2, k.lh[k.pc.i]).cache
    ensures Advance(k2) == PutBlock(Fill(k2, k.lh[k.pc.i]), Slot(k), Content(k2, k.lh[k.pc.i]))
                             .(pc := if k.pc.i + 1 < |k.lh| then WriteLog(k.pc.i + 1) else WriteHead)
  {
    hide KInv, HasBuffers, Evicted, Available, LogBuffers.Quiet;
    var home := k.lh[k.pc.i];
    TwoBuffers(k, k1, k2, v, d);
    WriteLogKernel(k2, v, d);
    PutFacts(k2, home, Content(k2, home));
    PutFacts(Fill(k2, home), Slot(k), Content(k2, home));
    QuietPc(PutBlock(Fill(k2, home), Slot(k), Content(k2, home)), Advance(k2).pc);
  }

  lemma QuietPc(k: Kernel, pc: Pc)
    ensures LogBuffers.Quiet(k) <==> LogBuffers.Quiet(k.(pc := pc))
  {
  }

  lemma HeaderDone(k: Kernel, k1: Kernel, data: Block)
    requires Evicted(k, k1, {}) && LogBuffers.Quiet(k)
    requires k.geo.start < |k.disk| && |Fill(k1, k.geo.start).cache| <= NBUF
    ensures |k1.cache.Keys + {k.geo.start}| <= NBUF && k.geo.start in Fill(k1, k.geo.start).cache
    ensures PutBlock(Fill(k1, k.geo.start), k.geo.start, data) == PutBlock(k1, k.geo.start, data)
    ensures LogBuffers.Quiet(PutBlock(k1, k.geo.start, data)) && Available(PutBlock(k1, k.geo.start, data).cache)
  {
    LogSpace.PutKeys(k1, k.geo.start, data);
    assert |Fill(k1, k.geo.start).cache.Keys| == |Fill(k1, k.geo.start).cache|;
    PutFacts(k1, k.geo.start, data);
  }

  // ----- Buffers for install_trans -----

  /** The logged blocks from i on are still pinned, or nothing is. */
  ghost predicate Roomy(k: Kernel, i: nat) {
    && Available(k.cache)
    && ((forall j :: i <= j < |k.lh| ==> k.lh[j] in k.cache && k.cache[k.lh[j]].dirty) || Pins(k.cache) == {})
  }

  lemma RoomyFacts(k: Kernel, i: nat)
    requires Roomy(k, i)
    ensures Available(k.cache)
  {
  }

  lemma SecondBuffer(k: Kernel, k1: Kernel, slot: nat)
    requires k.pc.Install? && k.pc.i < |k.lh| && Roomy(k, k.pc.i) && Evicted(k, k1, {}) && slot < |k1.disk|
    ensures k.lh[k.pc.i] in Fill(k1, slot).cache || HasVictim(Fill(k1, slot).cache, {slot})
  {
    var cache := Fill(k1, slot).cache;
    if Pins(k.cache) == {} {
      forall b | b in cache ensures !cache[b].dirty && cache[b].holder.Free? {
        assert b in k.cache ==> b !in Pins(k.cache);
      }
      OtherKey(cache, slot);
    }
  }

  lemma OtherKey(cache: map<nat, Buf>, slot: nat)
    ensures |cache| < NBUF || exists x :: x in cache && x != slot
  {
    if forall x :: x in cache ==> x == slot {
      assert cache.Keys <= {slot};
      assert |{slot} - cache.Keys| + |cache.Keys| == 1;
      assert |cache| == |cache.Keys|;
    }
  }

  lemma InstalledOne(k: Kernel, k1: Kernel, k2: Kernel, v: seq<Block>)
    requires KInv(k, v, v, map[]) && k.pc.Install? && LogBuffers.Quiet(k) && Roomy(k, k.pc.i)
    requires TwoBreads(k, k1, k2)
    ensures CanAdvance(k2) && KInv(Advance(k2), v, v, map[]) && LogBuffers.Quiet(Advance(k2))
    ensures Roomy(Advance(k2), k.pc.i + 1) && k.lh[k.pc.i] in Fill(k2, k.lh[k.pc.i]).cache
    ensures Advance(k2) == PutBlock(Fill(k2, k.lh[k.pc.i]), k.lh[k.pc.i], Content(k1, Slot(k)))
                             .(pc := InstallPc(k.pc.i + 1, k.lh))
  {
    hide KInv, HasBuffers, Evicted, Available, LogBuffers.Quiet, Roomy;
    var home := k.lh[k.pc.i];
    EvictedLh(k, k1, {});
    TwoBuffers(k, k1, k2, v, v);
    InstallKernel(k2, v);
    var data := Content(k1, Slot(k));
    assert Content(k2, Slot(k)) == data;
    PutFacts(k2, home, data);
    StillRoomy(k, k1, k2, v, data);
    QuietPc(PutBlock(k2, home, data), Advance(k2).pc);
    RoomyPc(PutBlock(k2, home, data), k.pc.i + 1, Advance(k2).pc);
  }

  lemma RoomyPc(k: Kernel, i: nat, pc: Pc)
    ensures Roomy(k, i) <==> Roomy(k.(pc := pc), i)
  {
  }

  lemma StillRoomy(k: Kernel, k1: Kernel, k2: Kernel, v: seq<Block>, data: Block)
    requires KInv(k, v, v, map[]) && k.pc.Install? && Roomy(k, k.pc.i) && k.pc.i < |k.lh|
    requires Slot(k) < |k.disk| && k.lh[k.pc.i] < |k.disk|
    requires Evicted(k, k1, {}) && Evicted(Fill(k1, Slot(k)), k2, {Slot(k)})
    ensures Roomy(PutBlock(k2, k.lh[k.pc.i], data), k.pc.i + 1)
  {
    hide KInv, Available, Evicted, Pins, HeadOk;
    DistinctHead(k, v);
    EvictedLh(k, k1, {});
    EvictedLh(Fill(k1, Slot(k)), k2, {Slot(k)});
    PutFacts(k2, k.lh[k.pc.i], data);
    if Pins(k.cache) == {} {
      NothingPinned(k, k1, k2, Slot(k), k.lh[k.pc.i], data);
    } else {
      forall j | k.pc.i + 1 <= j < |k.lh|
        ensures k.lh[j] in k2.cache && k2.cache[k.lh[j]].dirty
      {
        PinStays(k, k1, k.lh[j], Slot(k));
        PinKept(Fill(k1, Slot(k)), k2, {Slot(k)}, k.lh[j]);
      }
    }
  }

  lemma DistinctHead(k: Kernel, v: seq<Block>)
    requires KInv(k, v, v, map[])
    ensures forall i, j :: 0 <= i < j < |k.lh| ==> k.lh[i] != k.lh[j]
  {
  }

  lemma PinKept(k: Kernel, k1: Kernel, hold: set<nat>, b: nat)
    requires Evicted(k, k1, hold) && b in k.cache && k.cache[b].dirty
    ensures b in k1.cache && k1.cache[b].dirty
  {
  }

  lemma NothingPinned(k: Kernel, k1: Kernel, k2: Kernel, slot: nat, b: nat, data: Block)
    requires Pins(k.cache) == {} && Evicted(k, k1, {}) && slot < |k1.disk| && b < |k2.disk|
    requires Evicted(Fill(k1, slot), k2, {slot})
    ensures Pins(PutBlock(k2, b, data).cache) == {}
  {
    var cache := PutBlock(k2, b, data).cache;
    forall x | x in cache
      ensures !cache[x].dirty && cache[x].holder.Free?
    {
      assert x in k.cache ==> x !in Pins(k.cache);
    }
  }

  // ----- The header writes -----

  lemma PointDone(k: Kernel, k1: Kernel, v: seq<Block>, d: seq<Block>)
    requires KInv(k, v, d, map[]) && k.pc.WriteHead? && LogBuffers.Quiet(k)
    requires Evicted(k, k1, {}) && |k1.cache.Keys + {k.geo.start}| <= NBUF
    ensures CanAdvance(k1) && KInv(Advance(k1), v, v, map[]) && Roomy(Advance(k1), 0)
    ensures Advance(k1) == PutBlock(k1, k.geo.start, SetHead(Content(k1, k.geo.start), k.lh)).(pc := InstallPc(0, k.lh))
  {
    hide KInv, Available, SetHead, LogBuffers.Quiet, Evicted, Pinned, Pins;
    EvictedKeeps(k, k1, {}, v, d);
    EvictedLh(k, k1, {});
    EvictedQuiet(k, k1, {});
    HeadFree(k, v, d);
    StepReady(k1, v, d);
    WriteHeadKernel(k1, v, d);
    PutFacts(k1, k.geo.start, SetHead(Content(k1, k.geo.start), k.lh));
    forall j | 0 <= j < |k.lh| ensures k.lh[j] in k1.cache && k1.cache[k.lh[j]].dirty {
      PinnedAt(k, j);
      PinKept(k, k1, {}, k.lh[j]);
    }
  }

  lemma PinnedAt(k: Kernel, j: nat)
    requires Pinned(k.cache, k.lh) && j < |k.lh|
    ensures k.lh[j] in k.cache && k.cache[k.lh[j]].dirty
  {
  }

  lemma EvictedQuiet(k: Kernel, k1: Kernel, hold: set<nat>)
    requires Evicted(k, k1, hold) && LogBuffers.Quiet(k)
    ensures LogBuffers.Quiet(k1)
  {
  }

  lemma EraseDone(k: Kernel, k0: Kernel, v: seq<Block>)
    requires KInv(k, v, v, map[]) && k.pc.Clear? && LogBuffers.Quiet(k)
    requires Evicted(k.(lh := []), k0, {}) && |k0.cache.Keys + {k.geo.start}| <= NBUF && k.geo.start < |k.disk|
    ensures KInv(PutBlock(k0, k.geo.start, SetHead(Content(k0, k.geo.start), [])).(pc := Finish), v, v, map[])
  {
    hide KInv, SetHead, LogBuffers.Quiet, Evicted, CanAdvance, Advance, HasBuffers;
    var k1 := k0.(lh := k.lh);
    EvictedListed(k, k0);
    EvictedKeeps(k, k1, {}, v, v);
    EvictedQuiet(k, k1, {});
    HeadRoom(k1);
    StepReady(k1, v, v);
    ClearKernel(k1, v);
    ClearStep(k1, k0);
  }

  lemma EvictedListed(k: Kernel, k0: Kernel)
    requires Evicted(k.(lh := []), k0, {})
    ensures Evicted(k, k0.(lh := k.lh), {}) && k0 == k.(lh := [], cache := k0.cache)
  {
  }

  lemma HeadRoom(k: Kernel)
    requires (k.pc.Clear? || k.pc.WriteHead?) && |k.cache.Keys + {k.geo.start}| <= NBUF
    ensures HasBuffers(k)
  {
  }

  lemma ClearStep(k1: Kernel, k0: Kernel)
    requires CanAdvance(k1) && k1.pc.Clear? && k0 == k1.(lh := [])
    ensures Advance(k1) == PutBlock(k0, k0.geo.start, SetHead(Content(k0, k0.geo.start), [])).(pc := Finish)
  {
    hide HasBuffers, SetHead;
  }

  lemma FinishDone(k: Kernel, v: seq<Block>)
    requires KInv(k, v, v, map[]) && k.pc.Finish? && LogBuffers.Quiet(k) && |k.cache| <= NBUF
    ensures KInv(k.(committing := false, booted := true, pc := Idle), v, v, map[])
  {
    hide KInv;
    assert k.cache.Keys + Needs(k) == k.cache.Keys && |k.cache.Keys| == |k.cache|;
    StepReady(k, v, v);
    FinishKernel(k, v);
    assert Advance(k) == k.(committing := false, booted := true, pc := Idle);
  }

  lemma BootInv(k: Kernel, v: seq<Block>)
    requires LogGood(k.geo, k.disk, v)
    requires k == Reboot(k).(outstanding := k.outstanding)
    ensures KInv(k, v, v, map[])
  {
  }

  lemma HeadCountOk(k: Kernel, v: seq<Block>)
    requires LogGood(k.geo, k.disk, v)
    ensures k.geo.start < |k.disk| && k.disk[k.geo.start][0] <= LOGSIZE
  {
  }

  /** What reading the header at boot leads to. */
  lemma BootDone(k: Kernel, v: seq<Block>)
    requires LogGood(k.geo, k.disk, v) && k == Reboot(k).(outstanding := k.outstanding)
    ensures k.geo.start < |k.disk| && k.disk[k.geo.start][0] <= LOGSIZE
    ensures var k1 := Fill(k, k.geo.start);
            var k2 := k1.(lh := HeadOf(Content(k1, k.geo.start)));
            var k3 := k2.(pc := InstallPc(0, k2.lh));
            KInv(k3, v, v, map[]) && LogBuffers.Quiet(k3) && Roomy(k3, 0)
  {
    BootInv(k, v);
    HeadCountOk(k, v);
    hide KInv, LogGood, HasBuffers, HeadOf;
    LogSpace.OneBuffer(k);
    StepReady(k, v, v);
    ReadHeadKernel(k, v);
    OneCached(Advance(k));
  }

  lemma OneCached(k: Kernel)
    requires k.geo.start < |k.disk| && k.cache == map[k.geo.start := Buf(k.disk[k.geo.start], false, Free, false)]
    ensures Roomy(k, 0) && LogBuffers.Quiet(k)
  {
    assert k.cache.Keys == {k.geo.start} && |k.cache| == |k.cache.Keys|;
  }

  lemma StepReady(k: Kernel, v: seq<Block>, d: seq<Block>)
    requires KInv(k, v, d, map[]) && !k.pc.Idle? && HasBuffers(k) && LogBuffers.Quiet(k)
    ensures CanAdvance(k)
  {
    hide HasBuffers;
  }

  lemma NoneListed(k: Kernel)
    ensures LogBuffers.Quiet(k.(lh := []))
  {
  }

  lemma HeadFree(k: Kernel, v: seq<Block>, d: seq<Block>)
    requires KInv(k, v, d, map[])
    ensures k.geo.start < |k.disk| && Unheld(k, k.geo.start)
    ensures k.geo.start !in k.lh && (k.pc.WriteHead? ==> Pinned(k.cache, k.lh))
  {
  }

  lemma KernelRecovers(k: Kernel, v: seq<Block>, d: seq<Block>)
    requires KInv(k, v, d, map[])
    ensures SameHome(k.geo, Recovered(k.geo, k.disk), d)
  {
    GoodRecovers(k.geo, k.disk, d);
  }
}
