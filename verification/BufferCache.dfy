/**
 The buffer cache (bio.c): NBUF buffers in a circular doubly linked list through a head, most
 recently released first.  Buffers are numbered 0 .. NBUF-1 and the head is NBUF.  Between two
 method calls other processes may call methods: bget's critical section, acquiresleep and the rest
 of bread are separate methods for that reason.
 */
module BufferCache {
  import opened Common

  // ----- The list -----

  predicate Link(next: seq<nat>, prev: seq<nat>, ring: seq<nat>, k: nat)
    requires k < |ring|
  {
    var a, b := ring[k], ring[Succ(k, |ring|)];
    a < |next| && b < |prev| && next[a] == b && prev[b] == a
  }

  function Succ(k: nat, n: nat): (j: nat)
    requires k < n
    ensures j < n
  {
    if k + 1 < n then k + 1 else 0
  }

  ghost predicate Linked(next: seq<nat>, prev: seq<nat>, ring: seq<nat>) {
    forall k :: 0 <= k < |ring| ==> Link(next, prev, ring, k)
  }

  ghost predicate Distinct(ring: seq<nat>) {
    forall i, j :: 0 <= i < j < |ring| ==> ring[i] != ring[j]
  }

  /** ring is the head and then all buffers, each once. */
  ghost predicate Complete(ring: seq<nat>, n: nat) {
    |ring| > 0 && ring[0] == n && (forall b :: b in ring <==> 0 <= b <= n)
  }

  /** Later in the list means released longer ago. */
  ghost predicate Recent(ring: seq<nat>, stamp: seq<nat>) {
    && (forall i :: 1 <= i < |ring| ==> ring[i] < |stamp|)
    && (forall i, j :: 1 <= i < j < |ring| ==> stamp[ring[i]] > stamp[ring[j]])
  }

  /** next and prev are inverse to each other and run through all buffers in order of release. */
  ghost predicate ListOk(next: seq<nat>, prev: seq<nat>, ring: seq<nat>, stamp: seq<nat>, clock: nat, n: nat) {
    && |next| == |prev| == n + 1 && |stamp| == n
    && Linked(next, prev, ring) && Distinct(ring) && Complete(ring, n) && Recent(ring, stamp)
    && (forall b :: 0 <= b < n ==> stamp[b] < clock)
  }

  function Delete(ring: seq<nat>, k: nat): (r: seq<nat>)
    requires k < |ring|
    ensures |r| == |ring| - 1
    ensures forall j {:trigger r[j]} :: 0 <= j < |r| ==> r[j] == if j < k then ring[j] else ring[j + 1]
  {
    ring[..k] + ring[k + 1..]
  }

  function Push(ring: seq<nat>, b: nat): (r: seq<nat>)
    requires |ring| > 0
    ensures |r| == |ring| + 1
    ensures forall j {:trigger r[j]} :: 0 <= j < |r| ==>
              r[j] == if j == 0 then ring[0] else if j == 1 then b else ring[j - 1]
  {
    [ring[0], b] + ring[1..]
  }

  lemma DeleteLinked(next: seq<nat>, prev: seq<nat>, ring: seq<nat>, k: nat)
    requires Linked(next, prev, ring) && Distinct(ring) && 0 < k < |ring|
    requires forall i :: 0 <= i < |ring| ==> ring[i] < |next| && ring[i] < |prev|
    ensures var b := ring[k];
            && prev[b] < |next| && next[b] < |prev|
            && Linked(next[prev[b] := next[b]], prev[next[b] := prev[b]], Delete(ring, k))
            && next[b] != b && prev[b] != b
  {
    var b, r := ring[k], Delete(ring, k);
    assert Link(next, prev, ring, k) && Link(next, prev, ring, k - 1);
    var next', prev' := next[prev[b] := next[b]], prev[next[b] := prev[b]];
    forall j | 0 <= j < |r|
      ensures Link(next', prev', r, j)
    {
      assert Link(next, prev, ring, if j < k then j else j + 1);
    }
  }

  lemma PushLinked(next: seq<nat>, prev: seq<nat>, ring: seq<nat>, b: nat)
    requires Linked(next, prev, ring) && Distinct(ring) && |ring| > 0 && b !in ring && b < |next| && b < |prev|
    requires forall i :: 0 <= i < |ring| ==> ring[i] < |next| && ring[i] < |prev|
    ensures var h := ring[0];
            && next[h] < |prev|
            && Linked(next[b := next[h]][h := b], prev[b := h][next[h] := b], Push(ring, b))
  {
    var h, r := ring[0], Push(ring, b);
    assert Link(next, prev, ring, 0);
    var next', prev' := next[b := next[h]][h := b], prev[b := h][next[h] := b];
    forall j | 0 <= j < |r|
      ensures Link(next', prev', r, j)
    {
      if j > 1 { assert Link(next, prev, ring, j - 1); }
    }
  }

  lemma MembersDelete(ring: seq<nat>, k: nat)
    requires Distinct(ring) && k < |ring|
    ensures Distinct(Delete(ring, k)) && forall b :: b in Delete(ring, k) <==> b in ring && b != ring[k]
  {
    var r := Delete(ring, k);
    assert ring == ring[..k] + [ring[k]] + ring[k + 1..];
    assert forall j :: 0 <= j < |r| ==> r[j] != ring[k];
  }

  lemma MembersPush(ring: seq<nat>, b: nat)
    requires Distinct(ring) && |ring| > 0 && b !in ring
    ensures Distinct(Push(ring, b)) && forall c :: c in Push(ring, b) <==> c in ring || c == b
  {
    assert ring == [ring[0]] + ring[1..];
  }

  lemma Unlink(next: seq<nat>, prev: seq<nat>, ring: seq<nat>, n: nat, k: nat)
    requires |next| == |prev| == n + 1 && Linked(next, prev, ring) && Distinct(ring) && Complete(ring, n)
    requires 0 < k < |ring|
    ensures var b, r := ring[k], Delete(ring, k);
            && b < n && prev[b] <= n && next[b] <= n && next[b] != b && prev[b] != b
            && Linked(next[prev[b] := next[b]], prev[next[b] := prev[b]], r) && Distinct(r)
            && r[0] == n && (forall c :: c in r <==> 0 <= c <= n && c != b)
  {
    assert ring[k] in ring && ring[0] != ring[k] && forall i :: 0 <= i < |ring| ==> ring[i] in ring;
    hide Link;
    DeleteLinked(next, prev, ring, k);
    MembersDelete(ring, k);
    hide Linked, Distinct;
  }

  lemma Relink(next: seq<nat>, prev: seq<nat>, ring: seq<nat>, n: nat, b: nat)
    requires |next| == |prev| == n + 1 && Linked(next, prev, ring) && Distinct(ring) && b < n
    requires |ring| > 0 && ring[0] == n && (forall c :: c in ring <==> 0 <= c <= n && c != b)
    ensures next[n] <= n && Linked(next[b := next[n]][n := b], prev[b := n][next[n] := b], Push(ring, b))
    ensures Distinct(Push(ring, b)) && Complete(Push(ring, b), n)
  {
    assert forall i :: 0 <= i < |ring| ==> ring[i] in ring;
    hide Link;
    PushLinked(next, prev, ring, b);
    MembersPush(ring, b);
    hide Linked, Distinct;
  }

  /** brelse puts a buffer at the front, with a new stamp. */
  lemma MoveFront(next: seq<nat>, prev: seq<nat>, ring: seq<nat>, stamp: seq<nat>, clock: nat, n: nat, k: nat)
    requires ListOk(next, prev, ring, stamp, clock, n) && 0 < k < |ring|
    ensures var b := ring[k];
            && b < n && prev[b] <= n && next[b] <= n && next[b] != b && prev[b] != b
            && var next1, prev1 := next[prev[b] := next[b]], prev[next[b] := prev[b]];
               && next1[n] <= n
               && ListOk(next1[b := next1[n]][n := b], prev1[b := n][next1[n] := b], Push(Delete(ring, k), b),
                         stamp[b := clock], clock + 1, n)
  {
    hide Linked, Recent, Distinct, Complete;
    Unlink(next, prev, ring, n, k);
    var b := ring[k];
    Relink(next[prev[b] := next[b]], prev[next[b] := prev[b]], Delete(ring, k), n, b);
    FrontRecent(ring, stamp, clock, k);
  }

  lemma FrontRecent(ring: seq<nat>, stamp: seq<nat>, clock: nat, k: nat)
    requires Recent(ring, stamp) && 0 < k < |ring| && Distinct(ring)
    requires forall b :: 0 <= b < |stamp| ==> stamp[b] < clock
    ensures Recent(Push(Delete(ring, k), ring[k]), stamp[ring[k] := clock])
  {
    var b, r := ring[k], Delete(ring, k);
    var t, s := Push(r, b), stamp[b := clock];
    forall i, j | 1 <= i < j < |t|
      ensures s[t[i]] > s[t[j]]
    {
      var j' := if j - 1 < k then j - 1 else j;
      assert t[j] == r[j - 1] == ring[j'] && ring[j'] != b;
      if i > 1 {
        var i' := if i - 1 < k then i - 1 else i;
        assert t[i] == r[i - 1] == ring[i'] && ring[i'] != b && stamp[ring[i']] > stamp[ring[j']];
      }
    }
  }

  // ----- The buffers -----

  type Block = seq<nat>
  type Key = (nat, nat)   // device and block number

  datatype Buf = Buf(dev: nat, blockno: nat, valid: bool, dirty: bool, refcnt: nat, locked: bool, data: Block)
  function KeyOf(b: Buf): Key {
    (b.dev, b.blockno)
  }

  /** bget may reuse the buffer for another block. */
  predicate Eligible(b: Buf) {
    b.refcnt == 0 && !b.dirty
  }

  /** A block of a real device has one buffer at most; all buffers start out as block 0 of device 0. */
  ghost predicate Unique(bufs: seq<Buf>) {
    forall i, j :: 0 <= i < j < |bufs| && bufs[i].dev != 0 ==> KeyOf(bufs[i]) != KeyOf(bufs[j])
  }

  /** What one buffer says about its block. */
  ghost predicate BufOk(b: Buf, disk: map<Key, Block>, view: map<Key, Block>) {
    && (b.locked ==> b.refcnt > 0)
    && (b.dev == 0 ==> !b.valid && !b.dirty && b.refcnt == 0)
    && (b.dirty ==> b.valid)
    && (b.dev != 0 ==> KeyOf(b) in disk && KeyOf(b) in view)
    && (b.valid ==> view[KeyOf(b)] == b.data)
    && (b.valid && !b.dirty && !b.locked ==> b.data == disk[KeyOf(b)])
  }

  ghost predicate Cached(bufs: seq<Buf>, key: Key) {
    exists i :: 0 <= i < |bufs| && bufs[i].valid && KeyOf(bufs[i]) == key
  }

  /** view is the plain array of blocks the cache stands for: a valid buffer's data, else the disk. */
  ghost predicate CacheOk(bufs: seq<Buf>, disk: map<Key, Block>, view: map<Key, Block>) {
    && Unique(bufs) && disk.Keys == view.Keys
    && (forall i :: 0 <= i < |bufs| ==> BufOk(bufs[i], disk, view))
    && (forall key :: key in disk && !Cached(bufs, key) ==> view[key] == disk[key])
  }

  lemma FreshCache(disk: map<Key, Block>)
    ensures CacheOk(seq(NBUF, i => Buf(0, 0, false, false, 0, false, [])), disk, disk)
  {
  }

  lemma FreshList(next: seq<nat>)
    requires |next| == NBUF + 1 && next[NBUF] == NBUF
    ensures Building(next, next, [NBUF], 0)
  {
  }

  /** The list while binit is building it: the head and the first b buffers, the latest in front. */
  ghost predicate Building(next: seq<nat>, prev: seq<nat>, ring: seq<nat>, b: nat) {
    && |next| == |prev| == NBUF + 1 && Linked(next, prev, ring) && Distinct(ring) && |ring| > 0 && ring[0] == NBUF
    && (forall c :: c in ring <==> 0 <= c < b || c == NBUF)
    && (forall i :: 1 <= i < |ring| ==> ring[i] < NBUF)
    && (forall i, j :: 1 <= i < j < |ring| ==> ring[i] > ring[j])
  }

  lemma BuildNext(next: seq<nat>, prev: seq<nat>, ring: seq<nat>, b: nat)
    requires Building(next, prev, ring, b) && b < NBUF
    ensures |next| == |prev| == NBUF + 1 && |ring| > 0 && next[NBUF] <= NBUF
    ensures Building(next[b := next[NBUF]][NBUF := b], prev[b := NBUF][next[NBUF] := b], Push(ring, b), b + 1)
  {
    hide Linked;
    assert forall i :: 0 <= i < |ring| ==> ring[i] in ring;
    PushLinked(next, prev, ring, b);
    MembersPush(ring, b);
  }

  lemma Built(next: seq<nat>, prev: seq<nat>, ring: seq<nat>)
    requires Building(next, prev, ring, NBUF)
    ensures ListOk(next, prev, ring, seq(NBUF, i => i), NBUF, NBUF)
  {
    hide Linked;
  }

  class Cache {
    var next: seq<nat>
    var prev: seq<nat>
    var bufs: seq<Buf>
    var disk: map<Key, Block>          // the device, as the driver leaves it
    ghost var view: map<Key, Block>
    ghost var ring: seq<nat>
    ghost var stamp: seq<nat>          // when each buffer was last fully released
    ghost var clock: nat

    ghost predicate Valid()
      reads this
    {
      |bufs| == NBUF && ListOk(next, prev, ring, stamp, clock, NBUF) && CacheOk(bufs, disk, view)
    }

    /** binit. */
    constructor (disk: map<Key, Block>)
      ensures Valid() && view == this.disk == disk
    {
      hide CacheOk, Linked, ListOk, Building;
      FreshCache(disk);
      FreshList(seq(NBUF + 1, i => NBUF));
      this.disk, view := disk, disk;
      bufs := seq(NBUF, i => Buf(0, 0, false, false, 0, false, []));
      new;
      prev := seq(NBUF + 1, i => NBUF);
      next := seq(NBUF + 1, i => NBUF);
      stamp, clock, ring := seq(NBUF, i => i), NBUF, [NBUF];
      var b := 0;
      while b < NBUF
        invariant b <= NBUF && Building(next, prev, ring, b)
        invariant stamp == seq(NBUF, i => i) && clock == NBUF && this.disk == view == disk
        invariant bufs == seq(NBUF, i => Buf(0, 0, false, false, 0, false, []))
      {
        BuildNext(next, prev, ring, b);
        next := next[b := next[NBUF]];
        prev := prev[b := NBUF];
        prev := prev[next[NBUF] := b];
        next := next[NBUF := b];
        ring := Push(ring, b);
        b := b + 1;
      }
      Built(next, prev, ring);
    }

    /** The first loop of bget: the buffer of a block, if it has one. */
    method Lookup(dev: nat, blockno: nat) returns (r: Option<nat>)
      requires Valid()
      ensures r.Some? ==> r.value < NBUF && KeyOf(bufs[r.value]) == (dev, blockno)
      ensures r.None? ==> forall i :: 0 <= i < NBUF ==> KeyOf(bufs[i]) != (dev, blockno)
    {
      hide CacheOk, Linked, Recent;
      ghost var k := 0;
      ListStep(next, prev, ring, stamp, clock, NBUF, 0);
      var b := next[NBUF];
      k := Succ(0, |ring|);
      while b != NBUF
        invariant k < |ring| && b == ring[k]
        invariant forall i :: 1 <= i < (if k == 0 then |ring| else k) ==>
                    ring[i] < NBUF && KeyOf(bufs[ring[i]]) != (dev, blockno)
        decreases if k == 0 then 0 else |ring| - k
      {
        ListStep(next, prev, ring, stamp, clock, NBUF, k);
        if bufs[b].dev == dev && bufs[b].blockno == blockno {
          return Some(b);
        }
        b := next[b];
        k := Succ(k, |ring|);
      }
      ListStep(next, prev, ring, stamp, clock, NBUF, k);
      forall i | 0 <= i < NBUF
        ensures KeyOf(bufs[i]) != (dev, blockno)
      {
        assert i in ring;
        var j :| 0 <= j < |ring| && ring[j] == i;
      }
      return None;
    }

    /** The second loop of bget: the eligible buffer that was fully released longest ago. */
    method Victim() returns (r: Option<nat>)
      requires Valid()
      ensures r.Some? ==> r.value < NBUF && Eligible(bufs[r.value])
                          && forall i :: 0 <= i < NBUF && Eligible(bufs[i]) && i != r.value ==>
                               stamp[r.value] < stamp[i]
      ensures r.None? ==> forall i :: 0 <= i < NBUF ==> !Eligible(bufs[i])
    {
      hide CacheOk, Linked;
      ghost var k := |ring| - 1;
      ListStep(next, prev, ring, stamp, clock, NBUF, k);
      var b := prev[NBUF];
      while b != NBUF
        invariant 0 <= k < |ring| && b == ring[k]
        invariant forall i :: k < i < |ring| ==> ring[i] < NBUF && !Eligible(bufs[ring[i]])
        decreases k
      {
        ListStep(next, prev, ring, stamp, clock, NBUF, k);
        if bufs[b].refcnt == 0 && !bufs[b].dirty {
          forall i | 0 <= i < NBUF && Eligible(bufs[i]) && i != b
            ensures stamp[b] < stamp[i]
          {
            assert i in ring;
            var j :| 0 <= j < |ring| && ring[j] == i;
          }
          return Some(b);
        }
        ListStep(next, prev, ring, stamp, clock, NBUF, k - 1);
        b := prev[b];
        k := k - 1;
      }
      forall i | 0 <= i < NBUF
        ensures !Eligible(bufs[i])
      {
        assert i in ring;
        var j :| 0 <= j < |ring| && ring[j] == i;
      }
      return None;
    }

    /** bget's critical section: a buffer for the block, referenced; none is bget's panic. */
    method Bget(dev: nat, blockno: nat) returns (r: Option<nat>)
      requires Valid() && dev != 0 && (dev, blockno) in disk
      modifies this`bufs
      ensures Valid()
      ensures r.None? <==>
                forall i :: 0 <= i < NBUF ==> KeyOf(old(bufs)[i]) != (dev, blockno) && !Eligible(old(bufs)[i])
      ensures r.None? ==> bufs == old(bufs)
      ensures r.Some? ==> Got(old(bufs), bufs, stamp, r.value, (dev, blockno))
    {
      hide ListOk, CacheOk;
      r := Lookup(dev, blockno);
      if r.Some? {
        var b := r.value;
        Reference(bufs, disk, view, b);
        bufs := bufs[b := bufs[b].(refcnt := bufs[b].refcnt + 1)];
        return;
      }
      r := Victim();
      if r.Some? {
        var b := r.value;
        var nb := bufs[b].(dev := dev, blockno := blockno, valid := false, dirty := false, refcnt := 1);
        Recycle(bufs, disk, view, b, nb);
        bufs := bufs[b := nb];
      }
    }

    /** acquiresleep on a buffer, once it is free. */
    method Lock(b: nat)
      requires Valid() && b < NBUF && bufs[b].refcnt > 0 && !bufs[b].locked
      modifies this`bufs
      ensures Valid() && bufs == old(bufs)[b := old(bufs)[b].(locked := true)]
    {
      hide ListOk;
      var nb := bufs[b].(locked := true);
      UpdateBuf(bufs, disk, view, b, nb, disk, view);
      bufs := bufs[b := nb];
    }

    /** The driver, as memide.c does it: a dirty buffer is written, another one read. */
    method Iderw(b: nat)
      requires Valid() && b < NBUF && bufs[b].locked && !(bufs[b].valid && !bufs[b].dirty)
      modifies this`bufs, this`disk
      ensures Valid() && view == old(view)
      ensures var o := old(bufs)[b];
              if o.dirty then disk == old(disk)[KeyOf(o) := o.data] && bufs == old(bufs)[b := o.(dirty := false)]
              else disk == old(disk) && bufs == old(bufs)[b := o.(valid := true, data := disk[KeyOf(o)])]
    {
      hide ListOk;
      var o := bufs[b];
      assert BufOk(o, disk, view);
      if !o.valid { NotCached(bufs, disk, view, b); }
      var nb := if o.dirty then o.(valid := true, dirty := false) else o.(valid := true, data := disk[KeyOf(o)]);
      var ndisk := if o.dirty then disk[KeyOf(o) := o.data] else disk;
      UpdateBuf(bufs, disk, view, b, nb, ndisk, view);
      bufs, disk := bufs[b := nb], ndisk;
    }

    /** bread, where bget finds a buffer that is free: the buffer holds the block. */
    method Bread(dev: nat, blockno: nat) returns (r: Option<nat>)
      requires Valid() && dev != 0 && (dev, blockno) in disk
      requires forall i :: 0 <= i < NBUF && KeyOf(bufs[i]) == (dev, blockno) ==> !bufs[i].locked
      modifies this`bufs, this`disk
      ensures Valid() && view == old(view) && disk == old(disk) && (dev, blockno) in view
      ensures r.None? <==>
                forall i :: 0 <= i < NBUF ==> KeyOf(old(bufs)[i]) != (dev, blockno) && !Eligible(old(bufs)[i])
      ensures r.Some? ==> r.value < NBUF
      ensures r.Some? ==>
                var b := bufs[r.value];
                KeyOf(b) == (dev, blockno) && b.locked && b.valid && b.data == view[(dev, blockno)]
    {
      hide ListOk;
      r := Bget(dev, blockno);
      ListSizes(next, prev, ring, stamp, clock, NBUF);
      if r.Some? {
        var b := r.value;
        GotFree(old(bufs), bufs, stamp, b, (dev, blockno), disk, view);
        Lock(b);
        if !bufs[b].valid {
          Iderw(b);
        }
        assert BufOk(bufs[b], disk, view);
      }
    }

    /** The holder of a locked buffer changes its contents. */
    method Modify(b: nat, data: Block)
      requires Valid() && b < NBUF && bufs[b].locked && bufs[b].valid
      modifies this`bufs, this`view
      ensures Valid() && bufs == old(bufs)[b := old(bufs)[b].(data := data)]
      ensures view == old(view)[KeyOf(bufs[b]) := data]
    {
      hide ListOk;
      var nb := bufs[b].(data := data);
      ghost var nview := view[KeyOf(nb) := data];
      UpdateBuf(bufs, disk, view, b, nb, disk, nview);
      bufs, view := bufs[b := nb], nview;
    }

    /** log_write pins a buffer by marking it dirty. */
    method MarkDirty(b: nat)
      requires Valid() && b < NBUF && bufs[b].locked && bufs[b].valid
      modifies this`bufs
      ensures Valid() && bufs == old(bufs)[b := old(bufs)[b].(dirty := true)]
    {
      hide ListOk;
      var nb := bufs[b].(dirty := true);
      UpdateBuf(bufs, disk, view, b, nb, disk, view);
      bufs := bufs[b := nb];
    }

    /** bwrite: the block on disk is the buffer's. */
    method Bwrite(b: nat)
      requires Valid() && b < NBUF && bufs[b].locked && bufs[b].valid
      modifies this`bufs, this`disk
      ensures Valid() && view == old(view)
      ensures bufs == old(bufs)[b := old(bufs)[b].(dirty := false)]
      ensures disk == old(disk)[KeyOf(bufs[b]) := bufs[b].data]
    {
      hide ListOk, CacheOk;
      MarkDirty(b);
      Iderw(b);
    }

    /** The list surgery of brelse. */
    method ToFront(b: nat)
      requires ListOk(next, prev, ring, stamp, clock, NBUF) && b < NBUF
      modifies this`next, this`prev, this`ring, this`stamp, this`clock
      ensures ListOk(next, prev, ring, stamp, clock, NBUF) && stamp == old(stamp)[b := old(clock)]
      ensures |ring| > 1 && ring[1] == b
    {
      hide ListOk;
      ghost var k := PlaceOf(next, prev, ring, stamp, clock, NBUF, b);
      MoveFront(next, prev, ring, stamp, clock, NBUF, k);
      prev := prev[next[b] := prev[b]];
      next := next[prev[b] := next[b]];
      next := next[b := next[NBUF]];
      prev := prev[b := NBUF];
      prev := prev[next[NBUF] := b];
      next := next[NBUF := b];
      ring, stamp, clock := Push(Delete(ring, k), b), stamp[b := clock], clock + 1;
    }

    /** brelse, of a buffer that is as on disk or marked dirty. */
    method Brelse(b: nat)
      requires Valid() && b < NBUF && bufs[b].locked
      requires bufs[b].valid && !bufs[b].dirty ==> bufs[b].data == disk[KeyOf(bufs[b])]
      modifies this`bufs, this`next, this`prev, this`ring, this`stamp, this`clock
      ensures Valid() && bufs == old(bufs)[b := old(bufs)[b].(locked := false, refcnt := old(bufs)[b].refcnt - 1)]
      ensures bufs[b].refcnt == 0 ==> |ring| > 1 && ring[1] == b && stamp == old(stamp)[b := old(clock)]
      ensures bufs[b].refcnt > 0 ==> ring == old(ring) && stamp == old(stamp)
    {
      hide ListOk, CacheOk;
      OneBuf(bufs, disk, view, b);
      if !bufs[b].valid { NotCached(bufs, disk, view, b); }
      var nb := bufs[b].(locked := false, refcnt := bufs[b].refcnt - 1);
      UpdateBuf(bufs, disk, view, b, nb, disk, view);
      bufs := bufs[b := nb];
      if bufs[b].refcnt == 0 {
        ToFront(b);
      }
    }
  }

  /** What bget does: the block's buffer gets a reference, or the eligible buffer released longest ago becomes its
      buffer. */
  ghost predicate Got(bufs0: seq<Buf>, bufs: seq<Buf>, stamp: seq<nat>, b: nat, key: Key)
    requires |bufs0| == |bufs| == |stamp| == NBUF
  {
    && b < NBUF
    && if KeyOf(bufs0[b]) == key then bufs == bufs0[b := bufs0[b].(refcnt := bufs0[b].refcnt + 1)]
       else
         && (forall i :: 0 <= i < NBUF ==> KeyOf(bufs0[i]) != key)
         && Eligible(bufs0[b]) && (forall i :: 0 <= i < NBUF && Eligible(bufs0[i]) && i != b ==> stamp[b] < stamp[i])
         && bufs == bufs0[b := bufs0[b].(dev := key.0, blockno := key.1, valid := false, dirty := false, refcnt := 1)]
  }

  /** A change to one buffer that keeps its block, and to that block on disk and in the view. */
  lemma UpdateBuf(bufs: seq<Buf>, disk: map<Key, Block>, view: map<Key, Block>, b: nat, nb: Buf,
                  ndisk: map<Key, Block>, nview: map<Key, Block>)
    requires CacheOk(bufs, disk, view) && b < |bufs| && KeyOf(nb) == KeyOf(bufs[b]) && nb.dev != 0
    requires BufOk(nb, ndisk, nview) && ndisk.Keys == disk.Keys && nview.Keys == view.Keys
    requires forall key :: key in disk && key != KeyOf(nb) ==> ndisk[key] == disk[key] && nview[key] == view[key]
    requires !nb.valid ==> ndisk[KeyOf(nb)] == nview[KeyOf(nb)]
    ensures CacheOk(bufs[b := nb], ndisk, nview)
  {
    var nbufs := bufs[b := nb];
    forall i | 0 <= i < |bufs| && i != b
      ensures BufOk(nbufs[i], ndisk, nview)
    {
      assert BufOk(bufs[i], disk, view);
      assert bufs[i].dev != 0 ==> KeyOf(bufs[i]) != KeyOf(bufs[b]);
    }
    assert forall i, j :: 0 <= i < j < |bufs| && nbufs[i].dev != 0 ==> KeyOf(nbufs[i]) != KeyOf(nbufs[j]) by {
      assert forall i :: 0 <= i < |bufs| ==> KeyOf(nbufs[i]) == KeyOf(bufs[i]);
      assert forall i :: 0 <= i < |bufs| ==> nbufs[i].dev == bufs[i].dev;
    }
    hide Unique, BufOk;
    forall key | key in ndisk && !Cached(nbufs, key)
      ensures nview[key] == ndisk[key]
    {
      if key != KeyOf(nb) {
        forall i | 0 <= i < |bufs| && bufs[i].valid ensures KeyOf(bufs[i]) != key {
          if i != b { assert nbufs[i].valid; }
        }
      } else {
        assert nbufs[b] == nb;
      }
    }
  }

  lemma OneBuf(bufs: seq<Buf>, disk: map<Key, Block>, view: map<Key, Block>, b: nat)
    requires CacheOk(bufs, disk, view) && b < |bufs|
    ensures BufOk(bufs[b], disk, view) && (bufs[b].refcnt > 0 ==> bufs[b].dev != 0) && disk.Keys == view.Keys
  {
  }

  lemma NotCached(bufs: seq<Buf>, disk: map<Key, Block>, view: map<Key, Block>, b: nat)
    requires CacheOk(bufs, disk, view) && b < |bufs| && !bufs[b].valid && bufs[b].dev != 0
    ensures KeyOf(bufs[b]) in disk && KeyOf(bufs[b]) in view && view[KeyOf(bufs[b])] == disk[KeyOf(bufs[b])]
  {
    assert BufOk(bufs[b], disk, view);
    forall i | 0 <= i < |bufs| && bufs[i].valid
      ensures KeyOf(bufs[i]) != KeyOf(bufs[b])
    {
      assert BufOk(bufs[i], disk, view);
    }
  }

  lemma Reference(bufs: seq<Buf>, disk: map<Key, Block>, view: map<Key, Block>, b: nat)
    requires CacheOk(bufs, disk, view) && b < |bufs| && bufs[b].dev != 0
    ensures CacheOk(bufs[b := bufs[b].(refcnt := bufs[b].refcnt + 1)], disk, view)
  {
    assert BufOk(bufs[b], disk, view);
    if !bufs[b].valid { NotCached(bufs, disk, view, b); }
    UpdateBuf(bufs, disk, view, b, bufs[b].(refcnt := bufs[b].refcnt + 1), disk, view);
  }

  lemma Recycle(bufs: seq<Buf>, disk: map<Key, Block>, view: map<Key, Block>, b: nat, nb: Buf)
    requires CacheOk(bufs, disk, view) && b < |bufs| && Eligible(bufs[b])
    requires nb.dev != 0 && !nb.valid && !nb.dirty && nb.refcnt == 1 && KeyOf(nb) in disk
    requires forall i :: 0 <= i < |bufs| ==> KeyOf(bufs[i]) != KeyOf(nb)
    ensures CacheOk(bufs[b := nb], disk, view)
  {
    var nbufs := bufs[b := nb];
    assert BufOk(bufs[b], disk, view);
    assert BufOk(nb, disk, view);
    forall key | key in disk && !Cached(nbufs, key)
      ensures view[key] == disk[key]
    {
      forall i | 0 <= i < |bufs| && bufs[i].valid && i != b ensures KeyOf(bufs[i]) != key {
        assert nbufs[i].valid;
      }
      if bufs[b].valid && KeyOf(bufs[b]) == key {
        assert !bufs[b].locked;
      } else {
        assert !Cached(bufs, key);
      }
    }
  }

  lemma GotFree(bufs0: seq<Buf>, bufs: seq<Buf>, stamp: seq<nat>, b: nat, key: Key, disk: map<Key, Block>,
                view: map<Key, Block>)
    requires |bufs0| == |bufs| == |stamp| == NBUF && Got(bufs0, bufs, stamp, b, key) && CacheOk(bufs0, disk, view)
    requires forall i :: 0 <= i < NBUF && KeyOf(bufs0[i]) == key ==> !bufs0[i].locked
    ensures b < NBUF && !bufs[b].locked && bufs[b].refcnt > 0 && KeyOf(bufs[b]) == key
  {
    assert BufOk(bufs0[b], disk, view);
  }

  lemma ListSizes(next: seq<nat>, prev: seq<nat>, ring: seq<nat>, stamp: seq<nat>, clock: nat, n: nat)
    requires ListOk(next, prev, ring, stamp, clock, n)
    ensures |stamp| == n && |next| == |prev| == n + 1
  {
  }

  lemma PlaceOf(next: seq<nat>, prev: seq<nat>, ring: seq<nat>, stamp: seq<nat>, clock: nat, n: nat, b: nat)
      returns (k: nat)
    requires ListOk(next, prev, ring, stamp, clock, n) && b < n
    ensures 0 < k < |ring| && ring[k] == b && |next| == |prev| == n + 1 && |stamp| == n
  {
    assert b in ring;
    k :| 0 <= k < |ring| && ring[k] == b;
  }

  lemma ListStep(next: seq<nat>, prev: seq<nat>, ring: seq<nat>, stamp: seq<nat>, clock: nat, n: nat, k: nat)
    requires ListOk(next, prev, ring, stamp, clock, n) && k < |ring|
    ensures ring[k] <= n && |next| == |prev| == n + 1
    ensures next[ring[k]] == ring[Succ(k, |ring|)] <= n && prev[ring[Succ(k, |ring|)]] == ring[k]
    ensures ring[k] == n <==> k == 0
  {
    assert Link(next, prev, ring, k);
    assert ring[k] in ring && ring[Succ(k, |ring|)] in ring;
  }
}
