/**
 The interrupt-driven disk driver (ide.c) against the synchronous one (memide.c).  The device is
 given one request at a time, works on it, and then raises one interrupt; requests, the device and
 interrupts may follow each other in any order.
 */
module IdeQueue {
  import opened Common

  type Block = seq<nat>

  datatype Buf = Buf(blockno: nat, valid: bool, dirty: bool, data: Block)

  /** What the device is doing: nothing, a request, or waiting for the interrupt to be handled. */
  datatype Device = Quiet | Busy(write: bool, blockno: nat, out: Block) | Ready(latch: Block)

  // ----- The synchronous driver -----

  predicate NeedsWork(b: Buf) {
    !(b.valid && !b.dirty)
  }

  /** iderw of memide.c, with the panics for what needs no work and for blocks out of range as precondition. */
  function MemIde(b: Buf, disk: seq<Block>): (Buf, seq<Block>)
    requires NeedsWork(b) && b.blockno < |disk|
  {
    if b.dirty then (b.(dirty := false, valid := true), disk[b.blockno := b.data])
    else (b.(data := disk[b.blockno], valid := true), disk)
  }

  ghost predicate Requests(asked: seq<Buf>, n: nat) {
    forall i :: 0 <= i < |asked| ==> NeedsWork(asked[i]) && asked[i].blockno < n
  }

  /** The disk after the requests, one after the other. */
  ghost function MemIdeAll(asked: seq<Buf>, disk: seq<Block>): (r: seq<Block>)
    requires Requests(asked, |disk|)
    ensures |r| == |disk|
  {
    if asked == [] then disk
    else MemIde(asked[|asked| - 1], MemIdeAll(asked[..|asked| - 1], disk)).1
  }

  /** Unless a later request writes it, a block is as its own request left it. */
  lemma {:induction false} BlockStays(asked: seq<Buf>, disk: seq<Block>, k: nat)
    requires Requests(asked, |disk|) && k < |asked|
    requires forall i :: k < i < |asked| ==> asked[i].blockno != asked[k].blockno
    ensures MemIdeAll(asked, disk)[asked[k].blockno] == MemIdeAll(asked[..k + 1], disk)[asked[k].blockno]
    decreases |asked|
  {
    if k + 1 < |asked| {
      var shorter := asked[..|asked| - 1];
      BlockStays(shorter, disk, k);
      assert shorter[..k + 1] == asked[..k + 1];
    } else {
      assert asked[..k + 1] == asked;
    }
  }

  // ----- What is on the disk, said without either driver -----

  /** After the first n requests the data of block x is that of the last write to it, or what it was
      at first if there is none. */
  ghost predicate LastWritten(asked: seq<Buf>, n: nat, disk0: seq<Block>, x: nat, data: Block)
    requires n <= |asked| && x < |disk0|
  {
    || (data == disk0[x] && forall i :: 0 <= i < n ==> !Writes(asked[i], x))
    || exists k :: 0 <= k < n && Writes(asked[k], x) && data == asked[k].data
                   && forall i :: k < i < n ==> !Writes(asked[i], x)
  }

  predicate Writes(b: Buf, x: nat) {
    b.dirty && b.blockno == x
  }

  lemma {:induction false} DiskIsLastWritten(asked: seq<Buf>, n: nat, disk0: seq<Block>, x: nat)
    requires Requests(asked, |disk0|) && n <= |asked| && x < |disk0|
    ensures LastWritten(asked, n, disk0, x, MemIdeAll(asked[..n], disk0)[x])
    decreases n
  {
    if n > 0 {
      hide MemIdeAll;
      DiskIsLastWritten(asked, n - 1, disk0, x);
      OneMore(asked, disk0, n - 1);
      assert Writes(asked[n - 1], x) || MemIdeAll(asked[..n], disk0)[x] == MemIdeAll(asked[..n - 1], disk0)[x];
    }
  }

  // ----- The queue -----

  predicate Step(qnext: map<nat, Option<nat>>, queue: seq<nat>, i: nat)
    requires i < |queue|
  {
    queue[i] in qnext && qnext[queue[i]] == if i + 1 < |queue| then Some(queue[i + 1]) else None
  }

  /** Following qnext from the head visits the queue and stops. */
  ghost predicate Chain(head: Option<nat>, qnext: map<nat, Option<nat>>, queue: seq<nat>) {
    && head == (if queue == [] then None else Some(queue[0]))
    && (forall i :: 0 <= i < |queue| ==> Step(qnext, queue, i))
    && (forall i, j :: 0 <= i < j < |queue| ==> queue[i] != queue[j])
  }

  lemma Append(head: Option<nat>, qnext: map<nat, Option<nat>>, queue: seq<nat>, b: nat)
    requires Chain(head, qnext, queue) && b !in queue
    ensures queue == [] ==> Chain(Some(b), qnext[b := None], [b])
    ensures queue != [] ==> Chain(head, qnext[b := None][queue[|queue| - 1] := Some(b)], queue + [b])
  {
    if queue != [] {
      var q, last := queue + [b], queue[|queue| - 1];
      var qnext' := qnext[b := None][last := Some(b)];
      forall i | 0 <= i < |q|
        ensures Step(qnext', q, i)
      {
        if i < |queue| { assert Step(qnext, queue, i); }
      }
    }
  }

  lemma Pop(head: Option<nat>, qnext: map<nat, Option<nat>>, queue: seq<nat>)
    requires Chain(head, qnext, queue) && queue != []
    ensures queue[0] in qnext && Chain(qnext[queue[0]], qnext, queue[1..]) && queue[0] !in queue[1..]
  {
    assert Step(qnext, queue, 0);
    forall i | 0 <= i < |queue[1..]|
      ensures Step(qnext, queue[1..], i)
    {
      assert Step(qnext, queue, i + 1);
    }
  }

  // ----- What a completed request leaves in its buffer -----

  /** No later request is by the same buffer. */
  ghost predicate Latest(who: seq<nat>, k: nat) {
    k < |who| && forall i :: k < i < |who| ==> who[i] != who[k]
  }

  /** What the synchronous driver makes of the buffer of request k. */
  ghost function Result(asked: seq<Buf>, disk0: seq<Block>, k: nat): Buf
    requires Requests(asked, |disk0|) && k < |asked|
  {
    MemIde(asked[k], MemIdeAll(asked[..k], disk0)).0
  }

  /** A completed request's buffer holds its result until it is asked or changed again. */
  ghost predicate Results(asked: seq<Buf>, who: seq<nat>, done: nat, changed: set<nat>, bufs: map<nat, Buf>,
                          disk0: seq<Block>)
    requires Requests(asked, |disk0|) && done <= |asked|
  {
    forall k :: 0 <= k < done && Latest(who, k) && k !in changed ==>
      who[k] in bufs && bufs[who[k]] == Result(asked, disk0, k)
  }

  lemma RequestResults(asked: seq<Buf>, who: seq<nat>, done: nat, changed: set<nat>, bufs: map<nat, Buf>,
                       disk0: seq<Block>, b: nat)
    requires Requests(asked, |disk0|) && done <= |asked| == |who| && Results(asked, who, done, changed, bufs, disk0)
    requires b in bufs && NeedsWork(bufs[b]) && bufs[b].blockno < |disk0|
    ensures Requests(asked + [bufs[b]], |disk0|)
    ensures Results(asked + [bufs[b]], who + [b], done, changed, bufs, disk0)
  {
    hide MemIde, MemIdeAll;
    var asked', who' := asked + [bufs[b]], who + [b];
    forall k | 0 <= k < done && Latest(who', k) && k !in changed
      ensures who'[k] in bufs && bufs[who'[k]] == Result(asked', disk0, k)
    {
      LatestBefore(who, b, k);
      assert asked'[..k] == asked[..k] && asked'[k] == asked[k] && who'[k] == who[k];
    }
  }

  lemma InterruptResults(asked: seq<Buf>, who: seq<nat>, done: nat, changed: set<nat>, bufs: map<nat, Buf>,
                         disk0: seq<Block>, nb: Buf)
    requires Requests(asked, |disk0|) && done < |asked| == |who| && Results(asked, who, done, changed, bufs, disk0)
    requires nb == Result(asked, disk0, done)
    ensures Results(asked, who, done + 1, changed, bufs[who[done] := nb], disk0)
  {
    hide Result;
  }

  class Driver {
    var idequeue: Option<nat>
    var qnext: map<nat, Option<nat>>
    var bufs: map<nat, Buf>
    var device: Device
    var disk: seq<Block>
    ghost var queue: seq<nat>
    ghost var asked: seq<Buf>         // every request so far, as it was when made
    ghost var who: seq<nat>           // the buffer of each
    ghost var done: nat               // how many of them have completed
    ghost var changed: set<nat>       // completed requests whose buffer the holder has changed since
    ghost const disk0: seq<Block>

    /** The queue holds the requests not yet completed, in order, as they were made. */
    ghost predicate Pending()
      reads this
    {
      && |queue| == |asked| - done
      && (forall i :: 0 <= i < |queue| ==> queue[i] in bufs && bufs[queue[i]] == asked[done + i])
      && |who| == |asked| && queue == who[done..]
    }

    /** The device works on the head of the queue. */
    ghost predicate OnHead()
      reads this
      requires Pending() && Requests(asked, |disk|)
    {
      if queue == [] then device == Quiet
      else
        var b := asked[done];
        match device
        case Quiet => false
        case Busy(write, blockno, out) => write == b.dirty && blockno == b.blockno && (write ==> out == b.data)
        case Ready(latch) => !b.dirty ==> latch == disk[b.blockno]
    }

    /** How many requests the disk has seen. */
    ghost function Seen(): nat
      reads this
    {
      if device.Ready? then done + 1 else done
    }

    ghost predicate Valid()
      reads this
    {
      && |disk0| == |disk| && Requests(asked, |disk|) && done <= |asked|
      && Chain(idequeue, qnext, queue) && Pending() && OnHead()
      && Seen() <= |asked| && disk == MemIdeAll(asked[..Seen()], disk0)
      && Results(asked, who, done, changed, bufs, disk0)
    }

    constructor (bufs: map<nat, Buf>, disk: seq<Block>)
      ensures Valid() && queue == [] && asked == [] && this.bufs == bufs && this.disk == disk
    {
      idequeue, qnext, this.bufs, device, this.disk := None, map[], bufs, Quiet, disk;
      queue, asked, who, done, changed, disk0 := [], [], [], 0, {}, disk;
    }

    /** idestart: hand the buffer's request to the device; the data of a write goes along. */
    method Start(b: nat)
      requires b in bufs
      modifies this`device
      ensures device == Busy(bufs[b].dirty, bufs[b].blockno, if bufs[b].dirty then bufs[b].data else [])
    {
      device := Busy(bufs[b].dirty, bufs[b].blockno, if bufs[b].dirty then bufs[b].data else []);
    }

    /** The loop over pp in iderw: the last buffer in the queue. */
    method Last() returns (last: nat)
      requires Chain(idequeue, qnext, queue) && idequeue.Some?
      ensures queue != [] && last == queue[|queue| - 1]
    {
      last := idequeue.value;
      ghost var i := 0;
      assert Step(qnext, queue, 0);
      while qnext[last].Some?
        invariant i < |queue| && last == queue[i] && last in qnext && Step(qnext, queue, i)
        decreases |queue| - i
      {
        assert Step(qnext, queue, i + 1);
        last := qnext[last].value;
        i := i + 1;
      }
    }

    /** Append b to the queue. */
    method Enqueue(b: nat)
      requires Chain(idequeue, qnext, queue) && b !in queue
      modifies this`idequeue, this`qnext, this`queue
      ensures Chain(idequeue, qnext, queue) && queue == old(queue) + [b]
      ensures idequeue == Some(b) <==> old(queue) == []
    {
      Append(idequeue, qnext, queue, b);
      Fresh(idequeue, qnext, queue, b);
      qnext := qnext[b := None];
      if idequeue.None? {
        idequeue := Some(b);
      } else {
        var last := Last();
        qnext := qnext[last := Some(b)];
      }
      queue := queue + [b];
    }

    /** iderw up to its waiting loop. */
    method Request(b: nat)
      requires Valid() && b in bufs && b !in queue && NeedsWork(bufs[b]) && bufs[b].blockno < |disk|
      modifies this`idequeue, this`qnext, this`device, this`queue, this`asked, this`who
      ensures Valid() && queue == old(queue) + [b] && asked == old(asked) + [bufs[b]] && who == old(who) + [b]
    {
      hide Chain, MemIdeAll, Results;
      assert (asked + [bufs[b]])[..Seen()] == asked[..Seen()];
      RequestResults(asked, who, done, changed, bufs, disk0, b);
      Enqueue(b);
      asked, who := asked + [bufs[b]], who + [b];
      if idequeue == Some(b) {
        Start(b);
      }
    }

    /** The holder of a buffer changes it between requests. */
    method Modify(b: nat, nb: Buf)
      requires Valid() && b !in queue
      modifies this`bufs, this`changed
      ensures Valid() && bufs == old(bufs)[b := nb]
      ensures changed == old(changed) + set k | 0 <= k < done && who[k] == b
    {
      hide Chain, MemIdeAll;
      bufs := bufs[b := nb];
      changed := changed + set k | 0 <= k < done && who[k] == b;
    }

    /** The test of iderw's waiting loop: it does not end while the request is queued. */
    method Finished(b: nat) returns (r: bool)
      requires Valid() && b in bufs
      ensures r ==> b !in queue && bufs[b].valid && !bufs[b].dirty
      ensures b !in queue && bufs[b].valid && !bufs[b].dirty ==> r
    {
      r := bufs[b].valid && !bufs[b].dirty;
      if b in queue {
        ghost var i :| 0 <= i < |queue| && queue[i] == b;
        assert NeedsWork(asked[done + i]);
      }
    }

    /** The device finishes: a write is on the disk, a read is latched, and the interrupt is raised. */
    method Work()
      requires Valid() && device.Busy?
      modifies this`device, this`disk
      ensures Valid() && device.Ready?
    {
      var Busy(write, blockno, out) := device;
      assert asked[..done + 1][..done] == asked[..done];
      if write {
        disk := disk[blockno := out];
        device := Ready([]);
      } else {
        device := Ready(disk[blockno]);
      }
    }

    /** ideintr: the head of the queue is complete, and the device gets the next request. */
    method Interrupt()
      requires Valid() && !device.Busy?
      modifies this`idequeue, this`bufs, this`device, this`queue, this`done
      ensures Valid()
      ensures old(queue) == [] ==> queue == [] && done == old(done) && bufs == old(bufs)
      ensures old(queue) != [] ==> queue == old(queue)[1..] && done == old(done) + 1 && AsMemIde(old(queue)[0])
      ensures old(queue) != [] ==> bufs == old(bufs)[old(queue)[0] := bufs[old(queue)[0]]]
    {
      hide Chain, MemIdeAll, Requests, MemIde, Results;
      HeadOf(idequeue, qnext, queue);
      if idequeue.None? {
        return;
      }
      Pop(idequeue, qnext, queue);
      var b := idequeue.value;
      idequeue := qnext[b];
      HeadOf(idequeue, qnext, queue[1..]);
      OneMore(asked, disk0, done);
      MemIdeBuf(asked[done], MemIdeAll(asked[..done], disk0));
      assert who[done..][1..] == who[done + 1..] && b == who[done];
      var nb := bufs[b];
      if !nb.dirty {
        nb := nb.(data := device.latch);
      }
      nb := nb.(valid := true, dirty := false);
      InterruptResults(asked, who, done, changed, bufs, disk0, nb);
      bufs := bufs[b := nb];
      queue, done := queue[1..], done + 1;
      if idequeue.Some? {
        Start(idequeue.value);
      } else {
        device := Quiet;
      }
    }

    /** Request number done - 1, by buffer b, left buffer and disk as the synchronous driver does. */
    ghost predicate AsMemIde(b: nat)
      reads this
    {
      && 0 < done <= |asked| && |disk0| == |disk| && Requests(asked, |disk|) && b in bufs
      && var before := MemIdeAll(asked[..done - 1], disk0);
         (bufs[b], disk) == MemIde(asked[done - 1], before)
    }
  }

  lemma LatestBefore(who: seq<nat>, b: nat, k: nat)
    requires Latest(who + [b], k) && k < |who|
    ensures Latest(who, k) && who[k] != b
  {
    var who' := who + [b];
    assert who'[|who|] == b;
    forall i | k < i < |who| ensures who[i] != who[k] {
      assert who'[i] == who[i];
    }
  }

  lemma MemIdeBuf(b: Buf, disk: seq<Block>)
    requires NeedsWork(b) && b.blockno < |disk|
    ensures MemIde(b, disk).0 == b.(data := if b.dirty then b.data else disk[b.blockno], valid := true, dirty := false)
    ensures !b.dirty ==> MemIde(b, disk).1 == disk
  {
  }

  lemma HeadOf(head: Option<nat>, qnext: map<nat, Option<nat>>, queue: seq<nat>)
    requires Chain(head, qnext, queue)
    ensures head == (if queue == [] then None else Some(queue[0]))
  {
  }

  lemma OneMore(asked: seq<Buf>, disk: seq<Block>, k: nat)
    requires Requests(asked, |disk|) && k < |asked|
    ensures Requests(asked[..k], |disk|) && Requests(asked[..k + 1], |disk|) && NeedsWork(asked[k]) &&
            asked[k].blockno < |disk|
    ensures MemIdeAll(asked[..k + 1], disk) == MemIde(asked[k], MemIdeAll(asked[..k], disk)).1
  {
    hide MemIde, NeedsWork;
    var s := asked[..k + 1];
    assert |s| - 1 == k && s[k] == asked[k] && s[..k] == asked[..k];
    assert forall i :: 0 <= i < k + 1 ==> s[i] == asked[i];
    assert MemIdeAll(s, disk) == MemIde(s[k], MemIdeAll(s[..k], disk)).1;
  }

  /** When iderw returns, its block on disk is as the synchronous driver would have left it, provided
      no other request for the block has been made since (the cache has one buffer for a block); and
      so is its buffer, until it is changed or asked again. */
  lemma Returned(d: Driver, k: nat)
    requires d.Valid() && k < d.done
    ensures var b := d.asked[k];
            var before := MemIdeAll(d.asked[..k], d.disk0);
            && ((forall i :: k < i < |d.asked| ==> d.asked[i].blockno != b.blockno) ==>
                  d.disk[b.blockno] == MemIde(b, before).1[b.blockno] == MemIde(b, before).0.data)
            && (Latest(d.who, k) && k !in d.changed ==>
                  d.who[k] in d.bufs && d.bufs[d.who[k]] == MemIde(b, before).0)
  {
    if forall i :: k < i < |d.asked| ==> d.asked[i].blockno != d.asked[k].blockno {
      BlockStays(d.asked[..d.Seen()], d.disk0, k);
      assert d.asked[..d.Seen()][..k + 1] == d.asked[..k + 1];
      OneMore(d.asked, d.disk0, k);
    }
  }

  /** Every block of the disk is as the last write that the device has seen left it; a completed request
      has made its buffer valid and clean, a write keeps the buffer's data, and a read has got the data
      of the last write asked for before it. */
  lemma Served(d: Driver)
    requires d.Valid()
    ensures forall x: nat :: x < |d.disk| ==> LastWritten(d.asked, d.Seen(), d.disk0, x, d.disk[x])
    ensures forall k :: 0 <= k < d.done && Latest(d.who, k) && k !in d.changed ==>
              && d.who[k] in d.bufs
              && var b, a := d.bufs[d.who[k]], d.asked[k];
                 && b.blockno == a.blockno < |d.disk0| && b.valid && !b.dirty
                 && (a.dirty ==> b.data == a.data)
                 && (!a.dirty ==> LastWritten(d.asked, k, d.disk0, a.blockno, b.data))
  {
    hide MemIdeAll, LastWritten, Chain;
    forall x: nat | x < |d.disk|
      ensures LastWritten(d.asked, d.Seen(), d.disk0, x, d.disk[x])
    {
      DiskIsLastWritten(d.asked, d.Seen(), d.disk0, x);
    }
    forall k | 0 <= k < d.done
      ensures d.asked[k].blockno < |d.disk0|
      ensures LastWritten(d.asked, k, d.disk0, d.asked[k].blockno,
                          MemIdeAll(d.asked[..k], d.disk0)[d.asked[k].blockno])
    {
      DiskIsLastWritten(d.asked, k, d.disk0, d.asked[k].blockno);
    }
  }

  lemma Fresh(head: Option<nat>, qnext: map<nat, Option<nat>>, queue: seq<nat>, b: nat)
    requires Chain(head, qnext, queue) && b !in queue
    ensures Chain(head, qnext[b := None], queue)
  {
    var qnext' := qnext[b := None];
    forall i | 0 <= i < |queue|
      ensures Step(qnext', queue, i)
    {
      assert Step(qnext, queue, i);
    }
  }
}
