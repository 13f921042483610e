/**
 The write-ahead log of log.c as a machine whose steps interleave the system calls of
 any number of processes, the block writes of the committing process, cache eviction
 and crashes.  Every block write to the disk is a step of its own, so a crash may fall
 between any two of them, also inside recovery.
 */
module Journal {
  import opened Common

  const MAXOPBLOCKS := 10
  const LOGSIZE := 30

  type Block = b: seq<nat> | |b| == 128 witness seq(128, i => 0)

  /** log.start, log.size and the number of blocks on the device. */
  datatype Geometry = Geometry(start: nat, size: nat, nblocks: nat)

  datatype Holder = Free | Held(pid: nat)

  /** A valid buffer: `dirty` is B_DIRTY, `raw` says that the holder changed the data
      and has not called log_write since. */
  datatype Buf = Buf(data: Block, dirty: bool, holder: Holder, raw: bool)

  /** Where the process inside commit() or recover_from_log() stands. */
  datatype Pc = Idle | WriteLog(i: nat) | WriteHead | Install(i: nat) | Clear | Finish | ReadHead

  datatype Kernel = Kernel(
    geo: Geometry,
    disk: seq<Block>,
    cache: map<nat, Buf>,
    lh: seq<nat>,
    outstanding: nat,
    committing: bool,
    pc: Pc,
    booted: bool)

  /** Inside log_write: the tests at its head passed, log.lock not yet taken. */
  datatype Call = Outside | Passed(b: nat)

  /** A file system operation between begin_op and end_op, with the log_write calls it made. */
  datatype Op = Op(id: nat, used: nat, call: Call)

  datatype Write = Write(op: nat, block: nat, data: Block)

  /** The kernel together with its history: the disk it was first booted from, the operations
      in progress, every surviving log_write in order, and how many of them are durable. */
  datatype World = World(
    k: Kernel,
    origin: seq<Block>,
    active: map<nat, Op>,
    nextOp: nat,
    writes: seq<Write>,
    cut: nat)

  datatype Event =
    | EvBeginOp(p: nat)
    | EvBread(p: nat, b: nat)
    | EvModify(p: nat, b: nat, data: Block)
    | EvLogGuard(p: nat, b: nat)    // log_write reads lh.n and outstanding without the lock
    | EvLogAppend(p: nat, b: nat)   // and records the block under it
    | EvBrelse(p: nat, b: nat)
    | EvEndOp(p: nat)
    | EvAdvance
    | EvEvict(b: nat)
    | EvCrash

  // ----- Disk layout -----

  predicate GeoOk(geo: Geometry) {
    2 <= geo.size && geo.start + geo.size <= geo.nblocks
  }

  predicate InLog(geo: Geometry, b: nat) {
    geo.start <= b < geo.start + geo.size
  }

  predicate Home(geo: Geometry, b: nat) {
    b < geo.nblocks && !InLog(geo, b)
  }

  /** The block numbers recorded in a header block. */
  function HeadOf(blk: Block): seq<nat> {
    if blk[0] <= LOGSIZE then blk[1..1 + blk[0]] else []
  }

  /** write_head stores the count and the first entries; what lies behind them stays. */
  function SetHead(blk: Block, lh: seq<nat>): Block
    requires |lh| <= LOGSIZE
  {
    [|lh|] + lh + blk[1 + |lh|..]
  }

  predicate HeadOk(geo: Geometry, lh: seq<nat>) {
    && |lh| <= LOGSIZE && |lh| <= geo.size - 1
    && (forall i :: 0 <= i < |lh| ==> Home(geo, lh[i]))
    && (forall i, j :: 0 <= i < j < |lh| ==> lh[i] != lh[j])
  }

  /** The disk after copying the logged blocks from slot `i` on to their home locations. */
  function InstallFrom(geo: Geometry, disk: seq<Block>, lh: seq<nat>, i: nat): seq<Block>
    requires i <= |lh|
    decreases |lh| - i
  {
    if i == |lh| then disk
    else if lh[i] < |disk| && geo.start + 1 + i < |disk| then
      InstallFrom(geo, disk[lh[i] := disk[geo.start + 1 + i]], lh, i + 1)
    else disk
  }

  /** What the next boot makes of the disk. */
  function Recovered(geo: Geometry, disk: seq<Block>): seq<Block> {
    if geo.start < |disk| then InstallFrom(geo, disk, HeadOf(disk[geo.start]), 0) else disk
  }

  ghost predicate SameHome(geo: Geometry, a: seq<Block>, b: seq<Block>) {
    |a| == |b| == geo.nblocks && forall i: nat {:trigger Home(geo, i)} :: Home(geo, i) ==> a[i] == b[i]
  }

  /** The file system that results from a list of logged writes. */
  function Replay(base: seq<Block>, ws: seq<Write>): (r: seq<Block>)
    ensures |r| == |base|
  {
    if ws == [] then base
    else
      var last := ws[|ws| - 1];
      var r := Replay(base, ws[..|ws| - 1]);
      if last.block < |r| then r[last.block := last.data] else r
  }

  function Current(w: World): (r: seq<Block>)
    ensures |r| == |w.origin|
  {
    Replay(w.origin, w.writes)
  }

  function Durable(w: World): (r: seq<Block>)
    requires w.cut <= |w.writes|
    ensures |r| == |w.origin|
  {
    Replay(w.origin, w.writes[..w.cut])
  }

  // ----- Buffer cache as log.c uses it -----

  function Content(k: Kernel, b: nat): Block
    requires b < |k.disk|
  {
    if b in k.cache then k.cache[b].data else k.disk[b]
  }

  function Fill(k: Kernel, b: nat): Kernel
    requires b < |k.disk|
  {
    if b in k.cache then k else k.(cache := k.cache[b := Buf(k.disk[b], false, Free, false)])
  }

  /** bread(b); replace the data; bwrite; brelse. */
  function PutBlock(k: Kernel, b: nat, data: Block): Kernel
    requires b < |k.disk|
  {
    k.(cache := k.cache[b := Buf(data, false, Free, false)], disk := k.disk[b := data])
  }

  predicate Unheld(k: Kernel, b: nat) {
    b in k.cache ==> k.cache[b].holder.Free?
  }

  /** Buffers that bget cannot take for another block. */
  function Pins(cache: map<nat, Buf>): set<nat> {
    set b | b in cache && (cache[b].dirty || cache[b].holder.Held?)
  }

  // ----- The committing (or recovering) process -----

  /** Slot i of the log, which need not be inside the log area, and its home block are there and free. */
  predicate CanCopy(k: Kernel, i: nat) {
    && i < |k.lh| && k.lh[i] < |k.disk| && k.geo.start + 1 + i < |k.disk|
    && Unheld(k, k.lh[i]) && Unheld(k, k.geo.start + 1 + i)
  }

  /** The blocks whose buffers the next step holds at the same time. */
  function Needs(k: Kernel): set<nat> {
    match k.pc
    case WriteLog(i) => Copies(k, i)
    case Install(i) => Copies(k, i)
    case Idle => {}
    case Finish => {}
    case _ => {k.geo.start}
  }

  function Copies(k: Kernel, i: nat): set<nat> {
    if i < |k.lh| then {k.lh[i], k.geo.start + 1 + i} else {}
  }

  /** Each buffer the next step needs is there, or there is an unused one for it. */
  predicate HasBuffers(k: Kernel) {
    |k.cache.Keys + Needs(k)| <= NBUF
  }

  predicate CanAdvance(k: Kernel) {
    && GeoOk(k.geo) && |k.disk| == k.geo.nblocks && |k.lh| <= LOGSIZE
    && Unheld(k, k.geo.start) && HasBuffers(k)
    && match k.pc
       case Idle => false
       case WriteLog(i) => CanCopy(k, i)
       case WriteHead => true
       case Install(i) => CanCopy(k, i)
       case Clear => true
       case Finish => true
       case ReadHead => true
  }

  function InstallPc(i: nat, lh: seq<nat>): Pc {
    if i < |lh| then Install(i) else Clear
  }

  /** One step of commit() or recover_from_log(): at most one block reaches the disk. */
  function Advance(k: Kernel): Kernel
    requires CanAdvance(k)
  {
    match k.pc
    case WriteLog(i) =>
      var k1 := Fill(k, k.lh[i]);
      var k2 := PutBlock(k1, k.geo.start + 1 + i, Content(k1, k.lh[i]));
      k2.(pc := if i + 1 < |k.lh| then WriteLog(i + 1) else WriteHead)
    case WriteHead =>
      PutBlock(k, k.geo.start, SetHead(Content(k, k.geo.start), k.lh)).(pc := InstallPc(0, k.lh))
    case Install(i) =>
      var k1 := Fill(k, k.geo.start + 1 + i);
      PutBlock(k1, k.lh[i], Content(k1, k.geo.start + 1 + i)).(pc := InstallPc(i + 1, k.lh))
    case Clear =>
      PutBlock(k, k.geo.start, SetHead(Content(k, k.geo.start), [])).(lh := [], pc := Finish)
    case Finish =>
      k.(committing := false, booted := true, pc := Idle)
    case ReadHead =>
      var k1 := Fill(k, k.geo.start);
      var lh := HeadOf(Content(k1, k.geo.start));
      k1.(lh := lh, pc := InstallPc(0, lh))
    case Idle => k
  }

  /** Power failure: only the disk survives, and the next thing to run is recovery. */
  function Reboot(k: Kernel): Kernel {
    k.(cache := map[], lh := [], outstanding := 0, committing := false, pc := ReadHead, booted := false)
  }

  // ----- Operations -----

  predicate Holds(k: Kernel, p: nat, b: nat) {
    b in k.cache && k.cache[b].holder == Held(p)
  }

  /** The two tests of begin_op that make it sleep. */
  predicate Admits(k: Kernel) {
    !k.committing && |k.lh| + (k.outstanding + 1) * MAXOPBLOCKS <= LOGSIZE
  }

  /** The test of log_write whose failure is "too big a transaction". */
  predicate LogHasRoom(k: Kernel) {
    |k.lh| < LOGSIZE && |k.lh| < k.geo.size - 1
  }

  function Absorb(lh: seq<nat>, b: nat): seq<nat> {
    if b in lh then lh else lh + [b]
  }

  /** Everything that must hold for log_write except its own panic tests. */
  predicate MayLogWrite(w: World, p: nat, b: nat) {
    w.k.booted && InOp(w, p) && w.active[p].used < MAXOPBLOCKS && Holds(w.k, p, b) && Home(w.k.geo, b)
  }

  /** p is in an operation and not inside log_write. */
  predicate InOp(w: World, p: nat) {
    p in w.active && w.active[p].call == Outside
  }

  predicate NotLogging(w: World, p: nat) {
    p in w.active ==> w.active[p].call == Outside
  }

  predicate Enabled(w: World, e: Event) {
    match e
    case EvBeginOp(p) => w.k.booted && p !in w.active && Admits(w.k)
    case EvBread(p, b) =>
      && w.k.booted && b < |w.k.disk| && Home(w.k.geo, b) && Unheld(w.k, b) && NotLogging(w, p)
      && (b in w.k.cache || |w.k.cache| < NBUF)   // else bget panics, unless EvEvict comes first
    case EvModify(p, b, data) =>
      w.k.booted && InOp(w, p) && Holds(w.k, p, b)
    case EvLogGuard(p, b) => MayLogWrite(w, p, b) && LogHasRoom(w.k) && w.k.outstanding >= 1
    case EvLogAppend(p, b) => p in w.active && w.active[p].call == Passed(b) && b in w.k.cache
    case EvBrelse(p, b) => w.k.booted && Holds(w.k, p, b) && !w.k.cache[b].raw && NotLogging(w, p)
    case EvEndOp(p) =>
      && w.k.booted && InOp(w, p) && w.k.outstanding > 0
      && forall b :: b in w.k.cache && w.k.cache[b].raw ==> !Holds(w.k, p, b)
    case EvAdvance => CanAdvance(w.k)
    case EvEvict(b) =>
      b in w.k.cache && !w.k.cache[b].dirty && w.k.cache[b].holder.Free?
    case EvCrash => w.cut <= |w.writes|
  }

  function Apply(w: World, e: Event): World
    requires Enabled(w, e)
  {
    var k := w.k;
    match e
    case EvBeginOp(p) =>
      w.(k := k.(outstanding := k.outstanding + 1),
         active := w.active[p := Op(w.nextOp, 0, Outside)],
         nextOp := w.nextOp + 1)
    case EvBread(p, b) =>
      var k1 := Fill(k, b);
      w.(k := k1.(cache := k1.cache[b := k1.cache[b].(holder := Held(p))]))
    case EvModify(p, b, data) =>
      w.(k := k.(cache := k.cache[b := k.cache[b].(data := data, raw := true)]))
    case EvLogGuard(p, b) =>
      w.(active := w.active[p := w.active[p].(call := Passed(b))])
    case EvLogAppend(p, b) =>
      w.(k := k.(lh := Absorb(k.lh, b), cache := k.cache[b := k.cache[b].(dirty := true, raw := false)]),
         active := w.active[p := w.active[p].(used := w.active[p].used + 1, call := Outside)],
         writes := w.writes + [Write(w.active[p].id, b, k.cache[b].data)])
    case EvBrelse(p, b) =>
      w.(k := k.(cache := k.cache[b := k.cache[b].(holder := Free)]))
    case EvEndOp(p) =>
      var last := k.outstanding == 1;
      w.(k := k.(outstanding := k.outstanding - 1,
                 committing := last,
                 pc := if !last then k.pc else if |k.lh| > 0 then WriteLog(0) else Finish),
         active := w.active - {p})
    case EvAdvance =>
      w.(k := Advance(k), cut := if k.pc.WriteHead? then |w.writes| else w.cut)
    case EvEvict(b) =>
      w.(k := k.(cache := k.cache - {b}))
    case EvCrash =>
      w.(k := Reboot(k), active := map[], writes := w.writes[..w.cut])
  }

  predicate Runs(w: World, es: seq<Event>)
    decreases |es|
  {
    es == [] || (Enabled(w, es[0]) && Runs(Apply(w, es[0]), es[1..]))
  }

  function After(w: World, es: seq<Event>): World
    requires Runs(w, es)
    decreases |es|
  {
    if es == [] then w else After(Apply(w, es[0]), es[1..])
  }

  // ----- The invariant -----

  /** The disk is one recovery away from the file system v. */
  ghost predicate LogGood(geo: Geometry, disk: seq<Block>, v: seq<Block>) {
    && GeoOk(geo) && |disk| == |v| == geo.nblocks
    && disk[geo.start][0] <= LOGSIZE
    && var h := HeadOf(disk[geo.start]);
    && HeadOk(geo, h)
    && (forall j :: 0 <= j < |h| ==> disk[geo.start + 1 + j] == v[h[j]])
    && (forall b: nat {:trigger Home(geo, b)} :: Home(geo, b) && b !in h ==> disk[b] == v[b])
  }

  /** Clean buffers equal the disk, settled ones the current file system v; only blocks of lh
      are pinned, and only buffers held by an operation carry unlogged changes. */
  ghost predicate CacheInv(geo: Geometry, disk: seq<Block>, cache: map<nat, Buf>, lh: seq<nat>,
                           v: seq<Block>, ops: map<nat, Op>)
    requires |disk| == |v| == geo.nblocks
  {
    && (forall b :: b in cache ==> b < geo.nblocks)
    && (forall b :: b in cache && InLog(geo, b) ==> !cache[b].dirty && !cache[b].raw && cache[b].holder.Free?)
    && (forall b :: b in cache && !cache[b].dirty && !cache[b].raw ==> cache[b].data == disk[b])
    && (forall b :: b in cache && cache[b].dirty ==> b in lh)
    && (forall b :: b in cache && cache[b].raw ==> cache[b].holder.Held? && cache[b].holder.pid in ops)
    && (forall b :: b in cache && Home(geo, b) && !cache[b].raw ==> cache[b].data == v[b])
  }

  /** A block that is not cached can be read from the disk. */
  ghost predicate Absent(geo: Geometry, disk: seq<Block>, cache: map<nat, Buf>, v: seq<Block>)
    requires |disk| == |v| == geo.nblocks
  {
    forall b: nat {:trigger Home(geo, b)} :: Home(geo, b) && b !in cache ==> disk[b] == v[b]
  }

  ghost predicate OpsInv(geo: Geometry, active: map<nat, Op>, nextOp: nat,
                         writes: seq<Write>, cut: nat)
  {
    && cut <= |writes|
    && (forall p, q :: p in active && q in active && p != q ==> active[p].id != active[q].id)
    && (forall p :: p in active ==> active[p].id < nextOp)
    && (forall i :: 0 <= i < |writes| ==> writes[i].op < nextOp && Home(geo, writes[i].block))
    && (forall i, p :: 0 <= i < cut && p in active ==> writes[i].op != active[p].id)
    && WholeOps(writes, cut)
  }

  /** No operation has writes on both sides of the cut. */
  ghost predicate WholeOps(ws: seq<Write>, cut: nat)
    requires cut <= |ws|
  {
    forall i, j :: 0 <= i < cut <= j < |ws| ==> ws[i].op != ws[j].op
  }

  ghost predicate Pinned(cache: map<nat, Buf>, lh: seq<nat>) {
    forall i :: 0 <= i < |lh| ==> lh[i] in cache && cache[lh[i]].dirty
  }

  /** Every write behind the cut has its block in lh. */
  ghost predicate Pending(lh: seq<nat>, writes: seq<Write>, cut: nat) {
    forall j :: cut <= j < |writes| ==> writes[j].block in lh
  }

  /** The first n logged blocks are home again, and no longer pinned. */
  ghost predicate Installed(geo: Geometry, disk: seq<Block>, cache: map<nat, Buf>, lh: seq<nat>,
                            v: seq<Block>, n: nat)
    requires |disk| == |v| == geo.nblocks && HeadOk(geo, lh) && n <= |lh|
  {
    && (forall j :: 0 <= j < n ==> disk[lh[j]] == v[lh[j]])
    && (forall j :: 0 <= j < n && lh[j] in cache ==> !cache[lh[j]].dirty)
  }

  /** The first n logged blocks have reached their log slots. */
  ghost predicate Copied(geo: Geometry, disk: seq<Block>, lh: seq<nat>, v: seq<Block>, n: nat)
    requires |disk| == |v| == geo.nblocks && GeoOk(geo) && HeadOk(geo, lh) && n <= |lh|
  {
    forall j :: 0 <= j < n ==> disk[geo.start + 1 + j] == v[lh[j]]
  }

  /** Blocks that are not in the in-memory log are up to date on the disk. */
  ghost predicate RestClean(geo: Geometry, disk: seq<Block>, lh: seq<nat>, v: seq<Block>)
    requires |disk| == |v| == geo.nblocks
  {
    forall b: nat {:trigger Home(geo, b)} :: Home(geo, b) && b !in lh ==> disk[b] == v[b]
  }

  /** What the program counter of commit() and recover_from_log() says about disk and cache;
      v is the file system with every logged write, d the durable one. */
  ghost predicate PcInv(k: Kernel, v: seq<Block>, d: seq<Block>)
    requires |k.disk| == |v| == |d| == k.geo.nblocks && GeoOk(k.geo) && HeadOk(k.geo, k.lh)
  {
    var head := HeadOf(k.disk[k.geo.start]);
    match k.pc
    case Idle => k.booted && !k.committing && head == [] && Pinned(k.cache, k.lh)
    case WriteLog(i) =>
      && k.booted && k.committing && head == [] && Pinned(k.cache, k.lh)
      && i < |k.lh| && Copied(k.geo, k.disk, k.lh, v, i)
    case WriteHead =>
      && k.booted && k.committing && head == [] && Pinned(k.cache, k.lh)
      && Copied(k.geo, k.disk, k.lh, v, |k.lh|)
    case Install(i) =>
      && (k.booted ==> k.committing) && v == d && head == k.lh
      && i < |k.lh| && Installed(k.geo, k.disk, k.cache, k.lh, v, i)
    case Clear =>
      (k.booted ==> k.committing) && v == d && head == k.lh && Installed(k.geo, k.disk, k.cache, k.lh, v, |k.lh|)
    case Finish => (k.booted ==> k.committing) && v == d && head == [] && k.lh == []
    case ReadHead => !k.booted && v == d && k.lh == [] && k.cache == map[]
  }

  ghost predicate KInv(k: Kernel, v: seq<Block>, d: seq<Block>, ops: map<nat, Op>) {
    && GeoOk(k.geo) && |k.disk| == |v| == |d| == k.geo.nblocks
    && HeadOk(k.geo, k.lh)
    && (k.committing || !k.booted ==> ops == map[])
    && LogGood(k.geo, k.disk, d)
    && CacheInv(k.geo, k.disk, k.cache, k.lh, v, ops)
    && (k.booted ==> Absent(k.geo, k.disk, k.cache, v))
    && (k.pc.ReadHead? || RestClean(k.geo, k.disk, k.lh, v))
    && PcInv(k, v, d)
  }

  /** From the commit point on nothing is pending; before it all pending blocks are in lh. */
  ghost predicate CutInv(pc: Pc, lh: seq<nat>, writes: seq<Write>, cut: nat) {
    if pc.Idle? || pc.WriteLog? || pc.WriteHead? then Pending(lh, writes, cut) else cut == |writes|
  }

  /** A process inside log_write holds the block it logs. */
  ghost predicate Calls(k: Kernel, active: map<nat, Op>) {
    forall p :: p in active && active[p].call.Passed? ==>
      Holds(k, p, active[p].call.b) && Home(k.geo, active[p].call.b) && active[p].used < MAXOPBLOCKS
  }

  ghost predicate Inv(w: World) {
    && w.cut <= |w.writes| && w.k.outstanding == |w.active| && Calls(w.k, w.active)
    && OpsInv(w.k.geo, w.active, w.nextOp, w.writes, w.cut)
    && CutInv(w.k.pc, w.k.lh, w.writes, w.cut)
    && KInv(w.k, Current(w), Durable(w), w.active)
  }

  // ----- Helper lemmas -----

  lemma HeadRoundTrip(blk: Block, lh: seq<nat>)
    requires |lh| <= LOGSIZE
    ensures SetHead(blk, lh)[0] == |lh| && HeadOf(SetHead(blk, lh)) == lh
  {
    var s := SetHead(blk, lh);
    assert s[0] == |lh|;
    assert s[1..1 + |lh|] == lh;
  }

  lemma ReplayAppend(base: seq<Block>, ws: seq<Write>, x: Write)
    requires x.block < |base|
    ensures Replay(base, ws + [x]) == Replay(base, ws)[x.block := x.data]
  {
    assert (ws + [x])[..|ws|] == ws;
  }

  /** Recovery of a good disk yields exactly the durable file system. */
  lemma {:induction false} InstallFromGood(geo: Geometry, disk: seq<Block>, lh: seq<nat>, i: nat, v: seq<Block>)
    requires GeoOk(geo) && |disk| == |v| == geo.nblocks && HeadOk(geo, lh) && i <= |lh|
    requires forall j :: 0 <= j < |lh| ==> disk[geo.start + 1 + j] == v[lh[j]]
    requires forall b: nat {:trigger Home(geo, b)} :: Home(geo, b) && b !in lh[i..] ==> disk[b] == v[b]
    ensures |InstallFrom(geo, disk, lh, i)| == geo.nblocks
    ensures SameHome(geo, InstallFrom(geo, disk, lh, i), v)
    ensures forall b :: geo.start <= b < geo.start + geo.size ==> InstallFrom(geo, disk, lh, i)[b] == disk[b]
    decreases |lh| - i
  {
    if i < |lh| {
      var disk' := disk[lh[i] := disk[geo.start + 1 + i]];
      assert lh[i..] == [lh[i]] + lh[i + 1..];
      InstallFromGood(geo, disk', lh, i + 1, v);
    }
  }

  lemma GoodRecovers(geo: Geometry, disk: seq<Block>, v: seq<Block>)
    requires LogGood(geo, disk, v)
    ensures SameHome(geo, Recovered(geo, disk), v)
  {
    var h := HeadOf(disk[geo.start]);
    assert h[0..] == h;
    InstallFromGood(geo, disk, h, 0, v);
  }

  // ----- Every step keeps the invariant -----

  lemma PcFacts(k: Kernel, v: seq<Block>, d: seq<Block>, ops: map<nat, Op>)
    requires KInv(k, v, d, ops)
    ensures |k.disk| == |v| == |d| == k.geo.nblocks
    ensures k.pc.Idle? ==> k.booted && !k.committing
    ensures !k.pc.Idle? ==> ops == map[]
    ensures k.pc.ReadHead? ==> !k.booted && k.cache == map[]
    ensures k.pc.Install? || k.pc.Clear? || k.pc.Finish? || k.pc.ReadHead? ==> v == d
  {
  }

  lemma MapSizes<T>(m: map<nat, T>, p: nat, x: T)
    ensures p !in m ==> |m[p := x]| == |m| + 1
    ensures p in m ==> |m[p := x]| == |m| && |m - {p}| == |m| - 1
  {
    assert p !in m ==> m[p := x].Keys == m.Keys + {p};
    assert p in m ==> m[p := x].Keys == m.Keys && (m - {p}).Keys == m.Keys - {p};
  }

  lemma BeginOpKernel(k: Kernel, v: seq<Block>, d: seq<Block>, ops: map<nat, Op>, p: nat, o: Op)
    requires KInv(k, v, d, ops) && k.booted && !k.committing
    ensures KInv(k.(outstanding := k.outstanding + 1), v, d, ops[p := o])
  {
  }

  lemma BeginOpOps(w: World, p: nat)
    requires OpsInv(w.k.geo, w.active, w.nextOp, w.writes, w.cut)
    ensures OpsInv(w.k.geo, w.active[p := Op(w.nextOp, 0, Outside)], w.nextOp + 1, w.writes, w.cut)
  {
  }

  lemma BeginOpKeeps(w: World, p: nat)
    requires Inv(w) && Enabled(w, EvBeginOp(p))
    ensures Inv(Apply(w, EvBeginOp(p)))
  {
    hide KInv, OpsInv;
    var o := Op(w.nextOp, 0, Outside);
    MapSizes(w.active, p, o);
    BeginOpOps(w, p);
    PcFacts(w.k, Current(w), Durable(w), w.active);
    BeginOpKernel(w.k, Current(w), Durable(w), w.active, p, o);
  }

  lemma LogWriteCache(k: Kernel, v: seq<Block>, ops: map<nat, Op>, ops': map<nat, Op>, b: nat)
    requires |k.disk| == |v| == k.geo.nblocks && Home(k.geo, b) && b in k.cache
    requires CacheInv(k.geo, k.disk, k.cache, k.lh, v, ops) && Absent(k.geo, k.disk, k.cache, v)
    requires HeadOk(k.geo, k.lh) && (b in k.lh || LogHasRoom(k)) && (forall q :: q in ops ==> q in ops')
    requires Pinned(k.cache, k.lh) && RestClean(k.geo, k.disk, k.lh, v)
    ensures var cache' := k.cache[b := k.cache[b].(dirty := true, raw := false)];
            var lh', v' := Absorb(k.lh, b), v[b := k.cache[b].data];
            && HeadOk(k.geo, lh') && CacheInv(k.geo, k.disk, cache', lh', v', ops')
            && Absent(k.geo, k.disk, cache', v') && Pinned(cache', lh') && RestClean(k.geo, k.disk, lh', v')
  {
    assert forall c :: c in k.lh ==> c in Absorb(k.lh, b);
    assert b in Absorb(k.lh, b);
  }

  lemma LogWriteKernel(k: Kernel, v: seq<Block>, d: seq<Block>, ops: map<nat, Op>, p: nat, o: Op, b: nat)
    requires KInv(k, v, d, ops) && p in ops && (b in k.lh || LogHasRoom(k)) && Home(k.geo, b) && b in k.cache
    ensures KInv(k.(lh := Absorb(k.lh, b), cache := k.cache[b := k.cache[b].(dirty := true, raw := false)]),
                 v[b := k.cache[b].data], d, ops[p := o])
  {
    LogWriteCache(k, v, ops, ops[p := o], b);
  }

  lemma PendingAbsorb(lh: seq<nat>, writes: seq<Write>, cut: nat, x: Write)
    requires Pending(lh, writes, cut)
    ensures Pending(Absorb(lh, x.block), writes + [x], cut)
  {
  }

  lemma LogWriteOps(w: World, p: nat, o: Op, x: Write)
    requires OpsInv(w.k.geo, w.active, w.nextOp, w.writes, w.cut)
    requires p in w.active && o.id == w.active[p].id == x.op && Home(w.k.geo, x.block)
    ensures OpsInv(w.k.geo, w.active[p := o], w.nextOp, w.writes + [x], w.cut)
  {
  }

  lemma GuardKeeps(w: World, p: nat, b: nat)
    requires Inv(w) && Enabled(w, EvLogGuard(p, b))
    ensures Inv(Apply(w, EvLogGuard(p, b)))
  {
    hide KInv, OpsInv;
    var w' := Apply(w, EvLogGuard(p, b));
    MapSizes(w.active, p, w'.active[p]);
    GuardOps(w, p, b);
    SameHolders(w.k, Current(w), Durable(w), w.active, p, w'.active[p]);
  }

  lemma GuardOps(w: World, p: nat, b: nat)
    requires OpsInv(w.k.geo, w.active, w.nextOp, w.writes, w.cut) && p in w.active
    ensures OpsInv(w.k.geo, w.active[p := w.active[p].(call := Passed(b))], w.nextOp, w.writes, w.cut)
  {
  }

  lemma SameHolders(k: Kernel, v: seq<Block>, d: seq<Block>, ops: map<nat, Op>, p: nat, o: Op)
    requires KInv(k, v, d, ops) && p in ops
    ensures KInv(k, v, d, ops[p := o])
  {
    hide LogGood, Absent, RestClean, PcInv, HeadOk;
  }

  /** The block is in the log already, or the log has a slot for it. */
  predicate Fits(w: World, e: Event) {
    e.EvLogAppend? ==> e.b in w.k.lh || LogHasRoom(w.k)
  }

  lemma AppendKeeps(w: World, p: nat, b: nat)
    requires Inv(w) && Enabled(w, EvLogAppend(p, b)) && Fits(w, EvLogAppend(p, b))
    ensures Inv(Apply(w, EvLogAppend(p, b)))
  {
    hide KInv, OpsInv;
    var w' := Apply(w, EvLogAppend(p, b));
    var x := w'.writes[|w.writes|];
    MapSizes(w.active, p, w'.active[p]);
    LogWriteOps(w, p, w'.active[p], x);
    PcFacts(w.k, Current(w), Durable(w), w.active);
    LogWriteKernel(w.k, Current(w), Durable(w), w.active, p, w'.active[p], b);
    PendingAbsorb(w.k.lh, w.writes, w.cut, x);
    ReplayAppend(w.origin, w.writes, x);
    assert w'.writes[..w'.cut] == w.writes[..w.cut];
  }

  lemma EndOpKernel(k: Kernel, v: seq<Block>, d: seq<Block>, ops: map<nat, Op>, p: nat, last: bool)
    requires KInv(k, v, d, ops) && p in ops && (last ==> ops - {p} == map[]) && k.outstanding > 0
    requires forall b :: b in k.cache && k.cache[b].raw ==> !Holds(k, p, b)
    requires k.lh == [] ==> v == d
    ensures KInv(k.(outstanding := k.outstanding - 1,
                    committing := last,
                    pc := if !last then k.pc else if |k.lh| > 0 then WriteLog(0) else Finish),
                 v, d, ops - {p})
  {
  }

  lemma EndOpOps(w: World, p: nat)
    requires OpsInv(w.k.geo, w.active, w.nextOp, w.writes, w.cut)
    ensures OpsInv(w.k.geo, w.active - {p}, w.nextOp, w.writes, w.cut)
  {
  }

  lemma EndOpKeeps(w: World, p: nat)
    requires Inv(w) && Enabled(w, EvEndOp(p))
    ensures Inv(Apply(w, EvEndOp(p)))
  {
    hide KInv, OpsInv;
    MapSizes(w.active, p, w.active[p]);
    EndOpOps(w, p);
    PcFacts(w.k, Current(w), Durable(w), w.active);
    assert w.k.lh == [] ==> w.cut == |w.writes|;
    assert w.cut == |w.writes| ==> w.writes[..w.cut] == w.writes;
    EndOpKernel(w.k, Current(w), Durable(w), w.active, p, w.k.outstanding == 1);
  }

  ghost predicate SamePins(cache: map<nat, Buf>, cache': map<nat, Buf>) {
    forall b :: (b in cache' && cache'[b].dirty) <==> (b in cache && cache[b].dirty)
  }

  /** Steps that touch nothing but buffers, and pin or unpin none. */
  lemma CacheStepKernel(k: Kernel, cache: map<nat, Buf>, v: seq<Block>, d: seq<Block>, ops: map<nat, Op>)
    requires KInv(k, v, d, ops) && !k.pc.ReadHead? && SamePins(k.cache, cache)
    requires CacheInv(k.geo, k.disk, cache, k.lh, v, ops) && (k.booted ==> Absent(k.geo, k.disk, cache, v))
    ensures KInv(k.(cache := cache), v, d, ops)
  {
  }

  lemma BreadCache(k: Kernel, v: seq<Block>, ops: map<nat, Op>, p: nat, b: nat)
    requires |k.disk| == |v| == k.geo.nblocks && Home(k.geo, b) && Unheld(k, b)
    requires CacheInv(k.geo, k.disk, k.cache, k.lh, v, ops) && Absent(k.geo, k.disk, k.cache, v)
    ensures var k1 := Fill(k, b);
            var cache := k1.cache[b := k1.cache[b].(holder := Held(p))];
            CacheInv(k.geo, k.disk, cache, k.lh, v, ops) && Absent(k.geo, k.disk, cache, v) && SamePins(k.cache, cache)
  {
  }

  lemma BufferStepsKernel(k: Kernel, v: seq<Block>, d: seq<Block>, ops: map<nat, Op>, p: nat, b: nat, data: Block)
    requires KInv(k, v, d, ops) && b in k.cache && !k.pc.ReadHead?
    ensures Holds(k, p, b) && p in ops ==>
              KInv(k.(cache := k.cache[b := k.cache[b].(data := data, raw := true)]), v, d, ops)
    ensures !k.cache[b].raw ==> KInv(k.(cache := k.cache[b := k.cache[b].(holder := Free)]), v, d, ops)
  {
    hide HeadOk, LogGood, RestClean, PcInv;
    if Holds(k, p, b) && p in ops {
      CacheStepKernel(k, k.cache[b := k.cache[b].(data := data, raw := true)], v, d, ops);
    }
    if !k.cache[b].raw {
      CacheStepKernel(k, k.cache[b := k.cache[b].(holder := Free)], v, d, ops);
    }
  }

  lemma BreadKernel(k: Kernel, v: seq<Block>, d: seq<Block>, ops: map<nat, Op>, p: nat, b: nat)
    requires KInv(k, v, d, ops) && k.booted && Home(k.geo, b) && Unheld(k, b)
    ensures var k1 := Fill(k, b);
            KInv(k1.(cache := k1.cache[b := k1.cache[b].(holder := Held(p))]), v, d, ops)
  {
    hide CacheInv, HeadOk, LogGood, RestClean, Absent;
    BreadCache(k, v, ops, p, b);
    CacheStepKernel(k, Fill(k, b).cache[b := Fill(k, b).cache[b].(holder := Held(p))], v, d, ops);
  }

  lemma EvictKernel(k: Kernel, v: seq<Block>, d: seq<Block>, ops: map<nat, Op>, b: nat)
    requires KInv(k, v, d, ops) && b in k.cache && !k.cache[b].dirty && k.cache[b].holder.Free?
    ensures KInv(k.(cache := k.cache - {b}), v, d, ops)
  {
    hide HeadOk, LogGood, RestClean;
    CacheStepKernel(k, k.cache - {b}, v, d, ops);
  }

  lemma BufferStepsKeep(w: World, e: Event)
    requires Inv(w) && Enabled(w, e)
    requires e.EvBread? || e.EvModify? || e.EvBrelse? || e.EvEvict?
    ensures Inv(Apply(w, e))
  {
    hide KInv, OpsInv, CutInv;
    PcFacts(w.k, Current(w), Durable(w), w.active);
    match e {
      case EvBread(p, b) => BreadKernel(w.k, Current(w), Durable(w), w.active, p, b);
      case EvModify(p, b, data) => BufferStepsKernel(w.k, Current(w), Durable(w), w.active, p, b, data);
      case EvBrelse(p, b) =>
        BufferStepsKernel(w.k, Current(w), Durable(w), w.active, p, b, w.k.cache[b].data);
      case EvEvict(b) => EvictKernel(w.k, Current(w), Durable(w), w.active, b);
    }
  }

  // ----- The steps of commit() and recover_from_log() -----

  /** Writing a block of the log area leaves the cache sound and the home blocks alone. */
  lemma PutLogBlock(k: Kernel, v: seq<Block>, ops: map<nat, Op>, b: nat, data: Block)
    requires GeoOk(k.geo) && |k.disk| == |v| == k.geo.nblocks && InLog(k.geo, b)
    requires CacheInv(k.geo, k.disk, k.cache, k.lh, v, ops) && RestClean(k.geo, k.disk, k.lh, v)
    ensures var k' := PutBlock(k, b, data);
            && CacheInv(k.geo, k'.disk, k'.cache, k.lh, v, ops) && RestClean(k.geo, k'.disk, k.lh, v)
            && (Pinned(k.cache, k.lh) ==> Pinned(k'.cache, k.lh))
            && (Absent(k.geo, k.disk, k.cache, v) ==> Absent(k.geo, k'.disk, k'.cache, v))
  {
  }

  lemma WriteLogDisk(geo: Geometry, disk: seq<Block>, lh: seq<nat>, v: seq<Block>, d: seq<Block>, i: nat)
    requires GeoOk(geo) && |disk| == |v| == |d| == geo.nblocks && HeadOk(geo, lh) && i < |lh|
    requires LogGood(geo, disk, d) && HeadOf(disk[geo.start]) == [] && Copied(geo, disk, lh, v, i)
    ensures var disk' := disk[geo.start + 1 + i := v[lh[i]]];
            LogGood(geo, disk', d) && disk'[geo.start] == disk[geo.start] && Copied(geo, disk', lh, v, i + 1)
  {
  }

  lemma WriteLogStep(k: Kernel, v: seq<Block>)
    requires CanAdvance(k) && k.pc.WriteLog? && |v| == |k.disk|
    requires Pinned(k.cache, k.lh) && CacheInv(k.geo, k.disk, k.cache, k.lh, v, map[])
    ensures Advance(k) ==
            PutBlock(k, k.geo.start + 1 + k.pc.i, v[k.lh[k.pc.i]])
              .(pc := if k.pc.i + 1 < |k.lh| then WriteLog(k.pc.i + 1) else WriteHead)
  {
    hide HasBuffers;
    var b := k.lh[k.pc.i];
    assert b in k.cache && !k.cache[b].raw;
  }

  lemma WriteLogKernel(k: Kernel, v: seq<Block>, d: seq<Block>)
    requires KInv(k, v, d, map[]) && CanAdvance(k) && k.pc.WriteLog?
    ensures KInv(Advance(k), v, d, map[])
  {
    hide HasBuffers, CacheInv, LogGood, Absent, RestClean, Pinned, Copied, Advance;
    var i := k.pc.i;
    WriteLogStep(k, v);
    PutLogBlock(k, v, map[], k.geo.start + 1 + i, v[k.lh[i]]);
    WriteLogDisk(k.geo, k.disk, k.lh, v, d, i);
  }

  lemma WriteHeadDisk(geo: Geometry, disk: seq<Block>, lh: seq<nat>, v: seq<Block>, data: Block)
    requires GeoOk(geo) && |disk| == |v| == geo.nblocks && HeadOk(geo, lh)
    requires data[0] == |lh| && HeadOf(data) == lh && Copied(geo, disk, lh, v, |lh|) && RestClean(geo, disk, lh, v)
    ensures LogGood(geo, disk[geo.start := data], v)
  {
  }

  lemma WriteHeadKernel(k: Kernel, v: seq<Block>, d: seq<Block>)
    requires KInv(k, v, d, map[]) && CanAdvance(k) && k.pc.WriteHead?
    ensures KInv(Advance(k), v, v, map[])
  {
    hide HasBuffers, CacheInv, LogGood, Absent, RestClean, Pinned, Copied;
    var data := SetHead(Content(k, k.geo.start), k.lh);
    HeadRoundTrip(Content(k, k.geo.start), k.lh);
    PutLogBlock(k, v, map[], k.geo.start, data);
    WriteHeadDisk(k.geo, k.disk, k.lh, v, data);
  }

  lemma FillLogBlock(k: Kernel, v: seq<Block>, b: nat, i: nat)
    requires GeoOk(k.geo) && |k.disk| == |v| == k.geo.nblocks && HeadOk(k.geo, k.lh) && i <= |k.lh|
    requires InLog(k.geo, b) && CacheInv(k.geo, k.disk, k.cache, k.lh, v, map[])
    requires Installed(k.geo, k.disk, k.cache, k.lh, v, i)
    ensures var k' := Fill(k, b);
            && k' == k.(cache := k'.cache) && Content(k', b) == k.disk[b]
            && CacheInv(k.geo, k.disk, k'.cache, k.lh, v, map[])
            && Installed(k.geo, k.disk, k'.cache, k.lh, v, i)
            && (Absent(k.geo, k.disk, k.cache, v) ==> Absent(k.geo, k.disk, k'.cache, v))
  {
    hide HeadOk, Installed;
    FillInstalled(k, v, b, i);
  }

  lemma FillInstalled(k: Kernel, v: seq<Block>, b: nat, i: nat)
    requires |k.disk| == |v| == k.geo.nblocks && HeadOk(k.geo, k.lh) && i <= |k.lh| && b < |k.disk|
    requires Installed(k.geo, k.disk, k.cache, k.lh, v, i)
    ensures Installed(k.geo, k.disk, Fill(k, b).cache, k.lh, v, i)
  {
  }

  lemma PutHomeBlock(k: Kernel, v: seq<Block>, i: nat)
    requires GeoOk(k.geo) && |k.disk| == |v| == k.geo.nblocks && HeadOk(k.geo, k.lh) && i < |k.lh|
    requires CacheInv(k.geo, k.disk, k.cache, k.lh, v, map[]) && Installed(k.geo, k.disk, k.cache, k.lh, v, i)
    ensures var k' := PutBlock(k, k.lh[i], v[k.lh[i]]);
            && CacheInv(k.geo, k'.disk, k'.cache, k.lh, v, map[])
            && Installed(k.geo, k'.disk, k'.cache, k.lh, v, i + 1)
            && (Absent(k.geo, k.disk, k.cache, v) ==> Absent(k.geo, k'.disk, k'.cache, v))
  {
  }

  lemma InstallDisk(geo: Geometry, disk: seq<Block>, lh: seq<nat>, v: seq<Block>, i: nat)
    requires GeoOk(geo) && |disk| == |v| == geo.nblocks && HeadOk(geo, lh) && i < |lh|
    requires LogGood(geo, disk, v) && HeadOf(disk[geo.start]) == lh && RestClean(geo, disk, lh, v)
    ensures disk[geo.start + 1 + i] == v[lh[i]]
    ensures var disk' := disk[lh[i] := v[lh[i]]];
            LogGood(geo, disk', v) && disk'[geo.start] == disk[geo.start] && RestClean(geo, disk', lh, v)
  {
  }

  lemma InstallKernel(k: Kernel, v: seq<Block>)
    requires KInv(k, v, v, map[]) && CanAdvance(k) && k.pc.Install?
    ensures KInv(Advance(k), v, v, map[])
  {
    hide HasBuffers, CacheInv, LogGood, Absent, RestClean, Installed, HeadOf;
    var i := k.pc.i;
    var k1 := Fill(k, k.geo.start + 1 + i);
    InstallDisk(k.geo, k.disk, k.lh, v, i);
    FillLogBlock(k, v, k.geo.start + 1 + i, i);
    PutHomeBlock(k1, v, i);
    InstallStep(k, v);
    hide Advance, CanAdvance, Fill;
  }

  lemma InstallStep(k: Kernel, v: seq<Block>)
    requires CanAdvance(k) && k.pc.Install? && |v| == |k.disk|
    requires var slot := k.geo.start + 1 + k.pc.i; Content(Fill(k, slot), slot) == v[k.lh[k.pc.i]]
    ensures Advance(k) == PutBlock(Fill(k, k.geo.start + 1 + k.pc.i), k.lh[k.pc.i], v[k.lh[k.pc.i]])
                            .(pc := InstallPc(k.pc.i + 1, k.lh))
  {
    hide HasBuffers;
  }

  /** Once all blocks are home, no buffer is pinned. */
  lemma ClearCache(k: Kernel, v: seq<Block>, data: Block)
    requires GeoOk(k.geo) && |k.disk| == |v| == k.geo.nblocks && HeadOk(k.geo, k.lh)
    requires CacheInv(k.geo, k.disk, k.cache, k.lh, v, map[])
    requires Installed(k.geo, k.disk, k.cache, k.lh, v, |k.lh|)
    ensures var k' := PutBlock(k, k.geo.start, data);
            && CacheInv(k.geo, k'.disk, k'.cache, [], v, map[])
            && (Absent(k.geo, k.disk, k.cache, v) ==> Absent(k.geo, k'.disk, k'.cache, v))
  {
  }

  lemma ClearDisk(k: Kernel, v: seq<Block>, data: Block)
    requires GeoOk(k.geo) && |k.disk| == |v| == k.geo.nblocks && HeadOk(k.geo, k.lh)
    requires RestClean(k.geo, k.disk, k.lh, v) && Installed(k.geo, k.disk, k.cache, k.lh, v, |k.lh|)
    requires data[0] == 0 && HeadOf(data) == []
    ensures var disk' := k.disk[k.geo.start := data];
            LogGood(k.geo, disk', v) && RestClean(k.geo, disk', [], v) && HeadOk(k.geo, [])
  {
  }

  lemma ClearKernel(k: Kernel, v: seq<Block>)
    requires KInv(k, v, v, map[]) && CanAdvance(k) && k.pc.Clear?
    ensures KInv(Advance(k), v, v, map[])
  {
    hide HasBuffers, CacheInv, LogGood, Absent, RestClean, Installed, SetHead, HeadOf, HeadOk;
    var data := SetHead(Content(k, k.geo.start), []);
    HeadRoundTrip(Content(k, k.geo.start), []);
    ClearCache(k, v, data);
    ClearDisk(k, v, data);
    assert Advance(k) == PutBlock(k, k.geo.start, data).(lh := [], pc := Finish);
  }

  lemma ReadHeadKernel(k: Kernel, v: seq<Block>)
    requires KInv(k, v, v, map[]) && CanAdvance(k) && k.pc.ReadHead?
    ensures KInv(Advance(k), v, v, map[])
  {
    hide HasBuffers, CacheInv, LogGood, RestClean, Installed;
    var h := HeadOf(k.disk[k.geo.start]);
    BootDisk(k.geo, k.disk, v);
    BootCache(k.geo, k.disk, h, v);
    assert Advance(k) == k.(cache := map[k.geo.start := Buf(k.disk[k.geo.start], false, Free, false)],
                            lh := h, pc := InstallPc(0, h));
  }

  lemma BootDisk(geo: Geometry, disk: seq<Block>, v: seq<Block>)
    requires LogGood(geo, disk, v)
    ensures HeadOk(geo, HeadOf(disk[geo.start])) && RestClean(geo, disk, HeadOf(disk[geo.start]), v)
  {
  }

  lemma BootCache(geo: Geometry, disk: seq<Block>, h: seq<nat>, v: seq<Block>)
    requires GeoOk(geo) && |disk| == |v| == geo.nblocks && HeadOk(geo, h)
    ensures var cache := map[geo.start := Buf(disk[geo.start], false, Free, false)];
            && CacheInv(geo, disk, cache, h, v, map[])
            && Installed(geo, disk, cache, h, v, 0)
            && (h == [] ==> Installed(geo, disk, cache, h, v, |h|))
  {
  }

  lemma FinishKernel(k: Kernel, v: seq<Block>)
    requires KInv(k, v, v, map[]) && CanAdvance(k) && k.pc.Finish?
    ensures KInv(Advance(k), v, v, map[])
  {
    hide HasBuffers, CacheInv, LogGood, HeadOk;
  }

  lemma CommitOps(w: World)
    requires OpsInv(w.k.geo, w.active, w.nextOp, w.writes, w.cut)
    ensures w.active == map[] ==> OpsInv(w.k.geo, w.active, w.nextOp, w.writes, |w.writes|)
  {
  }

  lemma AdvanceKeeps(w: World)
    requires Inv(w) && Enabled(w, EvAdvance)
    ensures Inv(Apply(w, EvAdvance))
  {
    hide HasBuffers, KInv, OpsInv;
    var k, v := w.k, Current(w);
    CommitOps(w);
    PcFacts(k, v, Durable(w), w.active);
    if k.pc.WriteLog? {
      WriteLogKernel(k, v, Durable(w));
    } else if k.pc.WriteHead? {
      WriteHeadKernel(k, v, Durable(w));
      assert w.writes[..|w.writes|] == w.writes;
    } else {
      assert w.writes[..w.cut] == w.writes;
      if k.pc.Install? { InstallKernel(k, v); }
      else if k.pc.Clear? { ClearKernel(k, v); }
      else if k.pc.ReadHead? { ReadHeadKernel(k, v); }
      else { FinishKernel(k, v); }
    }
  }

  lemma CrashKernel(k: Kernel, v: seq<Block>, d: seq<Block>, ops: map<nat, Op>)
    requires KInv(k, v, d, ops)
    ensures KInv(Reboot(k), d, d, map[])
  {
  }

  lemma CrashKeeps(w: World)
    requires Inv(w) && Enabled(w, EvCrash)
    ensures Inv(Apply(w, EvCrash))
  {
    hide KInv;
    var w' := Apply(w, EvCrash);
    assert w'.writes[..w'.cut] == w'.writes == w.writes[..w.cut];
    CrashKernel(w.k, Current(w), Durable(w), w.active);
  }

  lemma StepKeeps(w: World, e: Event)
    requires Inv(w) && Enabled(w, e) && Fits(w, e)
    ensures Inv(Apply(w, e))
  {
    hide Inv;
    match e
    case EvBeginOp(p) => BeginOpKeeps(w, p);
    case EvLogGuard(p, b) => GuardKeeps(w, p, b);
    case EvLogAppend(p, b) => AppendKeeps(w, p, b);
    case EvEndOp(p) => EndOpKeeps(w, p);
    case EvAdvance => AdvanceKeeps(w);
    case EvCrash => CrashKeeps(w);
    case _ => BufferStepsKeep(w, e);
  }

  // ----- Whole runs -----

  /** First boot from a disk whose log is empty, as mkfs leaves it. */
  ghost predicate Initial(w: World) {
    && GeoOk(w.k.geo) && |w.k.disk| == w.k.geo.nblocks && w.k.disk[w.k.geo.start][0] == 0
    && w == World(Reboot(w.k), w.k.disk, map[], 0, [], 0)
  }

  /** Every log_write of the run finds room when it takes the lock.  LogSpace proves for which logs
      all runs are like this. */
  predicate Fitting(w: World, es: seq<Event>)
    requires Runs(w, es)
    decreases |es|
  {
    es == [] || (Fits(w, es[0]) && Fitting(Apply(w, es[0]), es[1..]))
  }

  lemma {:induction false} RunKeeps(w: World, es: seq<Event>)
    requires Inv(w) && Runs(w, es) && Fitting(w, es)
    ensures Inv(After(w, es))
    decreases |es|
  {
    hide Inv, Fits;
    if es != [] {
      StepKeeps(w, es[0]);
      RunKeeps(Apply(w, es[0]), es[1..]);
    }
  }

  /** The next recovery yields the result of exactly the first `cut` logged writes, and no operation
      is torn apart by that cut. */
  ghost predicate CrashSafe(w: World, w': World) {
    && w'.cut <= |w'.writes| && w'.k.geo == w.k.geo && w'.origin == w.k.disk
    && SameHome(w.k.geo, Recovered(w.k.geo, w'.k.disk), Replay(w.k.disk, w'.writes[..w'.cut]))
    && WholeOps(w'.writes, w'.cut)
  }

  /** Crash safety, whatever the processes did and wherever crashes fell, also inside commit and
      inside recovery. */
  lemma CrashSafety(w: World, es: seq<Event>)
    requires Initial(w) && Runs(w, es) && Fitting(w, es)
    ensures CrashSafe(w, After(w, es))
  {
    InitialInv(w);
    RunKeeps(w, es);
    RunConstants(w, es);
    var w' := After(w, es);
    GoodRecovers(w.k.geo, w'.k.disk, Durable(w'));
  }

  lemma InitialInv(w: World)
    requires Initial(w)
    ensures Inv(w)
  {
  }

  lemma {:induction false} RunConstants(w: World, es: seq<Event>)
    requires Runs(w, es)
    ensures After(w, es).k.geo == w.k.geo && After(w, es).origin == w.origin
    decreases |es|
  {
    if es != [] { RunConstants(Apply(w, es[0]), es[1..]); }
  }

  /** A commit is durable when end_op returns, and what was durable stays durable: from state
      to state the durable writes only grow, through crashes and recoveries. */
  lemma {:induction false} DurableGrows(w: World, es: seq<Event>)
    requires Inv(w) && Runs(w, es) && Fitting(w, es)
    ensures var w' := After(w, es);
            w'.cut <= |w'.writes| && w.cut <= |w.writes| && w.writes[..w.cut] <= w'.writes[..w'.cut]
    decreases |es|
  {
    hide KInv, OpsInv, CutInv;
    if es != [] {
      var w1 := Apply(w, es[0]);
      StepKeeps(w, es[0]);
      assert w.writes[..w.cut] <= w1.writes[..w1.cut];
      DurableGrows(w1, es[1..]);
    }
  }

  lemma FinishHome(k: Kernel, v: seq<Block>, d: seq<Block>, ops: map<nat, Op>)
    requires KInv(k, v, d, ops) && k.pc.Finish?
    ensures v == d && SameHome(k.geo, k.disk, v) && LogGood(k.geo, k.disk, v) && HeadOf(k.disk[k.geo.start]) == []
  {
  }

  /** When commit() is done, every logged write is durable and home. */
  lemma FinishedIsDurable(w: World, es: seq<Event>)
    requires Initial(w) && Runs(w, es) && Fitting(w, es) && After(w, es).k.pc.Finish?
    ensures var w' := After(w, es);
            w'.cut == |w'.writes| && SameHome(w.k.geo, w'.k.disk, Replay(w.k.disk, w'.writes))
  {
    InitialInv(w);
    hide KInv, OpsInv, Initial;
    RunKeeps(w, es);
    RunConstants(w, es);
    var w' := After(w, es);
    FinishHome(w'.k, Current(w'), Durable(w'), w'.active);
  }

  /** The cache is transparent: a settled block reads as the last logged write to it. */
  lemma ReadsCurrent(w: World, es: seq<Event>, b: nat)
    requires Initial(w) && Runs(w, es) && Fitting(w, es) && After(w, es).k.booted && Home(w.k.geo, b)
    requires var c := After(w, es).k.cache; b in c ==> !c[b].raw
    ensures var w' := After(w, es);
            b < |w'.k.disk| && Content(w'.k, b) == Replay(w.k.disk, w'.writes)[b]
  {
    InitialInv(w);
    RunKeeps(w, es);
    RunConstants(w, es);
  }
}
