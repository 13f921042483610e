/**
 The page allocator of kalloc.c and the address spaces of vm.c.  Every frame is on the free list,
 or has exactly one role: a directory, one page table of one directory, one user page of one
 directory, or something else that kalloc handed out.
 */
module Vm {
  import opened Common
  import opened Paging

  ghost predicate SamePool(owner: map<nat, Role>, free: seq<nat>, owner': map<nat, Role>, free': seq<nat>) {
    forall f :: (f in owner' || f in free') <==> (f in owner || f in free)
  }

  /** The maps of all address spaces agree. */
  ghost predicate SameMaps(ram: seq<Page>, ram': seq<Page>, owner: map<nat, Role>) {
    forall p: nat, v: nat :: IsDir(owner, p) && v < PAGES ==> Look(ram', p, v) == Look(ram, p, v)
  }

  /** owner' extends owner by page tables of dir. */
  ghost predicate MoreTables(owner: map<nat, Role>, owner': map<nat, Role>, dir: nat) {
    && (forall f :: f in owner ==> f in owner' && owner'[f] == owner[f])
    && (forall f :: f in owner' && f !in owner ==> owner'[f].Table? && owner'[f].dir == dir)
  }

  /** Pages first .. upto-1 of dir are mapped to consecutive frames from `frame` on; the rest is as before. */
  ghost predicate MapsRange(ram: seq<Page>, ram': seq<Page>, owner: map<nat, Role>, dir: nat,
                            first: nat, upto: nat, frame: nat, perm: nat)
    requires perm < PGSIZE
  {
    forall p: nat, v: nat :: IsDir(owner, p) && v < PAGES ==>
      Look(ram', p, v) == if p == dir && first <= v < upto then MakePte(frame + v - first, perm) else Look(ram, p, v)
  }

  /** The frames mapped below KERNBASE have become user pages; new roles are page tables only. */
  ghost predicate MapsRoles(owner: map<nat, Role>, owner': map<nat, Role>, dir: nat, first: nat, upto: nat,
                            frame: nat) {
    && (forall f :: f in owner ==> f in owner' && owner'[f] == RoleAfter(owner[f], f, dir, first, upto, frame))
    && (forall f :: f in owner' && f !in owner ==> owner'[f].Table? && owner'[f].dir == dir)
  }

  function RoleAfter(r: Role, f: nat, dir: nat, first: nat, upto: nat, frame: nat): Role {
    if frame <= f < frame + upto - first && first + f - frame < USERPAGES then Data(dir, first + f - frame) else r
  }

  /** Below KERNBASE only frames that were set aside may be mapped. */
  ghost predicate SetAside(owner: map<nat, Role>, first: nat, last: nat, frame: nat) {
    forall f :: frame <= f <= frame + last - first && first + f - frame < USERPAGES ==> f in owner && owner[f].Other?
  }

  lemma RolesDirs(owner: map<nat, Role>, owner': map<nat, Role>, dir: nat, first: nat, upto: nat, last: nat, frame: nat)
    requires SetAside(owner, first, last, frame) && MapsRoles(owner, owner', dir, first, upto, frame) &&
             upto <= last + 1
    ensures forall p: nat :: IsDir(owner, p) <==> IsDir(owner', p)
  {
  }

  lemma RolesStep(owner: map<nat, Role>, owner1: map<nat, Role>, owner2: map<nat, Role>, dir: nat,
                  first: nat, u: nat, upto: nat, frame: nat)
    requires first <= u <= upto <= u + 1
    requires MapsRoles(owner, owner1, dir, first, u, frame) &&
             MapsRoles(owner1, owner2, dir, u, upto, frame + u - first)
    requires u < USERPAGES && u < upto ==> frame + u - first in owner
    ensures MapsRoles(owner, owner2, dir, first, upto, frame)
  {
  }

  /** The next page of a range is still unmapped and its frame still waiting. */
  lemma NextReady(ram: seq<Page>, ram1: seq<Page>, owner: map<nat, Role>, owner1: map<nat, Role>, dir: nat,
                  first: nat, u: nat, last: nat, frame: nat, perm: nat)
    requires perm < PGSIZE && first <= u <= last < PAGES && IsDir(owner, dir) && SetAside(owner, first, last, frame)
    requires MapsRange(ram, ram1, owner, dir, first, u, frame, perm) && MapsRoles(owner, owner1, dir, first, u, frame)
    requires Look(ram, dir, u) == 0
    ensures Look(ram1, dir, u) == 0
    ensures u < USERPAGES ==>
              frame + u - first in owner && frame + u - first in owner1 && owner1[frame + u - first].Other?
  {
    hide Look, MakePte;
  }

  lemma DataStep(ram: seq<Page>, ram1: seq<Page>, ram2: seq<Page>, owner: map<nat, Role>, owner1: map<nat, Role>,
                 dir: nat, first: nat, u: nat, frame: nat)
    requires |ram| == |ram1| == |ram2| && MapsRoles(owner, owner1, dir, first, u, frame)
    requires SameData(ram, ram1, owner) && SameData(ram1, ram2, owner1)
    ensures SameData(ram, ram2, owner)
  {
  }

  lemma PoolStep(owner: map<nat, Role>, free: seq<nat>, owner1: map<nat, Role>, free1: seq<nat>,
                 owner2: map<nat, Role>, free2: seq<nat>)
    requires SamePool(owner, free, owner1, free1) && SamePool(owner1, free1, owner2, free2)
    ensures SamePool(owner, free, owner2, free2)
  {
  }

  lemma MapsSame(ram0: seq<Page>, ram1: seq<Page>, ram2: seq<Page>, owner: map<nat, Role>, owner1: map<nat, Role>,
                 dir: nat, first: nat, u: nat, frame: nat, perm: nat)
    requires perm < PGSIZE && (forall p: nat :: IsDir(owner, p) ==> IsDir(owner1, p))
    requires MapsRange(ram0, ram1, owner, dir, first, u, frame, perm) && SameMaps(ram1, ram2, owner1)
    ensures MapsRange(ram0, ram2, owner, dir, first, u, frame, perm)
  {
    hide Look, MakePte;
  }

  lemma MapsStep(ram0: seq<Page>, ram1: seq<Page>, ram2: seq<Page>, owner: map<nat, Role>, owner1: map<nat, Role>,
                 dir: nat, first: nat, u: nat, frame: nat, perm: nat)
    requires perm < PGSIZE && first <= u && (forall p: nat :: IsDir(owner, p) ==> IsDir(owner1, p))
    requires MapsRange(ram0, ram1, owner, dir, first, u, frame, perm)
    requires LookChange(ram1, ram2, owner1, dir, u, MakePte(frame + u - first, perm))
    ensures MapsRange(ram0, ram2, owner, dir, first, u + 1, frame, perm)
  {
    hide Look, MakePte;
  }

  /** Pages lo .. hi-1 of dir are unmapped; the rest is as before. */
  ghost predicate Clears(ram: seq<Page>, ram': seq<Page>, owner: map<nat, Role>, dir: nat, lo: nat, hi: nat) {
    forall p: nat, v: nat :: IsDir(owner, p) && v < PAGES ==>
      Look(ram', p, v) == if p == dir && lo <= v < hi then 0 else Look(ram, p, v)
  }

  predicate InSpan(r: Role, dir: nat, lo: nat, hi: nat) {
    r.Data? && r.dir == dir && lo <= r.v < hi
  }

  /** Their frames, and no others, have lost their role. */
  ghost predicate ClearsRoles(owner: map<nat, Role>, owner': map<nat, Role>, dir: nat, lo: nat, hi: nat) {
    && (forall f :: f in owner' ==> f in owner && owner'[f] == owner[f])
    && (forall f :: f in owner ==> (f in owner' <==> !InSpan(owner[f], dir, lo, hi)))
  }

  lemma ClearsDirs(owner: map<nat, Role>, owner': map<nat, Role>, dir: nat, lo: nat, hi: nat)
    requires ClearsRoles(owner, owner', dir, lo, hi)
    ensures forall p: nat :: IsDir(owner, p) <==> IsDir(owner', p)
  {
  }

  /** A stretch of pages without mapping needs no work. */
  lemma ClearsSkip(ram: seq<Page>, ram1: seq<Page>, owner: map<nat, Role>, owner1: map<nat, Role>,
                   dir: nat, lo: nat, u: nat, to: nat)
    requires lo <= u <= to <= USERPAGES && IsDir(owner, dir) && Users(ram1, owner1)
    requires Clears(ram, ram1, owner, dir, lo, u) && ClearsRoles(owner, owner1, dir, lo, u)
    requires forall v :: u <= v < to ==> Look(ram1, dir, v) == 0
    ensures Clears(ram, ram1, owner, dir, lo, to) && ClearsRoles(owner, owner1, dir, lo, to)
  {
    hide Look;
    ClearsDirs(owner, owner1, dir, lo, u);
  }

  lemma ClearsStep(ram: seq<Page>, ram1: seq<Page>, ram2: seq<Page>, ram3: seq<Page>, owner: map<nat, Role>,
                   owner1: map<nat, Role>, owner2: map<nat, Role>, dir: nat, lo: nat, u: nat, g: nat)
    requires lo <= u < USERPAGES && IsDir(owner, dir)
    requires Clears(ram, ram1, owner, dir, lo, u) && ClearsRoles(owner, owner1, dir, lo, u)
    requires g in owner1 && owner1[g] == Data(dir, u) && owner2 == owner1[g := Other]
    requires LookChange(ram1, ram2, owner1, dir, u, 0) && SameMaps(ram2, ram3, owner2)
    requires forall f :: f in owner1 && owner1[f] == Data(dir, u) ==> f == g
    ensures Clears(ram, ram3, owner, dir, lo, u + 1) && ClearsRoles(owner, owner2 - {g}, dir, lo, u + 1)
  {
    hide Look;
    ClearsDirs(owner, owner1, dir, lo, u);
  }

  // ----- Growing an address space -----

  /** Page v of dir is mapped, user-writable, to a zeroed frame that was free before. */
  ghost predicate FreshPage(ram: seq<Page>, owner0: map<nat, Role>, owner: map<nat, Role>, dir: nat, v: nat) {
    var w := Look(ram, dir, v);
    && w != 0 && FlagsOf(w) == PTE_P + PTE_W + PTE_U && FrameOf(w) !in owner0
    && FrameOf(w) in owner && owner[FrameOf(w)] == Data(dir, v)
    && FrameOf(w) < |ram| && ram[FrameOf(w)] == ZeroPage()
  }

  /** Pages lo .. u-1 of dir are fresh, everything else in all maps is as before; `spare` is a zeroed
      frame set aside for the next page (0 if none). */
  ghost predicate Grows(ram0: seq<Page>, ram: seq<Page>, owner0: map<nat, Role>, owner: map<nat, Role>,
                        dir: nat, lo: nat, u: nat, spare: nat) {
    && (forall p: nat, v: nat :: IsDir(owner0, p) && v < PAGES && !(p == dir && lo <= v < u) ==>
          Look(ram, p, v) == Look(ram0, p, v))
    && (forall v: nat :: lo <= v < u ==> FreshPage(ram, owner0, owner, dir, v))
    && (forall f :: f in owner0 ==> f in owner && owner[f] == owner0[f])
    && (forall f :: f in owner && f !in owner0 && f != spare ==>
          (owner[f].Table? && owner[f].dir == dir) || InSpan(owner[f], dir, lo, u))
    && (spare != 0 ==> && spare in owner && owner[spare].Other? && spare !in owner0
                       && spare < |ram| && ram[spare] == ZeroPage())
  }

  lemma GrowsAlloc(ram0: seq<Page>, ram: seq<Page>, owner0: map<nat, Role>, owner: map<nat, Role>,
                   dir: nat, lo: nat, u: nat, f: nat, ram1: seq<Page>, owner1: map<nat, Role>)
    requires Grows(ram0, ram, owner0, owner, dir, lo, u, 0) && IsDir(owner0, dir) && u <= PAGES && 0 !in owner
    requires f !in owner && 0 < f < |ram| && ram1 == ram[f := ZeroPage()] && owner1 == owner[f := Other]
    requires SameMaps(ram, ram1, owner1)
    ensures Grows(ram0, ram1, owner0, owner1, dir, lo, u, f)
  {
    hide Look;
    assert forall p: nat :: IsDir(owner0, p) ==> IsDir(owner1, p);
    forall v: nat | lo <= v < u
      ensures FreshPage(ram1, owner0, owner1, dir, v)
    {
      assert FreshPage(ram, owner0, owner, dir, v);
    }
  }

  lemma GrowsMap(ram0: seq<Page>, ram: seq<Page>, owner0: map<nat, Role>, owner: map<nat, Role>,
                 dir: nat, lo: nat, u: nat, f: nat, ram1: seq<Page>, owner1: map<nat, Role>, upto: nat)
    requires Grows(ram0, ram, owner0, owner, dir, lo, u, f) && IsDir(owner0, dir) && lo <= u < USERPAGES && f != 0
    requires MapsRange(ram, ram1, owner, dir, u, upto, f, PTE_W + PTE_U) && MapsRoles(owner, owner1, dir, u, upto, f)
    requires SameData(ram, ram1, owner) && u <= upto <= u + 1 && |ram1| == |ram|
    ensures Grows(ram0, ram1, owner0, owner1, dir, lo, upto, if upto == u then f else 0)
  {
    hide Look, MakePte;
    assert forall p: nat :: IsDir(owner0, p) ==> IsDir(owner, p);
    forall v: nat | lo <= v < u
      ensures FreshPage(ram1, owner0, owner1, dir, v)
    {
      assert FreshPage(ram, owner0, owner, dir, v);
    }
  }

  lemma GrowsKeeps(ram0: seq<Page>, ram: seq<Page>, owner0: map<nat, Role>, owner: map<nat, Role>,
                   dir: nat, lo: nat, u: nat, spare: nat)
    requires Grows(ram0, ram, owner0, owner, dir, lo, u, spare)
    ensures forall f :: f in owner0 ==> f in owner && owner[f] == owner0[f]
  {
  }

  lemma DataChain(ram: seq<Page>, ram1: seq<Page>, ram2: seq<Page>, owner: map<nat, Role>, owner1: map<nat, Role>)
    requires |ram| == |ram1| == |ram2| && forall f :: f in owner ==> f in owner1 && owner1[f] == owner[f]
    requires SameData(ram, ram1, owner) && SameData(ram1, ram2, owner1)
    ensures SameData(ram, ram2, owner)
  {
  }

  /** deallocuvm takes back all that was added. */
  lemma GrowsUndo(ram0: seq<Page>, ram: seq<Page>, owner0: map<nat, Role>, owner: map<nat, Role>,
                  dir: nat, lo: nat, u: nat, hi: nat, spare: nat, ram1: seq<Page>, owner1: map<nat, Role>)
    requires Grows(ram0, ram, owner0, owner, dir, lo, u, spare) && IsDir(owner0, dir) && lo <= u <= hi <= USERPAGES
    requires Clears(ram, ram1, owner, dir, lo, hi) && ClearsRoles(owner, owner1, dir, lo, hi)
    requires forall v :: lo <= v < hi ==> Look(ram0, dir, v) == 0
    requires forall f :: f in owner0 ==> !InSpan(owner0[f], dir, lo, hi)
    ensures SameMaps(ram0, ram1, owner0)
    ensures forall f :: f in owner0 ==> f in owner1 && owner1[f] == owner0[f]
    ensures forall f :: f in owner1 && f !in owner0 && f != spare ==> owner1[f].Table? && owner1[f].dir == dir
    ensures spare != 0 ==> spare in owner1 && owner1[spare].Other? && spare !in owner0
  {
    hide Look;
  }

  /** Pages of data keep their contents. */
  ghost predicate SameData(ram: seq<Page>, ram': seq<Page>, owner: map<nat, Role>) {
    forall x :: x in owner && x < |ram| && x < |ram'| && (owner[x].Other? || owner[x].Data?) ==> ram'[x] == ram[x]
  }

  // ----- Whole address spaces -----

  /** Frame f is the directory dir, one of its page tables or one of its user pages. */
  predicate Belongs(r: Role, f: nat, dir: nat) {
    f == dir || (r.Table? && r.dir == dir) || (r.Data? && r.dir == dir)
  }

  function Without(owner: map<nat, Role>, dir: nat): map<nat, Role> {
    map f | f in owner && !Belongs(owner[f], f, dir) :: owner[f]
  }

  /** The frames of dir lose their roles and wait to be freed. */
  function Retire(owner: map<nat, Role>, dir: nat): map<nat, Role> {
    map f | f in owner :: if Belongs(owner[f], f, dir) then Other else owner[f]
  }

  lemma RetireDir(ram: seq<Page>, head: nat, owner: map<nat, Role>, free: seq<nat>, dir: nat)
    requires MemInv(ram, head, owner, free) && IsDir(owner, dir)
    requires forall v :: 0 <= v < USERPAGES ==> Look(ram, dir, v) == 0
    ensures MemInv(ram, head, Retire(owner, dir), free)
    ensures forall p: nat :: IsDir(Retire(owner, dir), p) <==> IsDir(owner, p) && p != dir
  {
    hide Look, FreeList;
    var owner' := Retire(owner, dir);
    assert forall p: nat :: IsDir(owner', p) <==> IsDir(owner, p) && p != dir;
    assert forall f :: f in owner && owner[f].Data? ==> owner[f].dir != dir;
    assert Tables(ram, owner');
    assert Users(ram, owner');
  }

  /** A zeroed page becomes a directory that maps nothing. */
  lemma NewDir(ram: seq<Page>, head: nat, owner: map<nat, Role>, free: seq<nat>, f: nat)
    requires MemInv(ram, head, owner, free) && f in owner && owner[f].Other? && f < |ram| && ram[f] == ZeroPage()
    ensures MemInv(ram, head, owner[f := Dir], free)
    ensures forall v :: 0 <= v < PAGES ==> Look(ram, f, v) == 0
  {
    var owner' := owner[f := Dir];
    assert forall v :: 0 <= v < PAGES ==> Look(ram, f, v) == 0;
    hide Look, FreeList;
    assert forall p: nat :: IsDir(owner', p) <==> IsDir(owner, p) || p == f;
    assert Tables(ram, owner');
    assert Users(ram, owner');
  }

  /** Entries i .. 1023 of a retired directory page still name pages that wait to be freed. */
  ghost predicate Waiting(pd: Page, owner: map<nat, Role>, dir: nat, i: nat) {
    && (forall d :: i <= d < NENTRIES && Present(pd[d]) ==>
          FrameOf(pd[d]) in owner && owner[FrameOf(pd[d])].Other? && FrameOf(pd[d]) != dir)
    && (forall d, e :: 0 <= d < e < NENTRIES && Present(pd[d]) && Present(pd[e]) ==> FrameOf(pd[d]) != FrameOf(pd[e]))
  }

  lemma RetiredTables(ram: seq<Page>, head: nat, owner: map<nat, Role>, free: seq<nat>, dir: nat)
    requires MemInv(ram, head, owner, free) && IsDir(owner, dir)
    ensures dir < |ram| && Waiting(ram[dir], Retire(owner, dir), dir, 0)
  {
  }

  // ----- The kernel part of every address space -----

  const EXTMEM := 0x10_0000
  const PHYSTOP := 0xE00_0000
  const DEVSPACE := 0xFE00_0000

  datatype Kmap = Kmap(virt: nat, start: nat, size: nat, perm: nat)

  /** The table kmap; kdata is V2P(data), the end of the kernel's text and read-only data. */
  function Kmaps(kdata: nat): seq<Kmap>
    requires EXTMEM < kdata < PHYSTOP
  {
    [Kmap(KERNBASE, 0, EXTMEM, PTE_W),
     Kmap(KERNBASE + EXTMEM, EXTMEM, kdata - EXTMEM, 0),
     Kmap(KERNBASE + kdata, kdata, PHYSTOP - kdata, PTE_W),
     Kmap(DEVSPACE, DEVSPACE, 0x1_0000_0000 - DEVSPACE, PTE_W)]
  }

  /** The entry for page v after the first k rows of kmap. */
  function Kpte(kdata: nat, k: nat, v: nat): nat
    requires EXTMEM < kdata < PHYSTOP && k <= 4
  {
    if k == 0 then 0
    else
      var m := Kmaps(kdata)[k - 1];
      if m.virt / PGSIZE <= v <= (m.virt + m.size - 1) / PGSIZE
      then MakePte(m.start / PGSIZE + v - m.virt / PGSIZE, m.perm)
      else Kpte(kdata, k - 1, v)
  }

  /** The rows of kmap do not overlap and leave the user part alone. */
  lemma KmapFree(kdata: nat, k: nat, v: nat)
    requires EXTMEM < kdata < PHYSTOP && kdata % PGSIZE == 0 && k < 4
    requires var m := Kmaps(kdata)[k]; m.virt / PGSIZE <= v <= (m.virt + m.size - 1) / PGSIZE
    ensures Kpte(kdata, k, v) == 0 && USERPAGES <= v < PAGES
  {
    hide MakePte;
    assert k == 0 || k == 1 || k == 2 || k == 3;
  }

  lemma RowMaps(ram0: seq<Page>, ram1: seq<Page>, ram2: seq<Page>, owner0: map<nat, Role>, owner1: map<nat, Role>,
                dir: nat, first: nat, upto: nat, frame: nat, perm: nat)
    requires perm < PGSIZE && dir !in owner0 && MoreTables(owner0[dir := Dir], owner1, dir)
    requires |ram0| == |ram1| == |ram2| && SameMaps(ram0, ram1, owner0) && SameData(ram0, ram1, owner0)
    requires MapsRange(ram1, ram2, owner1, dir, first, upto, frame, perm) && SameData(ram1, ram2, owner1)
    ensures SameMaps(ram0, ram2, owner0) && SameData(ram0, ram2, owner0)
  {
    hide Look, MakePte;
  }

  lemma RowRoles(owner0: map<nat, Role>, owner1: map<nat, Role>, owner2: map<nat, Role>, dir: nat, first: nat,
                 upto: nat, frame: nat)
    requires MoreTables(owner0[dir := Dir], owner1, dir) && MapsRoles(owner1, owner2, dir, first, upto, frame)
    requires first >= USERPAGES
    ensures MoreTables(owner0[dir := Dir], owner2, dir) && IsDir(owner2, dir)
  {
  }

  lemma RowPtes(ram1: seq<Page>, ram2: seq<Page>, owner1: map<nat, Role>, dir: nat, kdata: nat, k: nat)
    requires EXTMEM < kdata < PHYSTOP && kdata % PGSIZE == 0 && k < 4 && IsDir(owner1, dir)
    requires forall v :: 0 <= v < PAGES ==> Look(ram1, dir, v) == Kpte(kdata, k, v)
    requires var m := Kmaps(kdata)[k];
             m.perm < PGSIZE && MapsRange(ram1, ram2, owner1, dir, m.virt / PGSIZE, (m.virt + m.size - 1) / PGSIZE + 1,
                                          m.start / PGSIZE, m.perm)
    ensures forall v :: 0 <= v < PAGES ==> Look(ram2, dir, v) == Kpte(kdata, k + 1, v)
  {
    hide Look, MakePte;
  }

  /** The layout: kernel memory is mapped one to one, writable except for text; devices to themselves. */
  lemma KernelLayout(kdata: nat, v: nat)
    requires EXTMEM < kdata < PHYSTOP && kdata % PGSIZE == 0 && v < PAGES
    ensures Kpte(kdata, 4, v) ==
            if USERPAGES <= v < USERPAGES + PHYSTOP / PGSIZE then
              MakePte(v - USERPAGES, if EXTMEM / PGSIZE <= v - USERPAGES < kdata / PGSIZE then 0 else PTE_W)
            else if DEVSPACE / PGSIZE <= v then MakePte(v, PTE_W)
            else 0
  {
    hide MakePte;
    assert Kpte(kdata, 0, v) == 0;
    assert USERPAGES <= v < USERPAGES + EXTMEM / PGSIZE ==> Kpte(kdata, 1, v) == MakePte(v - USERPAGES, PTE_W);
    assert !(USERPAGES <= v < USERPAGES + EXTMEM / PGSIZE) ==> Kpte(kdata, 1, v) == 0;
    assert Kpte(kdata, 2, v) ==
           if USERPAGES + EXTMEM / PGSIZE <= v < USERPAGES + kdata / PGSIZE then MakePte(v - USERPAGES, 0)
           else Kpte(kdata, 1, v);
    assert Kpte(kdata, 3, v) ==
           if USERPAGES + kdata / PGSIZE <= v < USERPAGES + PHYSTOP / PGSIZE then MakePte(v - USERPAGES, PTE_W)
           else Kpte(kdata, 2, v);
  }

  // ----- Copying an address space -----

  /** Page v of d is a copy of page v of dir as it was in ram0: same flags, same contents, a frame of its own. */
  ghost predicate CopiedPage(ram0: seq<Page>, ram: seq<Page>, owner0: map<nat, Role>, owner: map<nat, Role>,
                             dir: nat, d: nat, v: nat) {
    var w0, w := Look(ram0, dir, v), Look(ram, d, v);
    && w != 0 && FlagsOf(w) == FlagsOf(w0) && FrameOf(w) !in owner0 && FrameOf(w) in owner &&
       owner[FrameOf(w)] == Data(d, v)
    && FrameOf(w) < |ram| && FrameOf(w0) < |ram0| && ram[FrameOf(w)] == ram0[FrameOf(w0)]
  }

  /** Pages below u of d are copies, the others are those of the kernel; `spare` holds the next copy. */
  ghost predicate Copies(ram0: seq<Page>, ram: seq<Page>, owner0: map<nat, Role>, owner: map<nat, Role>,
                         dir: nat, d: nat, kdata: nat, u: nat, spare: nat)
    requires EXTMEM < kdata < PHYSTOP
  {
    && d !in owner0 && IsDir(owner, d) && SameMaps(ram0, ram, owner0) && SameData(ram0, ram, owner0)
    && (forall v: nat :: v < u ==> CopiedPage(ram0, ram, owner0, owner, dir, d, v))
    && (forall v :: u <= v < PAGES ==> Look(ram, d, v) == Kpte(kdata, 4, v))
    && (forall f :: f in owner0 ==> f in owner && owner[f] == owner0[f])
    && (forall f :: f in owner && f !in owner0 && f != spare ==> Belongs(owner[f], f, d))
    && (spare != 0 ==> spare in owner && owner[spare].Other? && spare !in owner0 && spare < |ram| && spare != d)
  }

  lemma CopiesAlloc(ram0: seq<Page>, ram: seq<Page>, owner0: map<nat, Role>, owner: map<nat, Role>, dir: nat, d: nat,
                    kdata: nat, u: nat, f: nat, ram1: seq<Page>, owner1: map<nat, Role>)
    requires EXTMEM < kdata < PHYSTOP && Copies(ram0, ram, owner0, owner, dir, d, kdata, u, 0) && 0 !in owner
    requires f !in owner && 0 < f < |ram| == |ram1| && owner1 == owner[f := Other] && u <= PAGES
    requires (forall x :: 0 <= x < |ram| && x != f ==> ram1[x] == ram[x]) && SameMaps(ram, ram1, owner1)
    ensures Copies(ram0, ram1, owner0, owner1, dir, d, kdata, u, f)
  {
    hide Look, Kpte;
    assert forall p: nat :: IsDir(owner0, p) ==> IsDir(owner1, p);
    forall v: nat | v < u
      ensures CopiedPage(ram0, ram1, owner0, owner1, dir, d, v)
    {
      assert CopiedPage(ram0, ram, owner0, owner, dir, d, v);
    }
  }

  lemma CopiesMap(ram0: seq<Page>, ram: seq<Page>, owner0: map<nat, Role>, owner: map<nat, Role>, dir: nat, d: nat,
                  kdata: nat, u: nat, f: nat, ram1: seq<Page>, owner1: map<nat, Role>, upto: nat, flags: nat)
    requires EXTMEM < kdata < PHYSTOP && Copies(ram0, ram, owner0, owner, dir, d, kdata, u, f) && f != 0
    requires u < USERPAGES && u <= upto <= u + 1 && |ram1| == |ram| == |ram0| && flags < PGSIZE && flags % 2 == 1
    requires MapsRange(ram, ram1, owner, d, u, upto, f, flags) && MapsRoles(owner, owner1, d, u, upto, f)
    requires SameData(ram, ram1, owner) && 0 !in owner1
    requires FlagsOf(Look(ram0, dir, u)) == flags && FrameOf(Look(ram0, dir, u)) < |ram0|
    requires ram[f] == ram0[FrameOf(Look(ram0, dir, u))]
    ensures Copies(ram0, ram1, owner0, owner1, dir, d, kdata, upto, if upto == u then f else 0)
  {
    hide Look, Kpte, MakePte;
    assert forall p: nat :: IsDir(owner0, p) ==> IsDir(owner, p);
    DataChain(ram0, ram, ram1, owner0, owner);
    forall v: nat | v < u
      ensures CopiedPage(ram0, ram1, owner0, owner1, dir, d, v)
    {
      assert CopiedPage(ram0, ram, owner0, owner, dir, d, v);
    }
  }

  // ----- How many pages an operation takes -----

  /** The entries lo .. hi-1 of a directory that have no page table. */
  function Lacking(pd: Page, lo: nat, hi: nat): nat
    requires hi <= NENTRIES
    decreases hi - lo
  {
    if lo >= hi then 0 else (if Present(pd[lo]) then 0 else 1) + Lacking(pd, lo + 1, hi)
  }

  /** The page tables that are missing for the pages u .. upto-1. */
  function TablesFor(pd: Page, u: nat, upto: nat): nat
    requires upto <= PAGES
  {
    if u >= upto then 0 else Lacking(pd, u / NENTRIES, (upto - 1) / NENTRIES + 1)
  }

  /** pd' has page tables where pd has, and for the pages u .. upto-1. */
  ghost predicate Furnished(pd: Page, pd': Page, u: nat, upto: nat) {
    forall d :: 0 <= d < NENTRIES ==>
      (Present(pd'[d]) <==> Present(pd[d]) || (u < upto && u / NENTRIES <= d <= (upto - 1) / NENTRIES))
  }

  lemma {:induction false} LackingSame(pd: Page, pd': Page, lo: nat, hi: nat)
    requires hi <= NENTRIES && forall d :: lo <= d < hi ==> (Present(pd'[d]) <==> Present(pd[d]))
    ensures Lacking(pd', lo, hi) == Lacking(pd, lo, hi)
    decreases hi - lo
  {
    if lo < hi { LackingSame(pd, pd', lo + 1, hi); }
  }

  /** Mapping page u costs a page table if there is none, and saves it for the pages behind. */
  lemma TablesStep(pd: Page, pd': Page, u: nat, upto: nat)
    requires u < upto <= PAGES && Furnished(pd, pd', u, u + 1)
    ensures TablesFor(pd, u, upto) == (if Present(pd[u / NENTRIES]) then 0 else 1) + TablesFor(pd', u + 1, upto)
  {
    var d, hi := u / NENTRIES, (upto - 1) / NENTRIES + 1;
    LackingSame(pd, pd', d + 1, hi);
    assert Lacking(pd, d, hi) == (if Present(pd[d]) then 0 else 1) + Lacking(pd, d + 1, hi);
    assert Lacking(pd', d, hi) == Lacking(pd', d + 1, hi);
    assert (u + 1) / NENTRIES == d || (u + 1) / NENTRIES == d + 1;
    assert u + 1 >= upto ==> hi == d + 1 && Lacking(pd, d + 1, hi) == 0;
  }

  lemma StillDir(owner0: map<nat, Role>, owner: map<nat, Role>, dir: nat)
    requires MoreTables(owner0, owner, dir) && IsDir(owner0, dir)
    ensures IsDir(owner, dir)
  {
  }

  lemma NotMapped(ram0: seq<Page>, ram: seq<Page>, owner0: map<nat, Role>, owner: map<nat, Role>, dir: nat, u: nat,
                  frame: nat)
    requires MoreTables(owner0, owner, dir) && IsDir(owner0, dir) && |ram| == |ram0|
    requires forall x :: x in owner0 && x != dir && x < |ram| ==> ram[x] == ram0[x]
    ensures MapsRoles(owner0, owner, dir, u, u, frame) && SameData(ram0, ram, owner0)
  {
  }

  lemma MapReady(ram0: seq<Page>, ram: seq<Page>, owner0: map<nat, Role>, owner: map<nat, Role>, dir: nat, u: nat,
                 frame: nat)
    requires SameMaps(ram0, ram, owner0) && MoreTables(owner0, owner, dir) && IsDir(owner0, dir) && u < PAGES
    requires Look(ram0, dir, u) == 0 && (u < USERPAGES ==> frame in owner0 && owner0[frame].Other?)
    ensures Look(ram, dir, u) == 0 && (u < USERPAGES ==> frame in owner && owner[frame].Other?)
  {
    hide Look;
  }

  /** What a walk with alloc and the store of the entry come to. */
  lemma Mapped(ram0: seq<Page>, ram1: seq<Page>, ram2: seq<Page>, owner0: map<nat, Role>, owner1: map<nat, Role>,
               owner2: map<nat, Role>, dir: nat, u: nat, frame: nat, w: nat, t: nat)
    requires SameMaps(ram0, ram1, owner0) && MoreTables(owner0, owner1, dir) && IsDir(owner0, dir)
    requires |ram0| == |ram1| == |ram2| && t < |ram1| && t in owner1 && owner1[t].Table?
    requires forall x :: x in owner0 && x != dir && x < |ram1| ==> ram1[x] == ram0[x]
    requires forall x :: 0 <= x < |ram1| && x != t ==> ram2[x] == ram1[x]
    requires LookChange(ram1, ram2, owner1, dir, u, w)
    requires owner2 == if u < USERPAGES then owner1[frame := Data(dir, u)] else owner1
    requires u < USERPAGES ==> frame in owner0
    ensures LookChange(ram0, ram2, owner0, dir, u, w) && SameData(ram0, ram2, owner0)
    ensures MapsRoles(owner0, owner2, dir, u, u + 1, frame)
  {
    hide Look;
  }

  lemma MappedPool(owner0: map<nat, Role>, free0: seq<nat>, owner: map<nat, Role>, free: seq<nat>, frame: nat,
                   role: Role)
    requires SamePool(owner0, free0, owner, free) && frame in owner
    ensures SamePool(owner0, free0, owner[frame := role], free)
  {
  }

  lemma NoneFurnished(pd: Page, u: nat)
    ensures Furnished(pd, pd, u, u) && (u <= PAGES ==> TablesFor(pd, u, u) == 0)
  {
  }

  lemma NotFurnished(pd: Page, pd1: Page, pd2: Page, u: nat, v: nat)
    requires Furnished(pd, pd1, u, v) && Furnished(pd1, pd2, v, v)
    ensures Furnished(pd, pd2, u, v)
  {
  }

  lemma TablesAhead(pd: Page, u: nat, upto: nat)
    requires u < upto <= PAGES
    ensures TablesFor(pd, u, u + 1) == (if Present(pd[u / NENTRIES]) then 0 else 1) <= TablesFor(pd, u, upto)
  {
    assert Lacking(pd, u / NENTRIES + 1, u / NENTRIES + 1) == 0;
  }

  lemma TablesLeft(pd: Page, u: nat, upto: nat)
    requires u < upto <= PAGES && !Present(pd[u / NENTRIES])
    ensures TablesFor(pd, u, upto) > 0
  {
  }

  lemma FurnishedMore(pd: Page, pd1: Page, pd2: Page, u: nat, v: nat)
    requires u <= v && Furnished(pd, pd1, u, v) && Furnished(pd1, pd2, v, v + 1)
    ensures Furnished(pd, pd2, u, v + 1)
  {
    if u < v { assert (v - 1) / NENTRIES == v / NENTRIES || (v - 1) / NENTRIES == v / NENTRIES - 1; }
  }

  lemma {:induction false} LackingSplit(pd: Page, lo: nat, mid: nat, hi: nat)
    requires lo <= mid <= hi <= NENTRIES
    ensures Lacking(pd, lo, hi) == Lacking(pd, lo, mid) + Lacking(pd, mid, hi)
    decreases mid - lo
  {
    if lo < mid { LackingSplit(pd, lo + 1, mid, hi); }
  }

  lemma {:induction false} LackingAll(pd: Page, lo: nat, hi: nat, present: bool)
    requires lo <= hi <= NENTRIES && forall d :: lo <= d < hi ==> Present(pd[d]) == present
    ensures Lacking(pd, lo, hi) == if present then 0 else hi - lo
    decreases hi - lo
  {
    if lo < hi { LackingAll(pd, lo + 1, hi, present); }
  }

  /** The directory entry of the last kernel text page. */
  function TextEnd(kdata: nat): nat { 512 + (kdata - 1) / 0x40_0000 }

  /** The directory entries that the first k rows of kmap need, and how many they are: 56 for physical
      memory and 8 for devices in the end. */
  predicate KernelTable(kdata: nat, k: nat, d: nat)
    requires EXTMEM < kdata < PHYSTOP
  {
    || (k >= 1 && d == 512) || (k >= 2 && 512 <= d <= TextEnd(kdata)) || (k >= 3 && 512 <= d < 568)
    || (k >= 4 && 1016 <= d < 1024)
  }

  function KernelTables(kdata: nat, k: nat): nat
    requires EXTMEM < kdata < PHYSTOP && k <= 4
  {
    if k == 0 then 0 else if k == 1 then 1 else if k == 2 then TextEnd(kdata) - 511 else if k == 3 then 56 else 64
  }

  ghost predicate KernelPd(pd: Page, kdata: nat, k: nat)
    requires EXTMEM < kdata < PHYSTOP
  {
    forall d :: 0 <= d < NENTRIES ==> (Present(pd[d]) <==> KernelTable(kdata, k, d))
  }

  lemma NoTables(kdata: nat)
    requires EXTMEM < kdata < PHYSTOP
    ensures KernelTables(kdata, 0) == 0 && KernelTables(kdata, 4) == 64 && KernelPd(ZeroPage(), kdata, 0)
  {
  }

  /** The directory entries that row k of kmap goes through. */
  lemma RowEntries(kdata: nat, k: nat)
    requires EXTMEM < kdata < PHYSTOP && kdata % PGSIZE == 0 && k < 4
    ensures var m := Kmaps(kdata)[k];
            var first, end := m.virt / PGSIZE, (m.virt + m.size - 1) / PGSIZE + 1;
            && first < end <= PAGES
            && first / NENTRIES == (if k < 2 then 512 else if k == 2 then 512 + kdata / 0x40_0000 else 1016)
            && (end - 1) / NENTRIES == (if k == 0 then 512 else if k == 1 then TextEnd(kdata)
                                        else if k == 2 then 567 else 1023)
  {
    if k == 2 { assert (KERNBASE + kdata) / PGSIZE / NENTRIES == 512 + kdata / 0x40_0000; }
  }

  lemma RowNeeds(pd: Page, kdata: nat, k: nat)
    requires EXTMEM < kdata < PHYSTOP && kdata % PGSIZE == 0 && k < 4 && KernelPd(pd, kdata, k)
    ensures var m := Kmaps(kdata)[k];
            var first, end := m.virt / PGSIZE, (m.virt + m.size - 1) / PGSIZE + 1;
            && first < end <= PAGES && KernelTables(kdata, k + 1) == KernelTables(kdata, k) + TablesFor(pd, first, end)
            && KernelTables(kdata, k + 1) <= 64
  {
    hide Kmaps, Lacking;
    RowEntries(kdata, k);
    var mid := TextEnd(kdata) + 1;
    if k == 0 {
      LackingAll(pd, 512, 513, false);
    } else if k == 1 {
      LackingSplit(pd, 512, 513, mid);
      LackingAll(pd, 512, 513, true);
      LackingAll(pd, 513, mid, false);
    } else if k == 2 {
      var lo := 512 + kdata / 0x40_0000;
      LackingSplit(pd, lo, mid, 568);
      LackingAll(pd, lo, mid, true);
      LackingAll(pd, mid, 568, false);
    } else {
      LackingAll(pd, 1016, 1024, false);
    }
  }

  /** A new address space has no page tables for the user's part. */
  lemma UserTables(pd: Page, kdata: nat, n: nat)
    requires EXTMEM < kdata < PHYSTOP && KernelPd(pd, kdata, 4) && n <= USERPAGES
    ensures TablesFor(pd, 0, n) == (n + NENTRIES - 1) / NENTRIES
  {
    if n > 0 { LackingAll(pd, 0, (n - 1) / NENTRIES + 1, false); }
  }

  lemma GrowsDir(ram0: seq<Page>, ram: seq<Page>, owner0: map<nat, Role>, owner: map<nat, Role>, dir: nat, lo: nat,
                 u: nat, spare: nat)
    requires Grows(ram0, ram, owner0, owner, dir, lo, u, spare) && IsDir(owner0, dir)
    ensures dir in owner
  {
  }

  lemma CopiesDir(ram0: seq<Page>, ram: seq<Page>, owner0: map<nat, Role>, owner: map<nat, Role>, dir: nat, d: nat,
                  kdata: nat, u: nat, spare: nat)
    requires EXTMEM < kdata < PHYSTOP && Copies(ram0, ram, owner0, owner, dir, d, kdata, u, spare)
    ensures d in owner
  {
  }

  lemma RowDone(pd: Page, pd': Page, kdata: nat, k: nat)
    requires EXTMEM < kdata < PHYSTOP && kdata % PGSIZE == 0 && k < 4 && KernelPd(pd, kdata, k)
    requires var m := Kmaps(kdata)[k];
             Furnished(pd, pd', m.virt / PGSIZE, (m.virt + m.size - 1) / PGSIZE + 1)
    ensures KernelPd(pd', kdata, k + 1)
  {
    var m := Kmaps(kdata)[k];
    var lo, hi := m.virt / PGSIZE / NENTRIES, (m.virt + m.size - 1) / PGSIZE / NENTRIES;
    assert k == 0 ==> lo == 512 == hi;
    assert k == 1 ==> lo == 512 && hi == TextEnd(kdata);
    assert k == 2 ==> 512 <= lo <= TextEnd(kdata) + 1 && hi == 567;
    assert k == 3 ==> lo == 1016 && hi == 1023;
  }

  class Memory {
    var ram: seq<Page>
    var head: nat          // kmem.freelist
    var userinited: bool
    var upg: nat           // pages charged to the container
    const msz: nat         // its limit in bytes
    ghost var owner: map<nat, Role>
    ghost var free: seq<nat>

    ghost predicate Valid()
      reads this
    {
      MemInv(ram, head, owner, free)
    }

    /** How many pages kalloc would hand out: as many as are free, and the container's limit allows. */
    ghost function Budget(): nat
      reads this`userinited, this`upg, this`free
    {
      if !userinited then |free|
      else if upg * PGSIZE > msz then 0
      else Min(|free|, (msz - upg * PGSIZE) / PGSIZE)
    }

    /** The directory page. */
    ghost function Pd(dir: nat): Page
      reads this`ram
    {
      if dir < |ram| then ram[dir] else ZeroPage()
    }

    /** Take the first free page; 0 when the list is empty or the container is over its limit. */
    method Kalloc() returns (f: nat)
      requires Valid()
      modifies this`head, this`upg, this`owner, this`free
      ensures Valid() && SamePool(old(owner), old(free), owner, free)
      ensures f == 0 <==> (userinited && old(upg) * PGSIZE + PGSIZE > msz) || old(free) == []
      ensures f != 0 <==> old(Budget()) > 0
      ensures Budget() == if f != 0 then old(Budget()) - 1 else 0
      ensures f == 0 ==> owner == old(owner) && free == old(free)
      ensures f != 0 ==> f == old(free)[0] && free == old(free)[1..] && f !in old(owner)
      ensures f != 0 ==> owner == old(owner)[f := Other] && f < |ram|
      ensures userinited && old(upg) * PGSIZE <= msz ==> upg * PGSIZE <= msz
    {
      hide MemInv;
      FreeHead(ram, head, owner, free);
      f := 0;
      if userinited && upg * PGSIZE + PGSIZE > msz {
        return;
      }
      if head != 0 {
        PopFree(ram, head, owner, free);
        f := (head - KERNBASE) / PGSIZE;
        head := ram[f][0];
        owner, free := owner[f := Other], free[1..];
        if userinited {
          upg := upg + 1;
        }
      }
    }

    /** Fill the page with junk and put it at the front of the list. */
    method Kfree(f: nat)
      requires Valid() && f in owner && owner[f].Other?
      modifies this`ram, this`head, this`upg, this`owner, this`free
      ensures Valid() && owner == old(owner) - {f} && free == [f] + old(free)
      ensures SameMaps(old(ram), ram, old(owner)) && upg <= old(upg)
      ensures |ram| == |old(ram)| && forall x :: 0 <= x < |ram| && x != f ==> ram[x] == old(ram)[x]
    {
      PushFree(ram, head, owner, free, f, Junk()[0 := head]);
      InRange(ram, head, owner, free, f);
      ram := ram[f := Junk()];
      ram := ram[f := ram[f][0 := head]];
      assert ram == old(ram)[f := Junk()[0 := old(head)]];
      head := KvAddr(f);
      owner, free := owner - {f}, [f] + free;
      if userinited && upg > 0 {
        upg := upg - 1;
      }
    }

    /** The page table for page v of dir, 0 if there is none.  With alloc a missing table is created;
        the map does not change. */
    method Walkpgdir(dir: nat, v: nat, alloc: bool) returns (t: nat)
      requires Valid() && IsDir(owner, dir) && v < PAGES
      modifies this`ram, this`head, this`upg, this`owner, this`free
      ensures Valid() && SameMaps(old(ram), ram, old(owner)) && |ram| == |old(ram)|
      ensures SamePool(old(owner), old(free), owner, free) && MoreTables(old(owner), owner, dir)
      ensures t != 0 <==> Present(ram[dir][v / NENTRIES])
      ensures t != 0 ==> t == FrameOf(ram[dir][v / NENTRIES]) && t < |ram|
      ensures Present(old(ram)[dir][v / NENTRIES]) || !alloc ==>
                ram == old(ram) && owner == old(owner) && free == old(free)
      ensures !alloc ==> (t != 0 <==> Present(old(ram)[dir][v / NENTRIES])) && upg == old(upg) && head == old(head)
      ensures forall x :: x in old(owner) && x != dir ==> ram[x] == old(ram)[x]
      ensures alloc ==> (t != 0 <==> Present(old(Pd(dir))[v / NENTRIES]) || old(Budget()) > 0)
      ensures Furnished(old(Pd(dir)), Pd(dir), v, if t != 0 then v + 1 else v)
      ensures Budget() == old(Budget()) - if t != 0 && !Present(old(Pd(dir))[v / NENTRIES]) then 1 else 0
    {
      hide Look, MemInv;
      InRange(ram, head, owner, free, dir);
      var pde := ram[dir][v / NENTRIES];
      if Present(pde) {
        WalkFound(ram, head, owner, free, dir, v);
        return FrameOf(pde);
      }
      if !alloc {
        return 0;
      }
      t := Kalloc();
      if t == 0 {
        return;
      }
      AddTable(ram, head, owner, free, dir, v / NENTRIES, t);
      var w := MakePte(t, PTE_P + PTE_W + PTE_U);
      ram := ram[t := ZeroPage()];
      ram := ram[dir := ram[dir][v / NENTRIES := w]];
      owner := owner[t := Table(dir, v / NENTRIES)];
    }

    /** One round of mappages: walk to the entry of page u and fill it. */
    method MapOne(dir: nat, u: nat, frame: nat, perm: nat) returns (ok: bool)
      requires Valid() && IsDir(owner, dir) && u < PAGES && perm < PGSIZE && Look(ram, dir, u) == 0
      requires u < USERPAGES ==> frame in owner && owner[frame].Other?
      modifies this`ram, this`head, this`upg, this`owner, this`free
      ensures Valid() && |ram| == |old(ram)| && SamePool(old(owner), old(free), owner, free)
      ensures ok ==> LookChange(old(ram), ram, old(owner), dir, u, MakePte(frame, perm))
      ensures !ok ==> SameMaps(old(ram), ram, old(owner))
      ensures MapsRoles(old(owner), owner, dir, u, if ok then u + 1 else u, frame)
      ensures SameData(old(ram), ram, old(owner))
      ensures ok <==> Present(old(Pd(dir))[u / NENTRIES]) || old(Budget()) > 0
      ensures Furnished(old(Pd(dir)), Pd(dir), u, if ok then u + 1 else u)
      ensures Budget() == old(Budget()) - if ok && !Present(old(Pd(dir))[u / NENTRIES]) then 1 else 0
    {
      hide Look, MemInv, Furnished, Budget, SamePool, LookChange, SameMaps, MapsRoles, SameData, MoreTables;
      InRange(ram, head, owner, free, dir);
      ghost var ram0, owner0 := ram, owner;
      var t := Walkpgdir(dir, u, true);
      if t == 0 {
        NotMapped(ram0, ram, owner0, owner, dir, u, frame);
        return false;
      }
      ghost var ram1, owner1 := ram, owner;
      StillDir(owner0, owner, dir);
      InRange(ram, head, owner, free, dir);
      WalkFound(ram, head, owner, free, dir, u);
      var w := MakePte(frame, perm);
      MapReady(ram0, ram, owner0, owner, dir, u, frame);
      MapPage(ram, head, owner, free, dir, u, w);
      ram := ram[t := ram[t][u % NENTRIES := w]];
      assert ram == SetPte(ram1, dir, u, w);
      if u < USERPAGES {
        owner := owner[frame := Data(dir, u)];
        MappedPool(owner0, old(free), owner1, free, frame, Data(dir, u));
      }
      Mapped(ram0, ram1, ram, owner0, owner1, owner, dir, u, frame, w, t);
      return true;
    }

    /** Where mappages stands after the pages first .. upto-1. */
    ghost predicate Mapping(ram0: seq<Page>, owner0: map<nat, Role>, free0: seq<nat>, dir: nat,
                            first: nat, upto: nat, frame: nat, perm: nat)
      reads this
      requires perm < PGSIZE
    {
      && Valid() && |ram| == |ram0| && SamePool(owner0, free0, owner, free)
      && MapsRange(ram0, ram, owner0, dir, first, upto, frame, perm)
      && MapsRoles(owner0, owner, dir, first, upto, frame) && SameData(ram0, ram, owner0)
    }

    method MapRound(dir: nat, u: nat, f: nat, perm: nat, ghost ram0: seq<Page>, ghost owner0: map<nat, Role>,
                    ghost free0: seq<nat>, ghost first: nat, ghost last: nat, ghost frame: nat) returns (ok: bool)
      requires perm < PGSIZE && first <= u <= last < PAGES && f == frame + u - first
      requires Mapping(ram0, owner0, free0, dir, first, u, frame, perm)
      requires IsDir(owner0, dir) && SetAside(owner0, first, last, frame) && Look(ram0, dir, u) == 0
      modifies this`ram, this`head, this`upg, this`owner, this`free
      ensures Mapping(ram0, owner0, free0, dir, first, if ok then u + 1 else u, frame, perm)
      ensures ok <==> Present(old(Pd(dir))[u / NENTRIES]) || old(Budget()) > 0
      ensures Furnished(old(Pd(dir)), Pd(dir), u, if ok then u + 1 else u)
      ensures Budget() == old(Budget()) - if ok && !Present(old(Pd(dir))[u / NENTRIES]) then 1 else 0
    {
      hide Look, MemInv, MakePte, MapsRange, MapsRoles, SetAside, LookChange, SameMaps, SamePool, SameData;
      hide Furnished, Present, Budget;
      ghost var ram1, owner1, free1 := ram, owner, free;
      RolesDirs(owner0, owner, dir, first, u, last, frame);
      NextReady(ram0, ram, owner0, owner, dir, first, u, last, frame, perm);
      ok := MapOne(dir, u, f, perm);
      PoolStep(owner0, free0, owner1, free1, owner, free);
      DataStep(ram0, ram1, ram, owner0, owner1, dir, first, u, frame);
      RolesStep(owner0, owner1, owner, dir, first, u, if ok then u + 1 else u, frame);
      if ok {
        MapsStep(ram0, ram1, ram, owner0, owner1, dir, first, u, frame, perm);
      } else {
        MapsSame(ram0, ram1, ram, owner0, owner1, dir, first, u, frame, perm);
      }
    }

    /** Map the pages of [va, va+size) to physical memory from pa on.  The range may end at 2^32.
        When a page table cannot be allocated, the pages before `upto` stay mapped. */
    method Mappages(dir: nat, va: nat, size: nat, pa: nat, perm: nat) returns (ok: bool, ghost upto: nat)
      requires Valid() && IsDir(owner, dir) && perm < PGSIZE
      requires 0 < size && va + size <= 0x1_0000_0000 && pa % PGSIZE == 0
      requires forall v :: va / PGSIZE <= v <= (va + size - 1) / PGSIZE ==> Look(ram, dir, v) == 0
      requires SetAside(owner, va / PGSIZE, (va + size - 1) / PGSIZE, pa / PGSIZE)
      modifies this`ram, this`head, this`upg, this`owner, this`free
      ensures Mapping(old(ram), old(owner), old(free), dir, va / PGSIZE, upto, pa / PGSIZE, perm)
      ensures va / PGSIZE <= upto <= (va + size - 1) / PGSIZE + 1
      ensures ok <==> upto == (va + size - 1) / PGSIZE + 1
      ensures ok <==> TablesFor(old(Pd(dir)), va / PGSIZE, (va + size - 1) / PGSIZE + 1) <= old(Budget())
      ensures ok ==> Budget() == old(Budget()) - TablesFor(old(Pd(dir)), va / PGSIZE, (va + size - 1) / PGSIZE + 1)
      ensures Furnished(old(Pd(dir)), Pd(dir), va / PGSIZE, upto)
    {
      hide Look, SetAside, Mapping, Furnished, TablesFor, Present, Budget;
      ghost var ram0, owner0, free0 := ram, owner, free;
      ghost var first, frame := va / PGSIZE, pa / PGSIZE;
      assert Mapping(ram0, owner0, free0, dir, first, first, frame, perm) by { StartMapping(dir, first, frame, perm); }
      NoneFurnished(Pd(dir), first);
      var a := va / PGSIZE * PGSIZE;
      var last := (va + size - 1) / PGSIZE * PGSIZE;
      ghost var end := (va + size - 1) / PGSIZE + 1;
      var b := pa;
      upto := first;
      while true
        invariant a == upto * PGSIZE <= last && b == (frame + upto - first) * PGSIZE && first <= upto
        invariant Mapping(ram0, owner0, free0, dir, first, upto, frame, perm)
        invariant Furnished(old(Pd(dir)), Pd(dir), first, upto)
        invariant Budget() - TablesFor(Pd(dir), upto, end) == old(Budget()) - TablesFor(old(Pd(dir)), first, end)
        decreases last - a
      {
        ghost var pd := Pd(dir);
        ok := MapRound(dir, a / PGSIZE, b / PGSIZE, perm, ram0, owner0, free0, first, last / PGSIZE, frame);
        if !ok {
          NotFurnished(old(Pd(dir)), pd, Pd(dir), first, upto);
          TablesLeft(pd, upto, end);
          return false, upto;
        }
        TablesStep(pd, Pd(dir), upto, end);
        FurnishedMore(old(Pd(dir)), pd, Pd(dir), first, upto);
        upto := upto + 1;
        if a == last {
          NoneFurnished(Pd(dir), end);
          return true, upto;
        }
        a := a + PGSIZE;
        b := b + PGSIZE;
      }
    }

    /** Where deallocuvm stands when the pages lo .. u-1 are gone. */
    ghost predicate Clearing(ram0: seq<Page>, owner0: map<nat, Role>, free0: seq<nat>, dir: nat, lo: nat, u: nat)
      reads this
    {
      && Valid() && |ram| == |ram0| && SamePool(owner0, free0, owner, free)
      && Clears(ram0, ram, owner0, dir, lo, u) && ClearsRoles(owner0, owner, dir, lo, u) && SameData(ram0, ram, owner)
    }

    /** Free the page mapped at u and clear its entry (vm.c does the two in the other order; nothing
        looks at the entry in between). */
    method DropPage(dir: nat, u: nat, t: nat, ghost ram0: seq<Page>, ghost owner0: map<nat, Role>,
                    ghost free0: seq<nat>, ghost lo: nat)
      requires Clearing(ram0, owner0, free0, dir, lo, u) && lo <= u < USERPAGES && IsDir(owner0, dir)
      requires IsDir(owner, dir) && dir < |ram| && t == FrameOf(ram[dir][u / NENTRIES]) < |ram|
      requires Look(ram, dir, u) != 0 && Look(ram, dir, u) == ram[t][u % NENTRIES]
      modifies this`ram, this`head, this`upg, this`owner, this`free
      ensures Clearing(ram0, owner0, free0, dir, lo, u + 1) && upg <= old(upg)
    {
      hide Look, MemInv, Clears, ClearsRoles, LookChange, SameMaps;
      WalkedTable(ram, head, owner, free, dir, u);
      UnmapPage(ram, head, owner, free, dir, u);
      OneFrame(ram, head, owner, free, dir, u);
      var pa := FrameOf(ram[t][u % NENTRIES]);
      ghost var ram1, owner1, free1 := ram, owner, free;
      ram := ram[t := ram[t][u % NENTRIES := 0]];
      assert ram == SetPte(ram1, dir, u, 0);
      owner := owner[pa := Other];
      ghost var ram2, owner2 := ram, owner;
      Kfree(pa);
      ClearsStep(ram0, ram1, ram2, ram, owner0, owner1, owner2, dir, lo, u, pa);
    }

    /** One round of deallocuvm's loop at address a; the result is the next address. */
    method ClearRound(dir: nat, a: nat, ghost hi: nat, ghost ram0: seq<Page>, ghost owner0: map<nat, Role>,
                      ghost free0: seq<nat>, ghost lo: nat) returns (a': nat)
      requires a % PGSIZE == 0 && lo <= a / PGSIZE < hi <= USERPAGES && IsDir(owner0, dir)
      requires Clearing(ram0, owner0, free0, dir, lo, a / PGSIZE)
      modifies this`ram, this`head, this`upg, this`owner, this`free
      ensures a < a' && a' % PGSIZE == 0 && upg <= old(upg)
      ensures Clearing(ram0, owner0, free0, dir, lo, Min(a' / PGSIZE, hi))
    {
      hide Look, Clears, ClearsRoles, SamePool, SameData, MemInv, Users, Tables, FreeList;
      var u := a / PGSIZE;
      ClearsDirs(owner0, owner, dir, lo, u);
      InRange(ram, head, owner, free, dir);
      var t := Walkpgdir(dir, u, false);
      LookCases(ram, head, owner, free, dir, u);
      UsersOf(ram, head, owner, free);
      a' := a;
      NextPage(a);
      if t == 0 {
        a' := (a / 0x40_0000 + 1) * 0x40_0000 - PGSIZE;
        SkipTo(a);
        ClearsSkip(ram0, ram, owner0, owner, dir, lo, u, Min((u / NENTRIES + 1) * NENTRIES, hi));
      } else if Present(ram[t][u % NENTRIES]) {
        DropPage(dir, u, t, ram0, owner0, free0, lo);
      } else {
        ClearsSkip(ram0, ram, owner0, owner, dir, lo, u, u + 1);
      }
      a' := a' + PGSIZE;
    }

    /** Shrink the user part of dir from oldsz to newsz bytes.  Absent page tables are jumped over;
        the effect is that of unmapping page by page. */
    method Deallocuvm(dir: nat, oldsz: nat, newsz: nat) returns (r: nat)
      requires Valid() && IsDir(owner, dir) && oldsz <= KERNBASE
      modifies this`ram, this`head, this`upg, this`owner, this`free
      ensures r == if newsz >= oldsz then oldsz else newsz
      ensures newsz >= oldsz ==> ram == old(ram) && owner == old(owner) && free == old(free) && Valid()
      ensures newsz < oldsz ==>
                Clearing(old(ram), old(owner), old(free), dir, PagesUp(newsz), PagesUp(oldsz))
      ensures upg <= old(upg)
    {
      hide Clearing, Look, MemInv;
      if newsz >= oldsz {
        return oldsz;
      }
      ghost var ram0, owner0, free0 := ram, owner, free;
      ghost var lo, hi := PagesUp(newsz), PagesUp(oldsz);
      StartClearing(dir, lo);
      var a := (newsz + PGSIZE - 1) / PGSIZE * PGSIZE;
      ghost var u := lo;
      while a < oldsz
        invariant a % PGSIZE == 0 && lo <= u <= hi && u == Min(a / PGSIZE, hi)
        invariant Clearing(ram0, owner0, free0, dir, lo, u) && upg <= old(upg)
        decreases oldsz - a
      {
        a := ClearRound(dir, a, hi, ram0, owner0, free0, lo);
        u := Min(a / PGSIZE, hi);
      }
      return newsz;
    }

    /** Where allocuvm stands when the pages lo .. u-1 have been added. */
    ghost predicate Growing(ram0: seq<Page>, owner0: map<nat, Role>, free0: seq<nat>, dir: nat, lo: nat, u: nat,
                            spare: nat)
      reads this
    {
      && Valid() && |ram| == |ram0| && SamePool(owner0, free0, owner, free)
      && Grows(ram0, ram, owner0, owner, dir, lo, u, spare) && SameData(ram0, ram, owner0)
    }

    /** kalloc and memset. */
    method ZeroedPage(ghost dir: nat, ghost u: nat, ghost ram0: seq<Page>, ghost owner0: map<nat, Role>,
                      ghost free0: seq<nat>, ghost lo: nat) returns (mem: nat)
      requires Growing(ram0, owner0, free0, dir, lo, u, 0) && IsDir(owner0, dir) && u <= PAGES
      modifies this`ram, this`head, this`upg, this`owner, this`free
      ensures Growing(ram0, owner0, free0, dir, lo, u, mem) && Pd(dir) == old(Pd(dir))
      ensures mem != 0 <==> old(Budget()) > 0
      ensures Budget() == if mem != 0 then old(Budget()) - 1 else 0
    {
      hide Look, MemInv, Grows, SamePool, Budget;
      GrowsDir(ram0, ram, owner0, owner, dir, lo, u, 0);
      ghost var ram1, owner1, free1 := ram, owner, free;
      RangeAll(ram, head, owner, free);
      mem := Kalloc();
      PoolStep(owner0, free0, owner1, free1, owner, free);
      if mem != 0 {
        DataPage(ram, head, owner, free, mem, ZeroPage());
        ram := ram[mem := ZeroPage()];
        GrowsKeeps(ram0, ram1, owner0, owner1, dir, lo, u, 0);
        GrowsAlloc(ram0, ram1, owner0, owner1, dir, lo, u, mem, ram, owner);
      }
    }

    /** One round of allocuvm's loop.  On failure mem is the page that could not be mapped, or 0. */
    method GrowRound(dir: nat, u: nat, ghost ram0: seq<Page>, ghost owner0: map<nat, Role>,
                     ghost free0: seq<nat>, ghost lo: nat) returns (ok: bool, mem: nat)
      requires Growing(ram0, owner0, free0, dir, lo, u, 0) && IsDir(owner0, dir) && lo <= u < USERPAGES
      requires Look(ram0, dir, u) == 0
      modifies this`ram, this`head, this`upg, this`owner, this`free
      ensures ok ==> Growing(ram0, owner0, free0, dir, lo, u + 1, 0)
      ensures !ok ==> Growing(ram0, owner0, free0, dir, lo, u, mem)
      ensures ok <==> 1 + TablesFor(old(Pd(dir)), u, u + 1) <= old(Budget())
      ensures ok ==> Budget() == old(Budget()) - 1 - TablesFor(old(Pd(dir)), u, u + 1)
      ensures ok ==> Furnished(old(Pd(dir)), Pd(dir), u, u + 1)
    {
      hide Look, MemInv, SamePool, MapsRange, MapsRoles, SameData, Furnished, TablesFor, Budget;
      mem := ZeroedPage(dir, u, ram0, owner0, free0, lo);
      if mem == 0 {
        return false, 0;
      }
      ghost var ram1, owner1, free1 := ram, owner, free;
      assert Look(ram, dir, u) == 0;
      assert u * PGSIZE / PGSIZE == u && (u * PGSIZE + PGSIZE - 1) / PGSIZE == u;
      ghost var upto;
      ok, upto := Mappages(dir, u * PGSIZE, PGSIZE, mem * PGSIZE, PTE_W + PTE_U);
      PoolStep(owner0, free0, owner1, free1, owner, free);
      GrowsKeeps(ram0, ram1, owner0, owner1, dir, lo, u, mem);
      DataChain(ram0, ram1, ram, owner0, owner1);
      GrowsMap(ram0, ram1, owner0, owner1, dir, lo, u, mem, ram, owner, upto);
    }

    /** Grow the user part of dir from oldsz to newsz bytes.  Returns newsz, or 0 after taking back
        everything it had mapped. */
    method Allocuvm(dir: nat, oldsz: nat, newsz: nat) returns (r: nat, ok: bool)
      requires Valid() && IsDir(owner, dir)
      requires forall v :: PagesUp(oldsz) <= v < PagesUp(newsz) ==> Look(ram, dir, v) == 0
      modifies this`ram, this`head, this`upg, this`owner, this`free
      ensures newsz >= KERNBASE ==> !ok && r == 0 && ram == old(ram) && owner == old(owner)
      ensures newsz < oldsz && newsz < KERNBASE ==> ok && r == oldsz && ram == old(ram) && owner == old(owner)
      ensures oldsz <= newsz < KERNBASE && ok ==> r == newsz
      ensures oldsz <= newsz < KERNBASE && ok ==>
                Growing(old(ram), old(owner), old(free), dir, PagesUp(oldsz), PagesUp(newsz), 0)
      ensures !ok ==> && r == 0 && Valid() && SamePool(old(owner), old(free), owner, free)
                      && SameMaps(old(ram), ram, old(owner)) && SameData(old(ram), ram, old(owner))
                      && MoreTables(old(owner), owner, dir)
      ensures oldsz <= newsz < KERNBASE ==>
                var lo, hi := PagesUp(oldsz), PagesUp(newsz);
                (ok <==> hi - lo + TablesFor(old(Pd(dir)), lo, hi) <= old(Budget()))
    {
      if newsz >= KERNBASE {
        return 0, false;
      }
      if newsz < oldsz {
        return oldsz, true;
      }
      ghost var ram0, owner0, free0 := ram, owner, free;
      ghost var lo, hi := PagesUp(oldsz), PagesUp(newsz);
      StartGrowing(dir, lo);
      NoneInSpan(ram, head, owner, free, dir, lo, hi);
      hide Look, Growing, MemInv, SamePool, Furnished, TablesFor, Budget;
      ghost var u;
      var mem;
      ok, u, mem := GrowPages(dir, oldsz, newsz, ram0, owner0, free0);
      if !ok {
        Undo(dir, oldsz, newsz, mem, ram0, owner0, free0, u);
        return 0, false;
      }
      return newsz, true;
    }

    /** The loop of allocuvm; on failure u is the page it stopped at and mem as in GrowRound. */
    method GrowPages(dir: nat, oldsz: nat, newsz: nat, ghost ram0: seq<Page>, ghost owner0: map<nat, Role>,
                     ghost free0: seq<nat>) returns (ok: bool, ghost u: nat, mem: nat)
      requires oldsz <= newsz < KERNBASE && IsDir(owner0, dir)
      requires Growing(ram0, owner0, free0, dir, PagesUp(oldsz), PagesUp(oldsz), 0)
      requires forall v :: PagesUp(oldsz) <= v < PagesUp(newsz) ==> Look(ram0, dir, v) == 0
      modifies this`ram, this`head, this`upg, this`owner, this`free
      ensures ok ==> Growing(ram0, owner0, free0, dir, PagesUp(oldsz), PagesUp(newsz), 0)
      ensures !ok ==> oldsz < newsz && PagesUp(oldsz) <= u <= PagesUp(newsz)
      ensures !ok ==> Growing(ram0, owner0, free0, dir, PagesUp(oldsz), u, mem)
      ensures var lo, hi := PagesUp(oldsz), PagesUp(newsz);
              (ok <==> hi - lo + TablesFor(old(Pd(dir)), lo, hi) <= old(Budget()))
    {
      hide Look, Growing, Furnished, TablesFor, Budget;
      ghost var lo, hi := PagesUp(oldsz), PagesUp(newsz);
      var a := (oldsz + PGSIZE - 1) / PGSIZE * PGSIZE;
      u := lo;
      while a < newsz
        invariant a == u * PGSIZE && lo <= u <= hi
        invariant Growing(ram0, owner0, free0, dir, lo, u, 0)
        invariant Budget() - (hi - u) - TablesFor(Pd(dir), u, hi)
                  == old(Budget()) - (hi - lo) - TablesFor(old(Pd(dir)), lo, hi)
        decreases newsz - a
      {
        ghost var pd := Pd(dir);
        TablesAhead(pd, u, hi);
        ok, mem := GrowRound(dir, a / PGSIZE, ram0, owner0, free0, lo);
        if !ok {
          return;
        }
        TablesStep(pd, Pd(dir), u, hi);
        a := a + PGSIZE;
        u := u + 1;
      }
      NoneFurnished(Pd(dir), hi);
      ok, mem := true, 0;
    }

    /** The error paths of allocuvm. */
    method Undo(dir: nat, oldsz: nat, newsz: nat, mem: nat, ghost ram0: seq<Page>, ghost owner0: map<nat, Role>,
                ghost free0: seq<nat>, ghost u: nat)
      requires Growing(ram0, owner0, free0, dir, PagesUp(oldsz), u, mem) && IsDir(owner0, dir)
      requires oldsz < newsz < KERNBASE && PagesUp(oldsz) <= u <= PagesUp(newsz)
      requires forall v :: PagesUp(oldsz) <= v < PagesUp(newsz) ==> Look(ram0, dir, v) == 0
      requires forall f :: f in owner0 ==> !InSpan(owner0[f], dir, PagesUp(oldsz), PagesUp(newsz))
      modifies this`ram, this`head, this`upg, this`owner, this`free
      ensures Valid() && SamePool(owner0, free0, owner, free) && SameMaps(ram0, ram, owner0)
      ensures MoreTables(owner0, owner, dir) && SameData(ram0, ram, owner0)
    {
      hide Look, MemInv, Clears, ClearsRoles;
      ghost var ram1, owner1, free1 := ram, owner, free;
      ghost var lo, hi := PagesUp(oldsz), PagesUp(newsz);
      var r := Deallocuvm(dir, newsz, oldsz);
      PoolStep(owner0, free0, owner1, free1, owner, free);
      GrowsUndo(ram0, ram1, owner0, owner1, dir, lo, u, hi, mem, ram, owner);
      RangeAll(ram, head, owner, free);
      if mem != 0 {
        Kfree(mem);
      }
    }

    /** The second half of freevm: the page tables, then the directory. */
    method FreeTables(dir: nat, ghost owner0: map<nat, Role>)
      requires Valid() && dir in owner && owner[dir].Other? && dir < |ram| && owner == Retire(owner0, dir)
      requires Waiting(ram[dir], owner, dir, 0)
      requires forall f :: f in owner0 && Belongs(owner0[f], f, dir) && f != dir ==>
                 exists d :: 0 <= d < NENTRIES && Present(ram[dir][d]) && FrameOf(ram[dir][d]) == f
      requires dir in owner0 && forall d :: 0 <= d < NENTRIES && Present(ram[dir][d]) ==>
                 FrameOf(ram[dir][d]) in owner0 && Belongs(owner0[FrameOf(ram[dir][d])], FrameOf(ram[dir][d]), dir)
      modifies this`ram, this`head, this`upg, this`owner, this`free
      ensures Valid() && owner == Without(owner0, dir)
      ensures SameMaps(old(ram), ram, old(owner)) && SamePool(old(owner), old(free), owner, free)
      ensures |ram| == |old(ram)| && forall x :: 0 <= x < |ram| && x in owner ==> ram[x] == old(ram)[x]
    {
      hide Look, MemInv, Waiting;
      ghost var ram1, owner1 := ram, owner;
      ghost var gone := FreeEntries(dir);
      ghost var ram2, owner2 := ram, owner;
      Kfree(dir);
      SameMapsStep(ram1, ram2, ram, owner1, owner2);
      assert owner == Without(owner0, dir);
    }

    /** Free the page tables that the directory names. */
    method FreeEntries(dir: nat) returns (ghost gone: set<nat>)
      requires Valid() && dir in owner && owner[dir].Other? && dir < |ram| && Waiting(ram[dir], owner, dir, 0)
      modifies this`ram, this`head, this`upg, this`owner, this`free
      ensures Valid() && |ram| == |old(ram)| && dir in owner && owner[dir].Other? && owner == old(owner) - gone
      ensures forall f :: f in gone <==>
                exists d :: 0 <= d < NENTRIES && Present(old(ram)[dir][d]) && FrameOf(old(ram)[dir][d]) == f
      ensures SameMaps(old(ram), ram, old(owner)) && SamePool(old(owner), old(free), owner, free)
      ensures forall x :: 0 <= x < |ram| && x !in gone ==> ram[x] == old(ram)[x]
    {
      hide Look, MemInv;
      ghost var pd := ram[dir];
      ghost var owner1, ram1, free1 := owner, ram, free;
      gone := {};
      var i := 0;
      while i < NENTRIES
        invariant i <= NENTRIES && Valid() && |ram| == |ram1| && ram[dir] == pd
        invariant dir in owner && owner[dir].Other? && Waiting(pd, owner, dir, i)
        invariant owner == owner1 - gone && dir !in gone
        invariant forall d :: 0 <= d < i && Present(pd[d]) ==> FrameOf(pd[d]) in gone
        invariant forall f :: f in gone ==> exists d :: 0 <= d < i && Present(pd[d]) && FrameOf(pd[d]) == f
        invariant SameMaps(ram1, ram, owner1) && SamePool(owner1, free1, owner, free)
        invariant forall x :: 0 <= x < |ram| && x !in gone ==> ram[x] == ram1[x]
      {
        if Present(ram[dir][i]) {
          ghost var ram2, owner2 := ram, owner;
          var f := FrameOf(ram[dir][i]);
          Kfree(f);
          gone := gone + {f};
          SameMapsStep(ram1, ram2, ram, owner1, owner2);
        }
        i := i + 1;
      }
    }

    /** Free a page table and all the user pages it maps: every frame of the address space is back on
        the free list, and the other address spaces are untouched. */
    method Freevm(dir: nat)
      requires Valid() && IsDir(owner, dir)
      modifies this`ram, this`head, this`upg, this`owner, this`free
      ensures Valid() && owner == Without(old(owner), dir) && SamePool(old(owner), old(free), owner, free)
      ensures forall p: nat, v: nat :: IsDir(old(owner), p) && p != dir && v < PAGES ==>
                Look(ram, p, v) == Look(old(ram), p, v)
      ensures |ram| == |old(ram)| && SameData(old(ram), ram, owner)
    {
      hide Look, MemInv, Clears, ClearsRoles, SamePool;
      ghost var ram0, owner0, free0 := ram, owner, free;
      DataBelow(ram, head, owner, free);
      var r := Deallocuvm(dir, KERNBASE, 0);
      ghost var ram1, owner1, free1 := ram, owner, free;
      FreevmMiddle(ram0, ram1, head, owner0, owner1, free1, dir);
      owner := Retire(owner1, dir);
      RetirePool(owner1, free1, dir);
      FreeTables(dir, owner1);
      FreevmEnd(ram0, ram1, ram, owner0, owner1, dir);
      PoolStep(owner0, free0, owner1, free1, Retire(owner1, dir), free1);
      PoolStep(owner0, free0, Retire(owner1, dir), free1, owner, free);
    }

    /** Where setupkvm stands after k rows of kmap. */
    ghost predicate Kernel(ram0: seq<Page>, owner0: map<nat, Role>, free0: seq<nat>, dir: nat, kdata: nat, k: nat)
      reads this
      requires EXTMEM < kdata < PHYSTOP && k <= 4
    {
      && Valid() && |ram| == |ram0| && SamePool(owner0, free0, owner, free)
      && SameMaps(ram0, ram, owner0) && SameData(ram0, ram, owner0)
      && dir !in owner0 && IsDir(owner, dir) && MoreTables(owner0[dir := Dir], owner, dir)
      && (forall v :: 0 <= v < PAGES ==> Look(ram, dir, v) == Kpte(kdata, k, v))
    }

    method KernelRow(dir: nat, kdata: nat, k: nat, ghost ram0: seq<Page>, ghost owner0: map<nat, Role>,
                     ghost free0: seq<nat>) returns (ok: bool)
      requires EXTMEM < kdata < PHYSTOP && kdata % PGSIZE == 0 && k < 4
      requires Kernel(ram0, owner0, free0, dir, kdata, k)
      modifies this`ram, this`head, this`upg, this`owner, this`free
      ensures ok ==> Kernel(ram0, owner0, free0, dir, kdata, k + 1)
      ensures !ok ==> && Valid() && SamePool(owner0, free0, owner, free) && SameMaps(ram0, ram, owner0)
                      && dir !in owner0 && IsDir(owner, dir) && MoreTables(owner0[dir := Dir], owner, dir)
      ensures var m := Kmaps(kdata)[k];
              var first, end := m.virt / PGSIZE, (m.virt + m.size - 1) / PGSIZE + 1;
              && first < end <= PAGES && (ok <==> TablesFor(old(Pd(dir)), first, end) <= old(Budget()))
              && (ok ==> Budget() == old(Budget()) - TablesFor(old(Pd(dir)), first, end))
              && (ok ==> Furnished(old(Pd(dir)), Pd(dir), first, end))
    {
      hide Look, MemInv, MakePte, SamePool, Furnished, TablesFor, Budget, SameMaps, SameData, MoreTables, MapsRange,
        MapsRoles, Kpte;
      ghost var ram1, owner1, free1 := ram, owner, free;
      var m := Kmaps(kdata)[k];
      ghost var first, end := m.virt / PGSIZE, (m.virt + m.size - 1) / PGSIZE + 1;
      forall v | first <= v < end
        ensures USERPAGES <= v < PAGES && Look(ram, dir, v) == 0
      {
        KmapFree(kdata, k, v);
      }
      ghost var upto;
      ok, upto := Mappages(dir, m.virt, m.size, m.start, m.perm);
      PoolStep(owner0, free0, owner1, free1, owner, free);
      RowMaps(ram0, ram1, ram, owner0, owner1, dir, first, upto, m.start / PGSIZE, m.perm);
      RowRoles(owner0, owner1, owner, dir, first, upto, m.start / PGSIZE);
      if ok { RowPtes(ram1, ram, owner1, dir, kdata, k); }
    }

    /** Set up the kernel part of a new page table; 0, with nothing changed, if memory runs out.  It takes
        65 pages: the directory and 64 page tables. */
    method Setupkvm(kdata: nat) returns (dir: nat)
      requires Valid() && EXTMEM < kdata < PHYSTOP && kdata % PGSIZE == 0
      modifies this`ram, this`head, this`upg, this`owner, this`free
      ensures dir != 0 ==> Kernel(old(ram), old(owner), old(free), dir, kdata, 4)
      ensures dir == 0 ==> && Valid() && owner == old(owner) && SameMaps(old(ram), ram, old(owner))
                           && SamePool(old(owner), old(free), owner, free)
      ensures dir != 0 <==> old(Budget()) >= 65
      ensures dir != 0 ==> Budget() == old(Budget()) - 65 && KernelPd(Pd(dir), kdata, 4)
    {
      hide Look, MemInv, SamePool, Furnished, TablesFor, KernelTables, Budget;
      ghost var ram0, owner0, free0 := ram, owner, free;
      NoTables(kdata);
      RangeAll(ram, head, owner, free);
      DataBelow(ram, head, owner, free);
      dir := Kalloc();
      if dir == 0 {
        return;
      }
      DataPage(ram, head, owner, free, dir, ZeroPage());
      ram := ram[dir := ZeroPage()];
      NewDir(ram, head, owner, free, dir);
      owner := owner[dir := Dir];
      DirPool(owner0, free0, dir, free);
      var k := 0;
      while k < 4
        invariant k <= 4 && Kernel(ram0, owner0, free0, dir, kdata, k) && KernelPd(Pd(dir), kdata, k)
        invariant Budget() + 1 + KernelTables(kdata, k) == old(Budget())
      {
        ghost var pd := Pd(dir);
        RowNeeds(pd, kdata, k);
        var ok := KernelRow(dir, kdata, k, ram0, owner0, free0);
        if ok { RowDone(pd, Pd(dir), kdata, k); }
        if !ok {
          ghost var ram1, owner1, free1 := ram, owner, free;
          Freevm(dir);
          PoolStep(owner0, free0, owner1, free1, owner, free);
          BackOut(owner0, owner1, dir);
          return 0;
        }
        k := k + 1;
      }
    }

    ghost predicate Copying(ram0: seq<Page>, owner0: map<nat, Role>, dir: nat, d: nat, kdata: nat, u: nat, spare: nat)
      reads this
      requires EXTMEM < kdata < PHYSTOP
    {
      Valid() && |ram| == |ram0| && Copies(ram0, ram, owner0, owner, dir, d, kdata, u, spare)
    }

    /** kalloc and memmove of one page with frame src. */
    method CopiedFrame(src: nat, ghost dir: nat, ghost d: nat, ghost kdata: nat, ghost u: nat,
                       ghost ram0: seq<Page>, ghost owner0: map<nat, Role>) returns (mem: nat)
      requires EXTMEM < kdata < PHYSTOP && Copying(ram0, owner0, dir, d, kdata, u, 0) && u <= PAGES
      requires src in owner && src < |ram|
      modifies this`ram, this`head, this`upg, this`owner, this`free
      ensures Copying(ram0, owner0, dir, d, kdata, u, mem)
      ensures mem != 0 ==> mem < |ram| && ram[mem] == old(ram)[src]
      ensures mem != 0 <==> old(Budget()) > 0
      ensures Budget() == (if mem != 0 then old(Budget()) - 1 else 0) && Pd(d) == old(Pd(d))
    {
      hide Look, MemInv, Copies, Kpte, Budget;
      CopiesDir(ram0, ram, owner0, owner, dir, d, kdata, u, 0);
      ghost var ram1, owner1 := ram, owner;
      RangeAll(ram, head, owner, free);
      mem := Kalloc();
      if mem != 0 {
        DataPage(ram, head, owner, free, mem, ram[src]);
        ram := ram[mem := ram[src]];
        CopiesAlloc(ram0, ram1, owner0, owner1, dir, d, kdata, u, mem, ram, owner);
      }
    }

    /** One round of copyuvm's loop.  On failure mem is the page that could not be mapped, or 0. */
    method CopyRound(dir: nat, d: nat, u: nat, ghost kdata: nat, ghost ram0: seq<Page>, ghost owner0: map<nat, Role>)
      returns (ok: bool, mem: nat)
      requires EXTMEM < kdata < PHYSTOP && kdata % PGSIZE == 0 && Copying(ram0, owner0, dir, d, kdata, u, 0) &&
               u < USERPAGES
      requires IsDir(owner0, dir) && Users(ram0, owner0) && Look(ram0, dir, u) != 0
      modifies this`ram, this`head, this`upg, this`owner, this`free
      ensures ok ==> Copying(ram0, owner0, dir, d, kdata, u + 1, 0)
      ensures !ok ==> Copying(ram0, owner0, dir, d, kdata, u, mem)
      ensures ok <==> 1 + TablesFor(old(Pd(d)), u, u + 1) <= old(Budget())
      ensures ok ==> Budget() == old(Budget()) - 1 - TablesFor(old(Pd(d)), u, u + 1)
      ensures ok ==> Furnished(old(Pd(d)), Pd(d), u, u + 1)
    {
      hide Furnished, TablesFor, Budget;
      hide Look, MemInv, Copies, Kpte, MapsRange, MapsRoles, SameData, Users, MakePte;
      CopySource(ram0, ram, head, owner0, owner, free, dir, d, kdata, u);
      var t := Walkpgdir(dir, u, false);
      var pte := ram[t][u % NENTRIES];
      var pa, flags := FrameOf(pte), FlagsOf(pte);
      mem := CopiedFrame(pa, dir, d, kdata, u, ram0, owner0);
      if mem == 0 {
        return false, 0;
      }
      ghost var ram1, owner1 := ram, owner;
      CopyTarget(ram0, ram, owner0, owner, dir, d, kdata, u, mem);
      assert u * PGSIZE / PGSIZE == u && (u * PGSIZE + PGSIZE - 1) / PGSIZE == u;
      ghost var upto;
      ok, upto := Mappages(d, u * PGSIZE, PGSIZE, mem * PGSIZE, flags);
      RangeAll(ram, head, owner, free);
      CopiesMap(ram0, ram1, owner0, owner1, dir, d, kdata, u, mem, ram, owner, upto, flags);
    }

    /** Give a child a copy of the first sz bytes of dir.  On success the child's pages are copies in
        frames of their own and the parent is untouched.  On failure the child is freed; a page that was
        allocated but could not be mapped stays allocated. */
    method Copyuvm(dir: nat, sz: nat, kdata: nat) returns (d: nat, ghost stray: nat)
      requires Valid() && IsDir(owner, dir) && sz <= KERNBASE
      requires EXTMEM < kdata < PHYSTOP && kdata % PGSIZE == 0
      requires forall v :: 0 <= v < PagesUp(sz) ==> Look(ram, dir, v) != 0
      modifies this`ram, this`head, this`upg, this`owner, this`free
      ensures d != 0 ==> Copying(old(ram), old(owner), dir, d, kdata, PagesUp(sz), 0)
      ensures d == 0 ==> Valid() && SameMaps(old(ram), ram, old(owner))
      ensures d == 0 ==>
                owner == (if stray == 0 then old(owner) else old(owner)[stray := Other]) && stray !in old(owner)
      ensures d != 0 <==> 65 + PagesUp(sz) + (PagesUp(sz) + NENTRIES - 1) / NENTRIES <= old(Budget())
    {
      hide Look, MemInv, SamePool, Kpte, KernelPd, TablesFor, Budget;
      ghost var ram0, owner0 := ram, owner;
      UsersOf(ram, head, owner, free);
      DataBelow(ram, head, owner, free);
      RangeAll(ram, head, owner, free);
      stray := 0;
      d := Setupkvm(kdata);
      if d == 0 {
        return;
      }
      StartCopying(ram0, owner0, dir, d, kdata);
      UserTables(Pd(d), kdata, PagesUp(sz));
      hide Copying, SameMaps;
      var ok, u, mem := CopyPages(dir, d, sz, kdata, ram0, owner0);
      if !ok {
        FreeChild(dir, d, kdata, u, mem, ram0, owner0);
        return 0, mem;
      }
    }

    /** The loop of copyuvm; on failure u pages were copied and mem is as in CopyRound. */
    method CopyPages(dir: nat, d: nat, sz: nat, ghost kdata: nat, ghost ram0: seq<Page>, ghost owner0: map<nat, Role>)
      returns (ok: bool, ghost u: nat, ghost mem: nat)
      requires EXTMEM < kdata < PHYSTOP && kdata % PGSIZE == 0 && Copying(ram0, owner0, dir, d, kdata, 0, 0)
      requires IsDir(owner0, dir) && Users(ram0, owner0) && sz <= KERNBASE
      requires forall v :: 0 <= v < PagesUp(sz) ==> Look(ram0, dir, v) != 0
      modifies this`ram, this`head, this`upg, this`owner, this`free
      ensures ok ==> Copying(ram0, owner0, dir, d, kdata, PagesUp(sz), 0)
      ensures !ok ==> Copying(ram0, owner0, dir, d, kdata, u, mem)
      ensures ok <==> PagesUp(sz) + TablesFor(old(Pd(d)), 0, PagesUp(sz)) <= old(Budget())
    {
      hide Look, Copying, Users, Kpte, Furnished, TablesFor, Budget;
      u, mem := 0, 0;
      ghost var n := PagesUp(sz);
      NoneFurnished(Pd(d), n);
      var i := 0;
      while i < sz
        invariant i == u * PGSIZE && u <= PagesUp(sz)
        invariant Copying(ram0, owner0, dir, d, kdata, u, 0)
        invariant Budget() - (n - u) - TablesFor(Pd(d), u, n) == old(Budget()) - n - TablesFor(old(Pd(d)), 0, n)
      {
        ghost var pd := Pd(d);
        TablesAhead(pd, u, n);
        var m;
        ok, m := CopyRound(dir, d, i / PGSIZE, kdata, ram0, owner0);
        if ok { TablesStep(pd, Pd(d), u, n); NoneFurnished(Pd(d), n); }
        if !ok {
          mem := m;
          return;
        }
        i := i + PGSIZE;
        u := u + 1;
      }
      NoneFurnished(Pd(d), n);
      ok := true;
    }

    /** The error path of copyuvm. */
    method FreeChild(ghost dir: nat, d: nat, ghost kdata: nat, ghost u: nat, ghost mem: nat,
                     ghost ram0: seq<Page>, ghost owner0: map<nat, Role>)
      requires EXTMEM < kdata < PHYSTOP && Copying(ram0, owner0, dir, d, kdata, u, mem)
      requires forall f :: f in owner0 && owner0[f].Data? ==> IsDir(owner0, owner0[f].dir)
      requires forall f :: f in owner0 && owner0[f].Table? ==> IsDir(owner0, owner0[f].dir)
      modifies this`ram, this`head, this`upg, this`owner, this`free
      ensures Valid() && SameMaps(ram0, ram, owner0) && (mem != 0 ==> mem !in owner0)
      ensures owner == if mem == 0 then owner0 else owner0[mem := Other]
    {
      hide Look, MemInv, Copies, Kpte, SamePool;
      RangeAll(ram, head, owner, free);
      CopyFailed(ram0, ram, owner0, owner, dir, d, kdata, u, mem);
      Freevm(d);
    }

    lemma StartCopying(ram0: seq<Page>, owner0: map<nat, Role>, dir: nat, d: nat, kdata: nat)
      requires EXTMEM < kdata < PHYSTOP && exists free0 :: Kernel(ram0, owner0, free0, d, kdata, 4)
      ensures Copying(ram0, owner0, dir, d, kdata, 0, 0)
    {
      hide Look, Kpte, MemInv;
    }

    /** Take PTE_U away from a mapped page. */
    method Clearpteu(dir: nat, u: nat)
      requires Valid() && IsDir(owner, dir) && u < PAGES && Look(ram, dir, u) != 0
      modifies this`ram, this`head, this`upg, this`owner, this`free
      ensures Valid() && owner == old(owner) && free == old(free) && SameData(old(ram), ram, owner)
      ensures LookChange(old(ram), ram, owner, dir, u, WithoutU(Look(old(ram), dir, u)))
      ensures !User(Look(ram, dir, u)) && FrameOf(Look(ram, dir, u)) == FrameOf(Look(old(ram), dir, u))
    {
      InRange(ram, head, owner, free, dir);
      ghost var ram0 := ram;
      WalkedPage(ram, head, owner, free, dir, u);
      hide Look, MemInv;
      var t := Walkpgdir(dir, u, false);
      var w := WithoutU(ram[t][u % NENTRIES]);
      ClearU(ram[t][u % NENTRIES]);
      FlagPage(ram, head, owner, free, dir, u, w);
      ram := ram[t := ram[t][u % NENTRIES := w]];
      assert ram == SetPte(ram0, dir, u, w);
    }

    /** Physical memory before the free list is built: every frame is in use by the boot code. */
    constructor (ram: seq<Page>, msz: nat)
      requires 0 < |ram| <= PAGES
      ensures Valid() && this.ram == ram && free == [] && !userinited && upg == 0
      ensures forall f :: f in owner <==> 0 < f < |ram|
      ensures forall f :: f in owner ==> owner[f].Other?
    {
      this.ram, this.msz := ram, msz;
      head, userinited, upg, free := 0, false, 0, [];
      owner := AllOther(|ram|);
    }

    /** Free every page that lies wholly inside [vstart, vend). */
    method Freerange(vstart: nat, vend: nat)
      requires Valid() && KERNBASE < vstart
      requires forall f :: PagesUp(vstart - KERNBASE) <= f < (vend - KERNBASE) / PGSIZE ==>
                 f in owner && owner[f].Other?
      modifies this`ram, this`head, this`upg, this`owner, this`free
      ensures Valid() && SamePool(old(owner), old(free), owner, free) && SameMaps(old(ram), ram, old(owner))
      ensures forall f :: f in owner <==>
                f in old(owner) && !(PagesUp(vstart - KERNBASE) <= f < (vend - KERNBASE) / PGSIZE)
      ensures forall f :: f in owner ==> owner[f] == old(owner)[f]
    {
      hide Look, MemInv;
      ghost var ram0, owner0, free0 := ram, owner, free;
      ghost var lo := PagesUp(vstart - KERNBASE);
      ghost var n := lo;
      var p := KERNBASE + (vstart - KERNBASE + PGSIZE - 1) / PGSIZE * PGSIZE;
      while p + PGSIZE <= vend
        invariant p == KERNBASE + n * PGSIZE && lo <= n && (n == lo || n <= (vend - KERNBASE) / PGSIZE)
        invariant Valid() && SamePool(owner0, free0, owner, free) && SameMaps(ram0, ram, owner0)
        invariant forall f :: f in owner <==> f in owner0 && !(lo <= f < n)
        invariant forall f :: f in owner ==> owner[f] == owner0[f]
        decreases vend - p
      {
        ghost var ram1, owner1 := ram, owner;
        assert (p - KERNBASE) / PGSIZE == n < (vend - KERNBASE) / PGSIZE;
        Kfree((p - KERNBASE) / PGSIZE);
        SameMapsStep(ram0, ram1, ram, owner0, owner1);
        p := p + PGSIZE;
        n := n + 1;
      }
    }

    lemma StartGrowing(dir: nat, lo: nat)
      requires Valid()
      ensures Growing(ram, owner, free, dir, lo, lo, 0)
    {
    }

    lemma StartClearing(dir: nat, lo: nat)
      requires Valid()
      ensures Clearing(ram, owner, free, dir, lo, lo)
    {
    }

    lemma StartMapping(dir: nat, first: nat, frame: nat, perm: nat)
      requires Valid() && perm < PGSIZE
      ensures Mapping(ram, owner, free, dir, first, first, frame, perm)
    {
    }
  }

  /** PGROUNDUP, counted in pages. */
  function PagesUp(sz: nat): nat { (sz + PGSIZE - 1) / PGSIZE }

  lemma OneFrame(ram: seq<Page>, head: nat, owner: map<nat, Role>, free: seq<nat>, dir: nat, u: nat)
    requires MemInv(ram, head, owner, free) && IsDir(owner, dir) && u < USERPAGES
    ensures forall f :: f in owner && owner[f] == Data(dir, u) ==> f == FrameOf(Look(ram, dir, u))
  {
    hide Look;
  }

  lemma RangeAll(ram: seq<Page>, head: nat, owner: map<nat, Role>, free: seq<nat>)
    requires MemInv(ram, head, owner, free)
    ensures forall x :: x in owner ==> 0 < x < |ram|
  {
  }

  lemma NoneInSpan(ram: seq<Page>, head: nat, owner: map<nat, Role>, free: seq<nat>, dir: nat, lo: nat, hi: nat)
    requires MemInv(ram, head, owner, free) && IsDir(owner, dir)
    requires forall v :: lo <= v < hi ==> Look(ram, dir, v) == 0
    ensures forall f :: f in owner ==> !InSpan(owner[f], dir, lo, hi)
  {
    hide Look;
  }

  lemma SameMapsStep(ram: seq<Page>, ram1: seq<Page>, ram2: seq<Page>, owner: map<nat, Role>, owner1: map<nat, Role>)
    requires SameMaps(ram, ram1, owner) && SameMaps(ram1, ram2, owner1)
    requires forall p: nat :: IsDir(owner, p) ==> IsDir(owner1, p)
    ensures SameMaps(ram, ram2, owner)
  {
    hide Look;
  }

  lemma DataBelow(ram: seq<Page>, head: nat, owner: map<nat, Role>, free: seq<nat>)
    requires MemInv(ram, head, owner, free)
    ensures forall f :: f in owner && owner[f].Data? ==> owner[f].v < USERPAGES && IsDir(owner, owner[f].dir)
    ensures forall f :: f in owner && owner[f].Table? ==> IsDir(owner, owner[f].dir)
  {
  }

  lemma DirPool(owner: map<nat, Role>, free: seq<nat>, dir: nat, free': seq<nat>)
    requires SamePool(owner, free, owner[dir := Other], free')
    ensures SamePool(owner, free, owner[dir := Other][dir := Dir], free')
  {
  }

  /** Freeing a half-built address space restores the roles. */
  lemma BackOut(owner: map<nat, Role>, owner1: map<nat, Role>, dir: nat)
    requires dir !in owner && MoreTables(owner[dir := Dir], owner1, dir)
    requires forall f :: f in owner && owner[f].Data? ==> IsDir(owner, owner[f].dir)
    requires forall f :: f in owner && owner[f].Table? ==> IsDir(owner, owner[f].dir)
    ensures Without(owner1, dir) == owner
  {
  }

  lemma UsersOf(ram: seq<Page>, head: nat, owner: map<nat, Role>, free: seq<nat>)
    requires MemInv(ram, head, owner, free)
    ensures Users(ram, owner)
  {
  }

  /** The page to copy is there, and its frame is one of the parent's. */
  lemma CopySource(ram0: seq<Page>, ram: seq<Page>, head: nat, owner0: map<nat, Role>, owner: map<nat, Role>,
                   free: seq<nat>, dir: nat, d: nat, kdata: nat, u: nat)
    requires EXTMEM < kdata < PHYSTOP && MemInv(ram, head, owner, free) && |ram| == |ram0|
    requires Copies(ram0, ram, owner0, owner, dir, d, kdata, u, 0) && u < USERPAGES
    requires IsDir(owner0, dir) && Users(ram0, owner0) && Look(ram0, dir, u) != 0
    ensures IsDir(owner, dir) && dir < |ram| && Present(ram[dir][u / NENTRIES])
    ensures var t := FrameOf(ram[dir][u / NENTRIES]);
            && 0 < t < |ram| && ram[t][u % NENTRIES] == Look(ram0, dir, u) && Present(Look(ram0, dir, u))
    ensures var g := FrameOf(Look(ram0, dir, u));
            && g in owner0 && g in owner && g < |ram| && ram[g] == ram0[g]
    ensures FlagsOf(Look(ram0, dir, u)) % 2 == 1
  {
    hide Kpte, FreeList;
    assert IsDir(owner, dir) && Look(ram, dir, u) == Look(ram0, dir, u);
    WalkedPage(ram, head, owner, free, dir, u);
    RangeAll(ram, head, owner, free);
    hide Look, Tables;
    var g := FrameOf(Look(ram0, dir, u));
    assert owner0[g] == Data(dir, u);
  }

  lemma CopyTarget(ram0: seq<Page>, ram: seq<Page>, owner0: map<nat, Role>, owner: map<nat, Role>,
                   dir: nat, d: nat, kdata: nat, u: nat, mem: nat)
    requires EXTMEM < kdata < PHYSTOP && kdata % PGSIZE == 0 && u < USERPAGES && mem != 0
    requires Copies(ram0, ram, owner0, owner, dir, d, kdata, u, mem)
    ensures IsDir(owner, d) && Look(ram, d, u) == 0 && mem in owner && owner[mem].Other?
  {
    hide Look, Kpte;
    KernelLayout(kdata, u);
  }

  /** Freeing the child leaves the parent's roles and perhaps one stray page. */
  lemma CopyFailed(ram0: seq<Page>, ram: seq<Page>, owner0: map<nat, Role>, owner: map<nat, Role>,
                   dir: nat, d: nat, kdata: nat, u: nat, mem: nat)
    requires EXTMEM < kdata < PHYSTOP && Copies(ram0, ram, owner0, owner, dir, d, kdata, u, mem) && 0 !in owner
    requires forall f :: f in owner0 && owner0[f].Data? ==> IsDir(owner0, owner0[f].dir)
    requires forall f :: f in owner0 && owner0[f].Table? ==> IsDir(owner0, owner0[f].dir)
    ensures IsDir(owner, d) && SameMaps(ram0, ram, owner0)
    ensures forall p: nat :: IsDir(owner0, p) ==> IsDir(owner, p) && p != d
    ensures Without(owner, d) == if mem == 0 then owner0 else owner0[mem := Other]
    ensures mem != 0 ==> mem !in owner0
  {
    hide Look, Kpte;
  }

  ghost function AllOther(n: nat): (m: map<nat, Role>)
    ensures forall f :: f in m <==> 0 < f < n
    ensures forall f :: f in m ==> m[f].Other?
  {
    if n <= 1 then map[] else AllOther(n - 1)[n - 1 := Other]
  }

  /** PGADDR(PDX(a) + 1, 0, 0) is the first page of the next page table. */
  lemma NextPage(a: nat)
    requires a % PGSIZE == 0
    ensures (a + PGSIZE) / PGSIZE == a / PGSIZE + 1 && (a + PGSIZE) % PGSIZE == 0
  {
  }

  lemma SkipTo(a: nat)
    requires a % PGSIZE == 0
    ensures var u := a / PGSIZE;
            var next := (a / 0x40_0000 + 1) * 0x40_0000;
            && next > a && next % PGSIZE == 0 && next / PGSIZE == (u / NENTRIES + 1) * NENTRIES
            && forall v :: u <= v < (u / NENTRIES + 1) * NENTRIES ==> v / NENTRIES == u / NENTRIES
  {
  }

  /** w & ~PTE_U */
  function WithoutU(w: nat): nat { if User(w) then w - PTE_U else w }

  lemma ClearU(w: nat)
    requires Present(w)
    ensures Present(WithoutU(w)) && FrameOf(WithoutU(w)) == FrameOf(w) && !User(WithoutU(w))
  {
  }

  lemma WalkedPage(ram: seq<Page>, head: nat, owner: map<nat, Role>, free: seq<nat>, dir: nat, u: nat)
    requires MemInv(ram, head, owner, free) && IsDir(owner, dir) && u < PAGES && dir < |ram| && Look(ram, dir, u) != 0
    ensures Present(ram[dir][u / NENTRIES]) && Present(Look(ram, dir, u))
    ensures var t := FrameOf(ram[dir][u / NENTRIES]);
            t < |ram| && t in owner && owner[t].Table? && ram[t][u % NENTRIES] == Look(ram, dir, u)
  {
  }

  lemma RetirePool(owner: map<nat, Role>, free: seq<nat>, dir: nat)
    ensures SamePool(owner, free, Retire(owner, dir), free)
  {
  }

  lemma FreevmMiddle(ram0: seq<Page>, ram: seq<Page>, head: nat, owner0: map<nat, Role>, owner: map<nat, Role>,
                     free: seq<nat>, dir: nat)
    requires MemInv(ram, head, owner, free) && IsDir(owner0, dir)
    requires Clears(ram0, ram, owner0, dir, 0, USERPAGES) && ClearsRoles(owner0, owner, dir, 0, USERPAGES)
    ensures IsDir(owner, dir) && dir < |ram| && MemInv(ram, head, Retire(owner, dir), free)
    ensures Waiting(ram[dir], Retire(owner, dir), dir, 0)
    ensures forall f :: f in owner && Belongs(owner[f], f, dir) && f != dir ==>
              exists d :: 0 <= d < NENTRIES && Present(ram[dir][d]) && FrameOf(ram[dir][d]) == f
    ensures forall d :: 0 <= d < NENTRIES && Present(ram[dir][d]) ==>
              FrameOf(ram[dir][d]) in owner && Belongs(owner[FrameOf(ram[dir][d])], FrameOf(ram[dir][d]), dir)
    ensures dir in Retire(owner, dir) && Retire(owner, dir)[dir].Other?
  {
    hide Look;
    ClearsDirs(owner0, owner, dir, 0, USERPAGES);
    RetireDir(ram, head, owner, free, dir);
    RetiredTables(ram, head, owner, free, dir);
  }

  lemma FreevmEnd(ram0: seq<Page>, ram1: seq<Page>, ram2: seq<Page>, owner0: map<nat, Role>, owner1: map<nat, Role>,
                  dir: nat)
    requires IsDir(owner0, dir) && SameMaps(ram1, ram2, Retire(owner1, dir))
    requires Clears(ram0, ram1, owner0, dir, 0, USERPAGES) && ClearsRoles(owner0, owner1, dir, 0, USERPAGES)
    requires forall f :: f in owner0 && owner0[f].Data? && owner0[f].dir == dir ==> owner0[f].v < USERPAGES
    ensures Without(owner1, dir) == Without(owner0, dir)
    ensures forall p: nat, v: nat :: IsDir(owner0, p) && p != dir && v < PAGES ==> Look(ram2, p, v) == Look(ram0, p, v)
  {
    hide Look;
  }

  lemma WalkedTable(ram: seq<Page>, head: nat, owner: map<nat, Role>, free: seq<nat>, dir: nat, u: nat)
    requires MemInv(ram, head, owner, free) && IsDir(owner, dir) && u < PAGES && dir < |ram| && Look(ram, dir, u) != 0
    ensures FrameOf(ram[dir][u / NENTRIES]) in owner && owner[FrameOf(ram[dir][u / NENTRIES])].Table?
  {
  }

  /** What a walk without allocation tells about the map. */
  lemma LookCases(ram: seq<Page>, head: nat, owner: map<nat, Role>, free: seq<nat>, dir: nat, u: nat)
    requires MemInv(ram, head, owner, free) && IsDir(owner, dir) && u < USERPAGES && dir < |ram|
    ensures !Present(ram[dir][u / NENTRIES]) ==>
              forall v :: 0 <= v < PAGES && v / NENTRIES == u / NENTRIES ==> Look(ram, dir, v) == 0
    ensures Present(ram[dir][u / NENTRIES]) ==>
              var t := FrameOf(ram[dir][u / NENTRIES]);
              && t < |ram|
              && Look(ram, dir, u) == (if Present(ram[t][u % NENTRIES]) then ram[t][u % NENTRIES] else 0)
  {
    if Present(ram[dir][u / NENTRIES]) { TableOf(ram, owner, dir, u); }
  }

  function Junk(): Page { seq(1024, i => 0x0101_0101) }

  lemma InRange(ram: seq<Page>, head: nat, owner: map<nat, Role>, free: seq<nat>, f: nat)
    requires MemInv(ram, head, owner, free) && f in owner
    ensures 0 < f < |ram| <= PAGES
    ensures forall x :: x in owner ==> 0 < x < |ram|
  {
  }

  lemma WalkFound(ram: seq<Page>, head: nat, owner: map<nat, Role>, free: seq<nat>, dir: nat, v: nat)
    requires MemInv(ram, head, owner, free) && IsDir(owner, dir) && v < PAGES && dir < |ram|
    requires Present(ram[dir][v / NENTRIES])
    ensures var t := FrameOf(ram[dir][v / NENTRIES]);
            0 < t < |ram| && t in owner && owner[t] == Table(dir, v / NENTRIES)
  {
  }

  lemma FreeHead(ram: seq<Page>, head: nat, owner: map<nat, Role>, free: seq<nat>)
    requires MemInv(ram, head, owner, free)
    ensures head == 0 <==> free == []
    ensures forall k :: 0 <= k < |free| ==> free[k] !in owner && 0 < free[k] < |ram|
    ensures free != [] ==> forall f :: f in free <==> f == free[0] || f in free[1..]
  {
  }
}
