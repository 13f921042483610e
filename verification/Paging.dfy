/**
 Two-level page tables of 32-bit paging (section 4.3 of volume 3A of the Intel Software Developer's
 Manual) as vm.c keeps them in physical memory, and the map from pages to frames they stand for.
 */
module Paging {
  import opened Common

  const NENTRIES := 1024
  const USERPAGES := 0x8_0000   // pages below KERNBASE
  const PAGES := 0x10_0000      // pages of the 32-bit address space
  const KERNBASE := 0x8000_0000

  const PTE_P := 1
  const PTE_W := 2
  const PTE_U := 4

  /** A page of memory as 32-bit words. */
  type Page = p: seq<nat> | |p| == 1024 witness seq(1024, i => 0)

  function ZeroPage(): (p: Page)
    ensures forall i :: 0 <= i < NENTRIES ==> p[i] == 0
  {
    seq(1024, i => 0)
  }

  // ----- Entries: frame number and twelve flag bits -----

  predicate Present(w: nat) { w % 2 == 1 }

  predicate User(w: nat) { w / 4 % 2 == 1 }

  function FrameOf(w: nat): nat { w / PGSIZE }

  function FlagsOf(w: nat): nat { w % PGSIZE }

  lemma PteParts(frame: nat, low: nat)
    requires low < PGSIZE && low % 2 == 1
    ensures Present(frame * PGSIZE + low) && FrameOf(frame * PGSIZE + low) == frame
    ensures FlagsOf(frame * PGSIZE + low) == low
  {
    var h := frame * 2048;
    assert frame * PGSIZE + low == 2 * h + low;
  }

  /** pa | perm | PTE_P */
  function MakePte(frame: nat, perm: nat): (w: nat)
    requires perm < PGSIZE
    ensures Present(w) && FrameOf(w) == frame && FlagsOf(w) == perm + (if perm % 2 == 0 then 1 else 0)
  {
    var low := perm + if perm % 2 == 0 then 1 else 0;
    PteParts(frame, low);
    frame * PGSIZE + low
  }

  // ----- Walking -----

  /** The entry for page v under directory dir, or 0 if there is no page table or no mapping. */
  function Look(ram: seq<Page>, dir: nat, v: nat): nat {
    if dir >= |ram| || v >= PAGES then 0
    else
      var pde := ram[dir][v / NENTRIES];
      if !Present(pde) || FrameOf(pde) >= |ram| then 0
      else
        var pte := ram[FrameOf(pde)][v % NENTRIES];
        if Present(pte) then pte else 0
  }

  // ----- Who owns which frame -----

  datatype Role = Dir | Table(dir: nat, d: nat) | Data(dir: nat, v: nat) | Other

  predicate IsDir(owner: map<nat, Role>, p: nat) { p in owner && owner[p] == Dir }

  /** Directories and page tables: every present directory entry has a table of its own. */
  ghost predicate Tables(ram: seq<Page>, owner: map<nat, Role>) {
    && (forall f :: f in owner ==> 0 < f < |ram|)
    && (forall p: nat, d: nat {:trigger ram[p][d]} :: IsDir(owner, p) && 0 <= d < NENTRIES && Present(ram[p][d]) ==>
          FrameOf(ram[p][d]) in owner && owner[FrameOf(ram[p][d])] == Table(p, d))
    && (forall f :: f in owner && owner[f].Table? ==>
          && IsDir(owner, owner[f].dir) && owner[f].d < NENTRIES
          && Present(ram[owner[f].dir][owner[f].d]) && FrameOf(ram[owner[f].dir][owner[f].d]) == f)
  }

  /** User pages: every mapped page below KERNBASE has a frame of its own. */
  ghost predicate Users(ram: seq<Page>, owner: map<nat, Role>) {
    && (forall p: nat, v: nat {:trigger Look(ram, p, v)} ::
          IsDir(owner, p) && 0 <= v < USERPAGES && Look(ram, p, v) != 0 ==>
          FrameOf(Look(ram, p, v)) in owner && owner[FrameOf(Look(ram, p, v))] == Data(p, v))
    && (forall f :: f in owner && owner[f].Data? ==>
          && IsDir(owner, owner[f].dir) && owner[f].v < USERPAGES
          && Look(ram, owner[f].dir, owner[f].v) != 0 && FrameOf(Look(ram, owner[f].dir, owner[f].v)) == f)
  }

  // ----- The free list, linked through the first word of each free page -----

  function KvAddr(f: nat): nat { KERNBASE + PGSIZE * f }

  function NextLink(free: seq<nat>, k: nat): nat {
    if k + 1 < |free| then KvAddr(free[k + 1]) else 0
  }

  ghost predicate FreeList(ram: seq<Page>, head: nat, free: seq<nat>) {
    && (if free == [] then head == 0 else head == KvAddr(free[0]))
    && (forall k :: 0 <= k < |free| ==> 0 < free[k] < |ram|)
    && (forall k :: 0 <= k < |free| ==> ram[free[k]][0] == NextLink(free, k))
    && (forall j, k :: 0 <= j < k < |free| ==> free[j] != free[k])
  }

  ghost predicate Disjoint(owner: map<nat, Role>, free: seq<nat>) {
    forall k :: 0 <= k < |free| ==> free[k] !in owner
  }

  // ----- What a change of one page does -----

  lemma TableOf(ram: seq<Page>, owner: map<nat, Role>, p: nat, v: nat)
    requires Tables(ram, owner) && IsDir(owner, p) && v < PAGES && Present(ram[p][v / NENTRIES])
    ensures var t := FrameOf(ram[p][v / NENTRIES]);
            t < |ram| && t in owner && owner[t] == Table(p, v / NENTRIES)
  {
  }

  /** Pages that are neither directories nor tables do not matter to the map. */
  lemma LookElsewhere(ram: seq<Page>, owner: map<nat, Role>, x: nat, pg: Page, p: nat, v: nat)
    requires Tables(ram, owner) && IsDir(owner, p) && x < |ram|
    requires x in owner ==> owner[x].Data? || owner[x].Other?
    ensures Look(ram[x := pg], p, v) == Look(ram, p, v)
  {
    if v < PAGES && Present(ram[p][v / NENTRIES]) { TableOf(ram, owner, p, v); }
  }

  /** Writing one entry of a page table changes that page's mapping and no other. */
  lemma LookAfterPte(ram: seq<Page>, owner: map<nat, Role>, dir: nat, u: nat, w: nat, p: nat, v: nat)
    requires Tables(ram, owner) && IsDir(owner, dir) && IsDir(owner, p) && u < PAGES && v < PAGES
    requires Present(ram[dir][u / NENTRIES])
    ensures var t := FrameOf(ram[dir][u / NENTRIES]);
            && t < |ram|
            && Look(ram[t := ram[t][u % NENTRIES := w]], p, v) ==
               if p == dir && v == u then (if Present(w) then w else 0) else Look(ram, p, v)
  {
    TableOf(ram, owner, dir, u);
    if Present(ram[p][v / NENTRIES]) { TableOf(ram, owner, p, v); }
  }

  /** Hanging an empty page table into the directory does not change the map. */
  lemma LookAfterTable(ram: seq<Page>, owner: map<nat, Role>, dir: nat, d: nat, f: nat, w: nat, p: nat, v: nat)
    requires Tables(ram, owner) && IsDir(owner, dir) && IsDir(owner, p) && d < NENTRIES && v < PAGES
    requires 0 < f < |ram| && f !in owner && !Present(ram[dir][d]) && Present(w) && FrameOf(w) == f
    ensures var ram1 := ram[f := ZeroPage()];
            Look(ram1[dir := ram1[dir][d := w]], p, v) == Look(ram, p, v)
  {
    if Present(ram[p][v / NENTRIES]) { TableOf(ram, owner, p, v); }
  }

  // ----- Steps of the allocator and of the walker, and what they keep -----

  ghost predicate MemInv(ram: seq<Page>, head: nat, owner: map<nat, Role>, free: seq<nat>) {
    && |ram| <= PAGES && Tables(ram, owner) && Users(ram, owner) && FreeList(ram, head, free) && Disjoint(owner, free)
  }

  lemma FreeListFrame(ram: seq<Page>, head: nat, owner: map<nat, Role>, free: seq<nat>, x: nat, pg: Page)
    requires FreeList(ram, head, free) && Disjoint(owner, free) && x in owner && x < |ram|
    ensures FreeList(ram[x := pg], head, free)
  {
  }

  /** Users depends on memory through the map only. */
  lemma UsersTransfer(ram: seq<Page>, ram': seq<Page>, owner: map<nat, Role>, owner': map<nat, Role>)
    requires Users(ram, owner)
    requires forall p: nat :: IsDir(owner', p) <==> IsDir(owner, p)
    requires forall p: nat, v: nat :: IsDir(owner, p) && v < USERPAGES ==> Look(ram', p, v) == Look(ram, p, v)
    requires forall f :: f in owner && owner[f].Data? ==> f in owner' && owner'[f] == owner[f]
    requires forall f :: f in owner' && owner'[f].Data? ==> f in owner && owner'[f] == owner[f]
    ensures Users(ram', owner')
  {
    hide Look;
  }

  /** Writing a page of data. */
  lemma DataPage(ram: seq<Page>, head: nat, owner: map<nat, Role>, free: seq<nat>, f: nat, pg: Page)
    requires MemInv(ram, head, owner, free) && f in owner && (owner[f].Other? || owner[f].Data?)
    ensures MemInv(ram[f := pg], head, owner, free)
    ensures forall p: nat, v: nat :: IsDir(owner, p) ==> Look(ram[f := pg], p, v) == Look(ram, p, v)
  {
    forall p: nat, v: nat | IsDir(owner, p)
      ensures Look(ram[f := pg], p, v) == Look(ram, p, v)
    {
      LookElsewhere(ram, owner, f, pg, p, v);
    }
    hide Look;
    FreeListFrame(ram, head, owner, free, f, pg);
    UsersTransfer(ram, ram[f := pg], owner, owner);
  }

  lemma FreeListPop(ram: seq<Page>, head: nat, free: seq<nat>)
    requires FreeList(ram, head, free) && head != 0
    ensures free != [] && head == KvAddr(free[0]) && (head - KERNBASE) / PGSIZE == free[0] < |ram|
    ensures FreeList(ram, ram[free[0]][0], free[1..])
  {
    var g := free[1..];
    assert ram[free[0]][0] == NextLink(free, 0);
    forall k | 0 <= k < |g|
      ensures ram[g[k]][0] == NextLink(g, k)
    {
      assert g[k] == free[k + 1] && NextLink(g, k) == NextLink(free, k + 1);
    }
  }

  lemma FreeListPush(ram: seq<Page>, head: nat, free: seq<nat>, f: nat, pg: Page)
    requires FreeList(ram, head, free) && 0 < f < |ram| && f !in free && pg[0] == head
    ensures FreeList(ram[f := pg], KvAddr(f), [f] + free)
  {
    var g := [f] + free;
    forall k | 0 <= k < |g|
      ensures ram[f := pg][g[k]][0] == NextLink(g, k)
    {
      if k > 0 { assert g[k] == free[k - 1] && NextLink(g, k) == NextLink(free, k - 1); }
    }
  }

  lemma PopFree(ram: seq<Page>, head: nat, owner: map<nat, Role>, free: seq<nat>)
    requires MemInv(ram, head, owner, free) && head != 0
    ensures free != [] && head == KvAddr(free[0]) && (head - KERNBASE) / PGSIZE == free[0] < |ram|
    ensures MemInv(ram, ram[free[0]][0], owner[free[0] := Other], free[1..])
  {
    FreeListPop(ram, head, free);
    hide Look, FreeList;
    var f := free[0];
    assert f !in owner;
    UsersTransfer(ram, ram, owner, owner[f := Other]);
    assert Tables(ram, owner[f := Other]);
    FreeDistinct(ram, head, free);
  }

  lemma FreeDistinct(ram: seq<Page>, head: nat, free: seq<nat>)
    requires FreeList(ram, head, free)
    ensures forall j, k :: 0 <= j < k < |free| ==> free[j] != free[k]
    ensures forall k :: 0 <= k < |free| ==> 0 < free[k] < |ram|
  {
  }

  lemma PushFree(ram: seq<Page>, head: nat, owner: map<nat, Role>, free: seq<nat>, f: nat, pg: Page)
    requires MemInv(ram, head, owner, free) && f in owner && owner[f].Other? && pg[0] == head
    ensures MemInv(ram[f := pg], KvAddr(f), owner - {f}, [f] + free)
    ensures forall p: nat, v: nat :: IsDir(owner, p) ==> Look(ram[f := pg], p, v) == Look(ram, p, v)
  {
    DataPage(ram, head, owner, free, f, pg);
    FreeListPush(ram, head, free, f, pg);
    hide Look, KvAddr, FreeList;
    var owner' := owner - {f};
    UsersTransfer(ram, ram[f := pg], owner, owner');
    assert Tables(ram[f := pg], owner');
  }

  /** walkpgdir hangs a fresh page table into the directory. */
  lemma AddTable(ram: seq<Page>, head: nat, owner: map<nat, Role>, free: seq<nat>, dir: nat, d: nat, f: nat)
    requires MemInv(ram, head, owner, free) && IsDir(owner, dir) && d < NENTRIES && !Present(ram[dir][d])
    requires f in owner && owner[f].Other?
    ensures var ram1 := ram[f := ZeroPage()];
            var ram' := ram1[dir := ram1[dir][d := MakePte(f, PTE_P + PTE_W + PTE_U)]];
            && MemInv(ram', head, owner[f := Table(dir, d)], free)
            && (forall p: nat, v: nat :: IsDir(owner, p) && v < PAGES ==> Look(ram', p, v) == Look(ram, p, v))
  {
    hide Look, MakePte, Users, FreeList;
    var w := MakePte(f, PTE_P + PTE_W + PTE_U);
    var ram1 := ram[f := ZeroPage()];
    var ram' := ram1[dir := ram1[dir][d := w]];
    var owner' := owner[f := Table(dir, d)];
    var rest := owner - {f};
    assert Tables(ram, rest);
    forall p: nat, v: nat | IsDir(owner, p) && v < PAGES
      ensures Look(ram', p, v) == Look(ram, p, v)
    {
      LookAfterTable(ram, rest, dir, d, f, w, p, v);
    }
    FreeListFrame(ram, head, owner, free, f, ZeroPage());
    FreeListFrame(ram1, head, owner, free, dir, ram1[dir][d := w]);
    UsersTransfer(ram, ram', owner, owner');
    assert Tables(ram', owner');
  }

  function SetPte(ram: seq<Page>, dir: nat, u: nat, w: nat): seq<Page>
    requires dir < |ram| && u < PAGES && FrameOf(ram[dir][u / NENTRIES]) < |ram|
  {
    var t := FrameOf(ram[dir][u / NENTRIES]);
    ram[t := ram[t][u % NENTRIES := w]]
  }

  ghost predicate LookChange(ram: seq<Page>, ram': seq<Page>, owner: map<nat, Role>, dir: nat, u: nat, w: nat) {
    forall p: nat, v: nat :: IsDir(owner, p) && v < PAGES ==>
      Look(ram', p, v) == if p == dir && v == u then (if Present(w) then w else 0) else Look(ram, p, v)
  }

  lemma PteWrite(ram: seq<Page>, head: nat, owner: map<nat, Role>, free: seq<nat>, dir: nat, u: nat, w: nat)
    requires MemInv(ram, head, owner, free) && IsDir(owner, dir) && u < PAGES && Present(ram[dir][u / NENTRIES])
    ensures FrameOf(ram[dir][u / NENTRIES]) < |ram|
    ensures var ram' := SetPte(ram, dir, u, w);
            Tables(ram', owner) && FreeList(ram', head, free) && LookChange(ram, ram', owner, dir, u, w)
  {
    TableOf(ram, owner, dir, u);
    var t := FrameOf(ram[dir][u / NENTRIES]);
    var ram' := SetPte(ram, dir, u, w);
    forall p: nat, v: nat | IsDir(owner, p) && v < PAGES
      ensures Look(ram', p, v) == if p == dir && v == u then (if Present(w) then w else 0) else Look(ram, p, v)
    {
      LookAfterPte(ram, owner, dir, u, w, p, v);
    }
    FreeListFrame(ram, head, owner, free, t, ram'[t]);
    hide Look;
    assert Tables(ram', owner);
  }

  /** Map page u of dir to a frame that was set aside for it (below KERNBASE), or to anything (above). */
  lemma MapPage(ram: seq<Page>, head: nat, owner: map<nat, Role>, free: seq<nat>, dir: nat, u: nat, w: nat)
    requires MemInv(ram, head, owner, free) && IsDir(owner, dir) && u < PAGES && Present(ram[dir][u / NENTRIES])
    requires Present(w) && Look(ram, dir, u) == 0
    requires u < USERPAGES ==> FrameOf(w) in owner && owner[FrameOf(w)].Other?
    ensures FrameOf(ram[dir][u / NENTRIES]) < |ram|
    ensures var owner' := if u < USERPAGES then owner[FrameOf(w) := Data(dir, u)] else owner;
            MemInv(SetPte(ram, dir, u, w), head, owner', free)
    ensures LookChange(ram, SetPte(ram, dir, u, w), owner, dir, u, w)
  {
    PteWrite(ram, head, owner, free, dir, u, w);
    var ram' := SetPte(ram, dir, u, w);
    var owner' := if u < USERPAGES then owner[FrameOf(w) := Data(dir, u)] else owner;
    assert Tables(ram', owner');
    hide Look, SetPte, FreeList, Tables;
    assert Users(ram', owner');
  }

  /** Unmap page u of dir; its frame is set aside for kfree. */
  lemma UnmapPage(ram: seq<Page>, head: nat, owner: map<nat, Role>, free: seq<nat>, dir: nat, u: nat)
    requires MemInv(ram, head, owner, free) && IsDir(owner, dir) && u < USERPAGES && Look(ram, dir, u) != 0
    ensures Present(ram[dir][u / NENTRIES]) && FrameOf(ram[dir][u / NENTRIES]) < |ram|
    ensures var g := FrameOf(Look(ram, dir, u));
            && g in owner && owner[g] == Data(dir, u) && 0 < g < |ram|
            && MemInv(SetPte(ram, dir, u, 0), head, owner[g := Other], free)
    ensures LookChange(ram, SetPte(ram, dir, u, 0), owner, dir, u, 0)
  {
    PteWrite(ram, head, owner, free, dir, u, 0);
    var g := FrameOf(Look(ram, dir, u));
    assert owner[g] == Data(dir, u);
    var ram' := SetPte(ram, dir, u, 0);
    assert Tables(ram', owner[g := Other]);
    hide Look, SetPte, FreeList, Tables;
    assert Users(ram', owner[g := Other]);
  }

  /** Change flags of a mapped page. */
  lemma FlagPage(ram: seq<Page>, head: nat, owner: map<nat, Role>, free: seq<nat>, dir: nat, u: nat, w: nat)
    requires MemInv(ram, head, owner, free) && IsDir(owner, dir) && u < PAGES && Look(ram, dir, u) != 0
    requires Present(w) && FrameOf(w) == FrameOf(Look(ram, dir, u))
    ensures Present(ram[dir][u / NENTRIES]) && FrameOf(ram[dir][u / NENTRIES]) < |ram|
    ensures MemInv(SetPte(ram, dir, u, w), head, owner, free)
    ensures LookChange(ram, SetPte(ram, dir, u, w), owner, dir, u, w)
  {
    PteWrite(ram, head, owner, free, dir, u, w);
    hide Look, SetPte, FreeList, Tables;
    assert Users(SetPte(ram, dir, u, w), owner);
  }
}
