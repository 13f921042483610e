/**
 The allocator of umalloc.c (section 8.7 of The C Programming Language, 2nd ed.).  Addresses count
 headers (8 bytes); a block is a header followed by its payload, `size` headers in all.
 */
module Umalloc {
  const HEADER := 8

  /** The circular list from `base` upwards in address order; the last block points back to base. */
  ghost predicate Ring(ptr: map<nat, nat>, ring: seq<nat>, base: nat) {
    |ring| > 0 && ring[0] == base && Sorted(ring) && Linked(ptr, ring)
  }

  ghost predicate Sorted(ring: seq<nat>) {
    forall j, k :: 0 <= j < k < |ring| ==> ring[j] < ring[k]
  }

  ghost predicate Linked(ptr: map<nat, nat>, ring: seq<nat>) {
    forall k :: 0 <= k < |ring| ==> Link(ptr, ring, k)
  }

  predicate Link(ptr: map<nat, nat>, ring: seq<nat>, k: nat)
    requires k < |ring|
  {
    ring[k] in ptr && ptr[ring[k]] == After(ring, k)
  }

  function After(ring: seq<nat>, k: nat): nat
    requires k < |ring|
  {
    if k + 1 < |ring| then ring[k + 1] else ring[0]
  }

  /** avail are the blocks on the list, base aside. */
  ghost predicate Listed(ring: seq<nat>, base: nat, avail: set<nat>) {
    forall b :: b in avail <==> b in ring && b != base
  }

  ghost predicate Covered(home: map<nat, nat>, b: nat, n: nat) {
    forall x :: b <= x < b + n ==> x in home && home[x] == b
  }

  /** The units of each block are its own. */
  ghost predicate Covers(size: map<nat, nat>, avail: set<nat>, live: set<nat>, home: map<nat, nat>) {
    forall b :: (b in live || b in avail) && b in size ==> Covered(home, b, size[b])
  }

  ghost predicate Tiles(size: map<nat, nat>, avail: set<nat>, live: set<nat>, home: map<nat, nat>, base: nat,
                        top: nat) {
    && (forall x :: x in home ==> home[x] in live || home[x] in avail)
    && (forall x :: x in home ==> home[x] in size && home[x] <= x < home[x] + size[home[x]])
    && (forall b :: b in live || b in avail ==> b in size && size[b] > 0 && base < b && b + size[b] <= top)
    && (forall b :: b in live ==> b !in avail)
    && base in size && size[base] == 0 && base < top
  }

  /** Every unit obtained from sbrk lies in exactly one block, live or available: home says in which. */
  ghost predicate Blocks(size: map<nat, nat>, avail: set<nat>, live: set<nat>, home: map<nat, nat>, base: nat,
                         top: nat) {
    Tiles(size, avail, live, home, base, top) && Covers(size, avail, live, home)
  }

  /** No two free blocks touch, except perhaps those behind positions i and j. */
  ghost predicate ApartBut(size: map<nat, nat>, ring: seq<nat>, i: int, j: int) {
    && (forall k :: 0 <= k < |ring| ==> ring[k] in size)
    && (forall k :: 0 <= k < |ring| - 1 && k != i && k != j ==> Gap(size, ring, k))
  }

  predicate Gap(size: map<nat, nat>, ring: seq<nat>, k: nat)
    requires k + 1 < |ring| && ring[k] in size
  {
    ring[k] + size[ring[k]] < ring[k + 1]
  }

  /** The list and the blocks, up to adjacent free blocks behind positions i and j (-1 for none). */
  ghost predicate HeapBut(ptr: map<nat, nat>, size: map<nat, nat>, ring: seq<nat>, avail: set<nat>, live: set<nat>,
                          home: map<nat, nat>, base: nat, top: nat, i: int, j: int) {
    && Ring(ptr, ring, base) && Listed(ring, base, avail) && Blocks(size, avail, live, home, base, top)
    && ApartBut(size, ring, i, j)
  }

  ghost predicate Heap(ptr: map<nat, nat>, size: map<nat, nat>, ring: seq<nat>, avail: set<nat>, live: set<nat>,
                       home: map<nat, nat>, base: nat, top: nat) {
    HeapBut(ptr, size, ring, avail, live, home, base, top, -1, -1)
  }

  // ----- Blocks -----

  lemma InOrder(size: map<nat, nat>, avail: set<nat>, live: set<nat>, home: map<nat, nat>, base: nat, top: nat,
                a: nat, b: nat)
    requires Blocks(size, avail, live, home, base, top)
    requires a in avail || a in live || a == base
    requires (b in avail || b in live) && a < b
    ensures a in size && a + size[a] <= b
  {
    if a != base {
      assert Covered(home, a, size[a]) && Covered(home, b, size[b]);
      assert home[b] == b;
    }
  }

  /** Units of block b now belong to block a. */
  function Rehome(home: map<nat, nat>, a: nat, b: nat): map<nat, nat> {
    map x | x in home :: if home[x] == b then a else home[x]
  }

  lemma MergeBlocks(size: map<nat, nat>, avail: set<nat>, live: set<nat>, home: map<nat, nat>, base: nat, top: nat,
                    a: nat, b: nat)
    requires Blocks(size, avail, live, home, base, top) && a in avail && b in avail && a + size[a] == b
    ensures Blocks(size[a := size[a] + size[b]], avail - {b}, live, Rehome(home, a, b), base, top)
    ensures Rehome(home, a, b).Keys == home.Keys
  {
    var size', home' := size[a := size[a] + size[b]], Rehome(home, a, b);
    assert Covered(home, b, size[b]);
    forall c | (c in live || c in avail - {b}) && c in size'
      ensures Covered(home', c, size'[c])
    {
      assert Covered(home, c, size[c]);
    }
    hide Covered;
  }

  lemma ReleaseBlock(size: map<nat, nat>, avail: set<nat>, live: set<nat>, home: map<nat, nat>, base: nat, top: nat,
                     b: nat)
    requires Blocks(size, avail, live, home, base, top) && b in live
    ensures Blocks(size, avail + {b}, live - {b}, home, base, top)
  {
  }

  lemma TakeBlock(size: map<nat, nat>, avail: set<nat>, live: set<nat>, home: map<nat, nat>, base: nat, top: nat,
                  b: nat)
    requires Blocks(size, avail, live, home, base, top) && b in avail
    ensures Blocks(size, avail - {b}, live + {b}, home, base, top)
  {
  }

  /** The tail of block p from q on becomes a live block. */
  function CutHome(home: map<nat, nat>, p: nat, q: nat): map<nat, nat> {
    map x | x in home :: if home[x] == p && x >= q then q else home[x]
  }

  lemma SplitCover(size: map<nat, nat>, avail: set<nat>, live: set<nat>, home: map<nat, nat>, p: nat, n: nat)
    requires Covers(size, avail, live, home) && p in avail && p in size && 0 < n < size[p]
    requires forall b :: b in live || b in avail ==> b in size && size[b] > 0
    ensures var q := p + size[p] - n;
            && q in home && home[q] == p && q !in live && q !in avail
            && Covers(size[p := size[p] - n][q := n], avail, live + {q}, CutHome(home, p, q))
  {
    var q := p + size[p] - n;
    assert Covered(home, p, size[p]);
    forall c | c in live || c in avail
      ensures c != q
    {
      assert Covered(home, c, size[c]);
      assert home[c] == c;
    }
    var size', home' := size[p := size[p] - n][q := n], CutHome(home, p, q);
    forall c | (c in live + {q} || c in avail) && c in size'
      ensures Covered(home', c, size'[c])
    {
      if c != q { assert Covered(home, c, size[c]); }
    }
  }

  lemma SplitBlock(size: map<nat, nat>, avail: set<nat>, live: set<nat>, home: map<nat, nat>, base: nat, top: nat,
                   p: nat, n: nat)
    requires Blocks(size, avail, live, home, base, top) && p in avail && 0 < n < size[p]
    ensures var q := p + size[p] - n;
            && q !in live && q !in avail && q != base
            && Blocks(size[p := size[p] - n][q := n], avail, live + {q}, CutHome(home, p, q), base, top)
            && CutHome(home, p, q).Keys == home.Keys
  {
    hide Covers;
    SplitCover(size, avail, live, home, p, n);
  }

  /** Units a .. a+n-1, beyond everything so far, become a live block. */
  ghost function GrowHome(home: map<nat, nat>, a: nat, n: nat): (r: map<nat, nat>)
    ensures forall x :: x in r <==> x in home || a <= x < a + n
    ensures forall x :: x in r ==> r[x] == if a <= x < a + n then a else home[x]
  {
    if n == 0 then home else GrowHome(home, a, n - 1)[a + n - 1 := a]
  }

  lemma ExtendBlocks(size: map<nat, nat>, avail: set<nat>, live: set<nat>, home: map<nat, nat>, base: nat, top: nat,
                     a: nat, n: nat)
    requires Blocks(size, avail, live, home, base, top) && top <= a && n > 0
    ensures a !in live && a !in avail
    ensures Blocks(size[a := n], avail, live + {a}, GrowHome(home, a, n), base, a + n)
  {
    assert a !in live && a !in avail;
    var home' := GrowHome(home, a, n);
    assert Covers(size[a := n], avail, live + {a}, home') by {
      forall c | (c in live + {a} || c in avail)
        ensures Covered(home', c, size[a := n][c])
      {
        if c != a { assert Covered(home, c, size[c]); }
      }
    }
    hide Covers;
    assert Tiles(size[a := n], avail, live + {a}, home', base, a + n);
  }

  // ----- The list -----

  function Insert(ring: seq<nat>, k: nat, b: nat): (r: seq<nat>)
    requires k < |ring|
    ensures |r| == |ring| + 1
    ensures forall j {:trigger r[j]} :: 0 <= j < |r| ==>
              r[j] == if j <= k then ring[j] else if j == k + 1 then b else ring[j - 1]
  {
    ring[..k + 1] + [b] + ring[k + 1..]
  }

  function Delete(ring: seq<nat>, k: nat): (r: seq<nat>)
    requires k < |ring|
    ensures |r| == |ring| - 1
    ensures forall j {:trigger r[j]} :: 0 <= j < |r| ==> r[j] == if j < k then ring[j] else ring[j + 1]
  {
    ring[..k] + ring[k + 1..]
  }

  lemma InsertSorted(ring: seq<nat>, k: nat, b: nat)
    requires Sorted(ring) && k < |ring| && ring[k] < b && (k + 1 < |ring| ==> b < ring[k + 1])
    ensures Sorted(Insert(ring, k, b))
  {
    var r := Insert(ring, k, b);
    forall i, j | 0 <= i < j < |r|
      ensures r[i] < r[j]
    {
      if j == k + 1 { assert r[i] == ring[i] <= ring[k]; }
      else if i == k + 1 { assert r[j] == ring[j - 1] >= ring[k + 1]; }
    }
  }

  lemma InsertLinked(ptr: map<nat, nat>, ring: seq<nat>, k: nat, b: nat)
    requires Sorted(ring) && Linked(ptr, ring) && k < |ring| && b !in ring
    ensures Linked(ptr[b := After(ring, k)][ring[k] := b], Insert(ring, k, b))
  {
    var r := Insert(ring, k, b);
    var ptr' := ptr[b := After(ring, k)][ring[k] := b];
    forall j | 0 <= j < |r|
      ensures Link(ptr', r, j)
    {
      if j != k + 1 { assert Link(ptr, ring, if j <= k then j else j - 1); }
    }
  }

  lemma NotInRing(ring: seq<nat>, k: nat, b: nat)
    requires Sorted(ring) && k < |ring| && ring[k] < b && (k + 1 < |ring| ==> b < ring[k + 1])
    ensures b !in ring
  {
    forall j | 0 <= j < |ring|
      ensures ring[j] != b
    {
      if j < k { assert ring[j] < ring[k]; } else if j > k + 1 { assert ring[k + 1] < ring[j]; }
    }
  }

  lemma InsertRing(ptr: map<nat, nat>, ring: seq<nat>, base: nat, k: nat, b: nat)
    requires Ring(ptr, ring, base) && k < |ring| && ring[k] < b && (k + 1 < |ring| ==> b < ring[k + 1])
    ensures Ring(ptr[b := After(ring, k)][ring[k] := b], Insert(ring, k, b), base)
  {
    NotInRing(ring, k, b);
    InsertSorted(ring, k, b);
    InsertLinked(ptr, ring, k, b);
  }

  lemma DeleteSorted(ring: seq<nat>, k: nat)
    requires Sorted(ring) && k < |ring|
    ensures Sorted(Delete(ring, k))
  {
  }

  lemma DeleteLinked(ptr: map<nat, nat>, ring: seq<nat>, k: nat)
    requires Sorted(ring) && Linked(ptr, ring) && k + 1 < |ring|
    ensures ring[k + 1] in ptr && Linked(ptr[ring[k] := ptr[ring[k + 1]]], Delete(ring, k + 1))
  {
    var r := Delete(ring, k + 1);
    assert Link(ptr, ring, k + 1);
    var ptr' := ptr[ring[k] := ptr[ring[k + 1]]];
    forall j | 0 <= j < |r|
      ensures Link(ptr', r, j)
    {
      assert Link(ptr, ring, if j <= k then j else j + 1);
    }
  }

  lemma DeleteRing(ptr: map<nat, nat>, ring: seq<nat>, base: nat, k: nat)
    requires Ring(ptr, ring, base) && k + 1 < |ring|
    ensures ring[k + 1] in ptr && Ring(ptr[ring[k] := ptr[ring[k + 1]]], Delete(ring, k + 1), base)
  {
    DeleteSorted(ring, k + 1);
    DeleteLinked(ptr, ring, k);
  }

  lemma InsertListed(ring: seq<nat>, base: nat, avail: set<nat>, k: nat, b: nat)
    requires Listed(ring, base, avail) && k < |ring| && b != base
    ensures Listed(Insert(ring, k, b), base, avail + {b})
  {
    assert ring == ring[..k + 1] + ring[k + 1..];
  }

  lemma DeleteListed(ring: seq<nat>, base: nat, avail: set<nat>, k: nat)
    requires Sorted(ring) && Listed(ring, base, avail) && 0 < k < |ring|
    ensures Listed(Delete(ring, k), base, avail - {ring[k]})
  {
    var r := Delete(ring, k);
    assert ring == ring[..k] + [ring[k]] + ring[k + 1..];
    assert forall j :: 0 <= j < |r| ==> r[j] != ring[k];
  }

  /** free puts a live block on the list behind position k. */
  lemma InsertBlock(ptr: map<nat, nat>, size: map<nat, nat>, ring: seq<nat>, avail: set<nat>, live: set<nat>,
                    home: map<nat, nat>, base: nat, top: nat, k: nat, b: nat)
    requires Heap(ptr, size, ring, avail, live, home, base, top) && b in live
    requires k < |ring| && ring[k] < b && (k + 1 < |ring| ==> b < ring[k + 1])
    ensures HeapBut(ptr[b := After(ring, k)][ring[k] := b], size, Insert(ring, k, b), avail + {b}, live - {b},
                    home, base, top, k, k + 1)
    ensures ring[k] in size && b in size && ring[k] + size[ring[k]] <= b
    ensures k + 1 < |ring| ==> b + size[b] <= ring[k + 1]
  {
    assert b in size && base < b by { hide Covers, Ring, Listed, ApartBut; }
    hide Tiles, Covers, Sorted, Linked, Gap;
    assert ring[k] == base || ring[k] in avail;
    InOrder(size, avail, live, home, base, top, ring[k], b);
    if k + 1 < |ring| {
      assert ring[k + 1] in ring && ring[k + 1] != base;
      InOrder(size, avail, live, home, base, top, b, ring[k + 1]);
    }
    InsertRing(ptr, ring, base, k, b);
    InsertListed(ring, base, avail, k, b);
    ReleaseBlock(size, avail, live, home, base, top, b);
    InsertGaps(size, ring, k, b);
  }

  lemma InsertGaps(size: map<nat, nat>, ring: seq<nat>, k: nat, b: nat)
    requires ApartBut(size, ring, -1, -1) && b in size && k < |ring|
    ensures ApartBut(size, Insert(ring, k, b), k, k + 1)
  {
    var r := Insert(ring, k, b);
    forall j | 0 <= j < |r| - 1 && j != k && j != k + 1
      ensures r[j] in size && Gap(size, r, j)
    {
      assert Gap(size, ring, if j < k then j else j - 1);
    }
    assert forall j :: 0 <= j < |r| ==> r[j] in size;
  }

  /** Two adjacent free blocks at positions k and k+1 become one. */
  lemma MergeAt(ptr: map<nat, nat>, size: map<nat, nat>, ring: seq<nat>, avail: set<nat>, live: set<nat>,
                home: map<nat, nat>, base: nat, top: nat, i: int, k: nat)
    requires HeapBut(ptr, size, ring, avail, live, home, base, top, i, k) && i <= k && 0 < k && k + 1 < |ring|
    requires ring[k] + size[ring[k]] == ring[k + 1]
    ensures var a, b := ring[k], ring[k + 1];
            && a in avail && b in avail && a in size && b in size && b in ptr
            && HeapBut(ptr[a := ptr[b]], size[a := size[a] + size[b]], Delete(ring, k + 1), avail - {b}, live,
                       Rehome(home, a, b), base, top, if i < k then i else -1, if i < k then i else -1)
            && Rehome(home, a, b).Keys == home.Keys
  {
    hide Tiles, Covers, Linked;
    var a, b := ring[k], ring[k + 1];
    assert a in ring && b in ring && ring[0] < a;
    DeleteRing(ptr, ring, base, k);
    DeleteListed(ring, base, avail, k + 1);
    MergeBlocks(size, avail, live, home, base, top, a, b);
    assert forall j :: 0 <= j < |ring| && j != k ==> ring[j] != a;
    hide Ring, Sorted, Listed, Blocks;
    var r := Delete(ring, k + 1);
    var size' := size[a := size[a] + size[b]];
    var e := if i < k then i else -1;
    forall j | 0 <= j < |r| - 1 && j != e
      ensures r[j] in size' && Gap(size', r, j)
    {
      if j == k { assert Gap(size, ring, k + 1); } else { assert Gap(size, ring, if j < k then j else j + 1); }
    }
  }

  // ----- Search positions -----

  /** The position behind which address b belongs. */
  ghost function PosOf(ring: seq<nat>, b: nat): (k: nat)
    requires |ring| > 0 && ring[0] < b && Sorted(ring)
    ensures k < |ring| && ring[k] < b && (k + 1 < |ring| ==> b <= ring[k + 1])
  {
    PosFrom(ring, b, 0)
  }

  ghost function PosFrom(ring: seq<nat>, b: nat, j: nat): (k: nat)
    requires j < |ring| && ring[j] < b
    ensures j <= k < |ring| && ring[k] < b && (k + 1 < |ring| ==> b <= ring[k + 1])
    decreases |ring| - j
  {
    if j + 1 < |ring| && ring[j + 1] < b then PosFrom(ring, b, j + 1) else j
  }

  /** Steps along a circle of n from i to j. */
  function Steps(i: nat, j: nat, n: nat): nat
    requires i < n && j < n
  {
    if j >= i then j - i else j - i + n
  }

  class Allocator {
    const base: nat            // address of the static header
    var freep: nat             // 0 until the first malloc
    var ptr: map<nat, nat>     // s.ptr of the header at an address
    var size: map<nat, nat>    // s.size
    ghost var ring: seq<nat>
    ghost var avail: set<nat>
    ghost var live: set<nat>
    ghost var home: map<nat, nat>
    ghost var top: nat         // beyond every address sbrk has handed out

    ghost predicate Valid()
      reads this
    {
      && 0 < base < top
      && if freep == 0 then live == {} && avail == {} && home == map[] && ring == []
         else Heap(ptr, size, ring, avail, live, home, base, top) && freep in ring
    }

    constructor (base: nat, top: nat)
      requires 0 < base < top
      ensures Valid() && live == {} && home == map[] && this.base == base && this.top == top && freep == 0
    {
      this.base, freep, ptr, size := base, 0, map[], map[];
      ring, avail, live, home, this.top := [], {}, {}, map[], top;
    }

    /** The loop of free: the block behind which bp belongs. */
    method FindPlace(bp: nat) returns (p: nat, ghost k: nat)
      requires Valid() && freep != 0 && bp in live
      ensures k < |ring| && p == ring[k] < bp && (k + 1 < |ring| ==> bp < ring[k + 1])
      ensures p in ring && forall q :: q in ring && q < bp ==> q <= p
    {
      hide HeapBut;
      LiveFacts(ptr, size, ring, avail, live, home, base, top, bp);
      ghost var n, t := |ring|, PosOf(ring, bp);
      p := freep;
      k :| 0 <= k < n && ring[k] == p;
      while !(bp > p && bp < ptr[p])
        invariant 0 <= k < n && p == ring[k]
        decreases Steps(k, t, n)
      {
        LinkFacts(ring, k, t, bp, ptr);
        if p >= ptr[p] && (bp > p || bp < ptr[p]) {
          break;
        }
        p := ptr[p];
        k := if k + 1 < n then k + 1 else 0;
      }
      LinkFacts(ring, k, t, bp, ptr);
      Nearest(ring, k, bp);
    }

    /** The middle of free: bp is linked in before q and joined with it if they touch.  The link
        from p to bp, which the end of free writes, is already counted in. */
    method JoinUpper(bp: nat, p: nat, q: nat, ghost k: nat)
      requires Valid() && freep != 0 && bp in live && k < |ring| && p == ring[k] < bp
      requires k + 1 < |ring| ==> bp < ring[k + 1]
      requires q == After(ring, k)
      modifies this`ptr, this`size, this`ring, this`avail, this`live, this`home
      ensures JoinedBut(ptr[p := bp], size, ring, avail, live, home, base, top, k, p, bp) && bp in ptr
      ensures Freed(old(size), old(live), old(home), size, avail, live, home, bp)
    {
      hide HeapBut;
      LiveUnits(ptr, size, ring, avail, live, home, base, top, bp, k);
      ghost var ptr0, size0, ring0, avail0, live0, home0 := ptr, size, ring, avail, live, home;
      if bp + size[bp] == q {
        size := size[bp := size[bp] + size[q]];
        ptr := ptr[bp := ptr[q]];
        home := Rehome(home, bp, q);
        ring, avail, live := Delete(Insert(ring, k, bp), k + 2), avail + {bp} - {q}, live - {bp};
        UpperMerged(ptr0, size0, ring0, avail0, live0, home0, base, top, k, bp, p, q, ptr[p := bp], size, ring,
                    avail, live, home);
      } else {
        ptr := ptr[bp := q];
        ring, avail, live := Insert(ring, k, bp), avail + {bp}, live - {bp};
        UpperApart(ptr0, size, ring0, avail0, live0, home, base, top, k, bp, p, q, ptr[p := bp], ring, avail, live);
      }
    }

    /** The end of free: p is joined with bp if they touch, else linked to it. */
    method JoinLower(bp: nat, p: nat, ghost k: nat, ghost sizes: map<nat, nat>, ghost lives: set<nat>,
                     ghost homes: map<nat, nat>)
      requires JoinedBut(ptr[p := bp], size, ring, avail, live, home, base, top, k, p, bp) && 0 < base < top
      requires bp in ptr && Freed(sizes, lives, homes, size, avail, live, home, bp)
      modifies this`freep, this`ptr, this`size, this`ring, this`avail, this`home
      ensures Valid() && freep == p != 0 && Freed(sizes, lives, homes, size, avail, live, home, bp)
    {
      hide HeapBut, Freed, Rehome, Delete;
      JoinedFacts(ptr[p := bp], size, ring, avail, live, home, base, top, k, p, bp);
      ghost var ptr1, size1, ring1, avail1, home1 := ptr[p := bp], size, ring, avail, home;
      if p + size[p] == bp {
        size := size[p := size[p] + size[bp]];
        ptr := ptr[p := ptr[bp]];
        ring, avail, home := Delete(ring, k + 1), avail - {bp}, Rehome(home, p, bp);
        LowerMerged(ptr1, size1, ring1, avail1, live, home1, base, top, k, p, bp, ptr, size, ring, avail, home,
                    sizes, lives, homes);
      } else {
        ptr := ptr[p := bp];
        LowerApart(ptr, size, ring, avail, live, home, base, top, k, p, bp);
      }
      freep := p;
    }

    /** free: the payload at ap goes back to the list, joined with the free blocks it touches. */
    method Free(ap: nat)
      requires Valid() && ap > 0 && ap - 1 in live
      modifies this`freep, this`ptr, this`size, this`ring, this`avail, this`live, this`home
      ensures Valid() && freep != 0
      ensures Freed(old(size), old(live), old(home), size, avail, live, home, ap - 1)
    {
      hide HeapBut, Freed, JoinedBut;
      var bp := ap - 1;
      var p: nat;
      ghost var k: nat;
      p, k := FindPlace(bp);
      LiveUnits(ptr, size, ring, avail, live, home, base, top, bp, k);
      JoinUpper(bp, p, ptr[p], k);
      JoinLower(bp, p, k, old(size), old(live), old(home));
    }

    /** morecore; grant is the header address sbrk returns, 0 for its failure. */
    method Morecore(nunits: nat, grant: nat) returns (r: nat)
      requires Valid() && freep != 0 && 0 < nunits && (grant == 0 || grant >= top)
      modifies this`freep, this`ptr, this`size, this`ring, this`avail, this`live, this`home, this`top
      ensures Valid() && freep != 0 && (r == 0 <==> grant == 0)
      ensures r == 0 ==> ptr == old(ptr) && size == old(size) && freep == old(freep) && ring == old(ring)
      ensures r == 0 ==> avail == old(avail) && live == old(live) && home == old(home) && top == old(top)
      ensures r != 0 ==> r == freep && top == grant + Chunk(nunits)
      ensures r != 0 ==> Grown(old(size), old(live), old(home), size, avail, live, home, grant, Chunk(nunits))
    {
      hide HeapBut, Freed, Grown, GrowHome;
      var nu := if nunits < 4096 then 4096 else nunits;
      if grant == 0 {
        return 0;
      }
      ghost var size0, live0, home0 := size, live, home;
      ExtendHeap(ptr, size, ring, avail, live, home, base, top, grant, nu);
      size := size[grant := nu];
      live, home, top := live + {grant}, GrowHome(home, grant, nu), grant + nu;
      ghost var size1, live1, home1 := size, live, home;
      Free(grant + 1);
      FreedGrown(size0, live0, home0, size1, live1, home1, size, avail, live, home, grant, nu);
      r := freep;
    }

    /** The search of malloc: next fit, from behind freep, asking for more core after a full lap. */
    method Search(nunits: nat, grant: nat) returns (prevp: nat, p: nat, ghost i: nat)
      requires Valid() && freep != 0 && 0 < nunits && (grant == 0 || grant >= top)
      modifies this`freep, this`ptr, this`size, this`ring, this`avail, this`live, this`home, this`top
      ensures Valid() && freep != 0
      ensures p == 0 <==> NoFit(old(size), old(avail), nunits) && grant == 0
      ensures Since(p != 0 && NoFit(old(size), old(avail), nunits),
                    old(size), old(avail), old(live), old(home), old(top),
                    size, avail, live, home, top, grant, Chunk(nunits))
      ensures p != 0 ==> Found(size, ring, i, prevp, p, nunits)
    {
      hide HeapBut, Grown, NoFit, Tried, Ahead, Steps, Sorted, Listed;
      RingFacts(ptr, size, ring, avail, live, home, base, top);
      prevp, p := freep, ptr[freep];
      i :| 0 <= i < |ring| && ring[i] == freep;
      ghost var fi, j, grown, g := i, Next(ring, i), false, 0;
      StartLap(size, ring, nunits, i);
      while size[p] < nunits
        invariant Valid() && freep != 0 && fi < |ring| && ring[fi] == freep
        invariant p in size
        invariant i < |ring| && prevp == ring[i] && j == Next(ring, i) && p == ring[j]
        invariant Since(grown, old(size), old(avail), old(live), old(home), old(top),
                        size, avail, live, home, top, grant, Chunk(nunits))
        invariant grown ==> grant != 0 && NoFit(old(size), old(avail), nunits)
        invariant if grown then Ahead(size, ring, nunits, j, fi, g) else Tried(size, ring, nunits, j, fi)
        decreases !grown, Steps(j, fi, |ring|)
      {
        RingFacts(ptr, size, ring, avail, live, home, base, top);
        SamePlace(ring, j, fi);
        if p == freep {
          assert !grown by { hide *; NotAhead(size, ring, nunits, fi, g); }
          LapDone(ring, size, base, avail, nunits, fi);
          p := Morecore(nunits, grant);
          if p == 0 {
            return 0, 0, 0;
          }
          RingFacts(ptr, size, ring, avail, live, home, base, top);
          g := NewTarget(ring, base, old(size), old(live), old(home), size, avail, live, home, grant, Chunk(nunits));
          fi :| 0 <= fi < |ring| && ring[fi] == freep;
          grown, j := true, fi;
          Restart(size, ring, nunits, fi, g);
        } else {
          Advance(size, ring, nunits, j, fi, g, grown);
        }
        prevp, p := p, ptr[p];
        i, j := j, Next(ring, j);
      }
      RingFacts(ptr, size, ring, avail, live, home, base, top);
      Fits(size, avail, nunits, p);
    }

    /** The end of malloc: p is unlinked when it fits exactly, else its tail is split off. */
    method Carve(prevp: nat, p: nat, nunits: nat, ghost i: nat) returns (q: nat)
      requires Valid() && freep != 0 && 0 < nunits && Found(size, ring, i, prevp, p, nunits)
      modifies this`freep, this`ptr, this`size, this`ring, this`avail, this`live, this`home
      ensures Valid() && freep != 0 && q != 0 && Taken(old(size), old(live), old(home), size, live, home, q, nunits)
    {
      hide HeapBut, Taken, CutHome, Delete, Sorted, Listed, After;
      assert prevp in ptr && p in ptr && p in avail && prevp >= base && p >= base && prevp in ring by {
        RingFacts(ptr, size, ring, avail, live, home, base, top);
      }
      if size[p] == nunits {
        q := p;
        TakeWhole(ptr, size, ring, avail, live, home, base, top, i, nunits);
        ptr := ptr[prevp := ptr[p]];
        ring, avail, live := Delete(ring, i + 1), avail - {p}, live + {p};
      } else {
        q := p + (size[p] - nunits);
        TakeTail(ptr, size, ring, avail, live, home, base, top, i + 1, nunits);
        size := size[p := size[p] - nunits][q := nunits];
        home, live := CutHome(home, p, q), live + {q};
      }
      freep := prevp;
    }

    /** malloc: a block of its own with room for nbytes, or 0 when none fits and sbrk fails.  The
        result is the payload address; grant is sbrk's answer, 0 for its failure. */
    method Malloc(nbytes: nat, grant: nat) returns (ap: nat)
      requires Valid() && (grant == 0 || grant >= top)
      requires nbytes < 0x1_0000_0000
      requires NoFit(size, avail, Units(nbytes)) ==> SbrkBytes(Units(nbytes)) > 0   // see SbrkGrows
      modifies this`freep, this`ptr, this`size, this`ring, this`avail, this`live, this`home, this`top
      ensures Valid() && freep != 0
      ensures ap == 0 <==> NoFit(old(size), old(avail), Units(nbytes)) && grant == 0
      ensures ap == 0 ==> live == old(live) && home == old(home) && top == old(top) && avail == old(avail)
      ensures ap != 0 ==> Served(old(size), old(live), old(home), size, live, home, ap - 1, Units(nbytes),
                                 NoFit(old(size), old(avail), Units(nbytes)), grant)
      ensures ap != 0 ==> ((size[ap - 1] - 1) * HEADER >= nbytes <==> nbytes <= 0x1_0000_0000 - HEADER)
    {
      hide HeapBut, NoFit, Taken, Found, Since;
      var nunits := (nbytes + HEADER - 1) % 0x1_0000_0000 / HEADER + 1;
      ghost var size0, avail0, live0, home0 := size, avail, live, home;
      if freep == 0 {
        FirstHeap(ptr, size, base, top);
        ptr, size, freep := ptr[base := base], size[base := 0], base;
        ring := [base];
        SameFits(size0, size, avail, nunits);
      }
      ghost var size1 := size;
      var prevp, p: nat;
      ghost var i: nat;
      prevp, p, i := Search(nunits, grant);
      if p == 0 {
        SinceSame(size1, avail0, live0, home0, old(top), size, avail, live, home, top, grant, Chunk(nunits));
        return 0;
      }
      ghost var size2, avail2, live2, home2, top2 := size, avail, live, home, top;
      var q := Carve(prevp, p, nunits, i);
      ap := q + 1;
      ServedBy(size0, size1, avail0, live0, home0, old(top), size2, avail2, live2, home2, top2, size, live, home, q,
               nunits, NoFit(size0, avail0, nunits), grant);
      RoomExactly(nbytes);
    }
  }

  /** bp stands at position k+1, and may touch only p, the block before it. */
  ghost predicate JoinedBut(ptr: map<nat, nat>, size: map<nat, nat>, ring: seq<nat>, avail: set<nat>, live: set<nat>,
                            home: map<nat, nat>, base: nat, top: nat, k: nat, p: nat, bp: nat) {
    && HeapBut(ptr, size, ring, avail, live, home, base, top, k, k)
    && k + 1 < |ring| && ring[k] == p < bp && ring[k + 1] == bp
    && p in size && p + size[p] <= bp && bp in home && home[bp] == bp && bp in avail
  }

  lemma UpperMerged(ptr0: map<nat, nat>, size0: map<nat, nat>, ring0: seq<nat>, avail0: set<nat>, live0: set<nat>,
                    home0: map<nat, nat>, base: nat, top: nat, k: nat, b: nat, p: nat, q: nat,
                    ptr: map<nat, nat>, size: map<nat, nat>, ring: seq<nat>, avail: set<nat>, live: set<nat>,
                    home: map<nat, nat>)
    requires Heap(ptr0, size0, ring0, avail0, live0, home0, base, top) && b in live0 && b in size0
    requires k < |ring0| && p == ring0[k] < b && (k + 1 < |ring0| ==> b < ring0[k + 1])
    requires q == After(ring0, k) == b + size0[b] && q in ptr0 && q in size0
    requires ptr == ptr0[b := ptr0[q]][p := b] && size == size0[b := size0[b] + size0[q]]
    requires ring == Delete(Insert(ring0, k, b), k + 2)
    requires avail == avail0 + {b} - {q} && live == live0 - {b} && home == Rehome(home0, b, q)
    ensures JoinedBut(ptr, size, ring, avail, live, home, base, top, k, p, b)
    ensures Freed(size0, live0, home0, size, avail, live, home, b)
  {
    hide HeapBut;
    LiveUnits(ptr0, size0, ring0, avail0, live0, home0, base, top, b, k);
    InsertBlock(ptr0, size0, ring0, avail0, live0, home0, base, top, k, b);
    var ptr1, ring1 := ptr0[b := q][p := b], Insert(ring0, k, b);
    assert ring1[k] == p && ring1[k + 1] == b && ring1[k + 2] == q && ring[k] == p && ring[k + 1] == b;
    assert ptr == ptr1[b := ptr1[q]];
    hide Insert, Delete, After;
    assert HeapBut(ptr, size, ring, avail, live, home, base, top, k, k) && home.Keys == home0.Keys by {
      MergeAt(ptr1, size0, ring1, avail0 + {b}, live, home0, base, top, k, k + 1);
    }
  }

  lemma UpperApart(ptr0: map<nat, nat>, size: map<nat, nat>, ring0: seq<nat>, avail0: set<nat>, live0: set<nat>,
                   home: map<nat, nat>, base: nat, top: nat, k: nat, b: nat, p: nat, q: nat,
                   ptr: map<nat, nat>, ring: seq<nat>, avail: set<nat>, live: set<nat>)
    requires Heap(ptr0, size, ring0, avail0, live0, home, base, top) && b in live0 && b in size
    requires k < |ring0| && p == ring0[k] < b && (k + 1 < |ring0| ==> b < ring0[k + 1])
    requires q == After(ring0, k) != b + size[b]
    requires ptr == ptr0[b := q][p := b] && ring == Insert(ring0, k, b) && avail == avail0 + {b} && live == live0 - {b}
    ensures JoinedBut(ptr, size, ring, avail, live, home, base, top, k, p, b)
    ensures Freed(size, live0, home, size, avail, live, home, b)
  {
    hide HeapBut;
    LiveUnits(ptr0, size, ring0, avail0, live0, home, base, top, b, k);
    InsertBlock(ptr0, size, ring0, avail0, live0, home, base, top, k, b);
    Tighten(ptr, size, ring, avail, live, home, base, top, k, k, k + 1);
  }

  lemma JoinedFacts(ptr: map<nat, nat>, size: map<nat, nat>, ring: seq<nat>, avail: set<nat>, live: set<nat>,
                    home: map<nat, nat>, base: nat, top: nat, k: nat, p: nat, b: nat)
    requires JoinedBut(ptr, size, ring, avail, live, home, base, top, k, p, b)
    ensures p in ptr && b in ptr && b in size && p in size && p in ring && k + 1 < |ring|
    ensures p > 0 || base == 0
    ensures p + size[p] == b ==> k > 0
  {
    hide Covers, Sorted;
    assert Link(ptr, ring, k) && Link(ptr, ring, k + 1);
    assert p == base || p in avail;
  }

  lemma LowerMerged(ptr0: map<nat, nat>, size0: map<nat, nat>, ring0: seq<nat>, avail0: set<nat>, live: set<nat>,
                    home0: map<nat, nat>, base: nat, top: nat, k: nat, p: nat, b: nat,
                    ptr: map<nat, nat>, size: map<nat, nat>, ring: seq<nat>, avail: set<nat>, home: map<nat, nat>,
                    sizes: map<nat, nat>, lives: set<nat>, homes: map<nat, nat>)
    requires JoinedBut(ptr0, size0, ring0, avail0, live, home0, base, top, k, p, b) && p + size0[p] == b
    requires b in ptr0 && b in size0 && k > 0
    requires ptr == ptr0[p := ptr0[b]] && size == size0[p := size0[p] + size0[b]] && ring == Delete(ring0, k + 1)
    requires avail == avail0 - {b} && home == Rehome(home0, p, b)
    requires Freed(sizes, lives, homes, size0, avail0, live, home0, b)
    ensures Heap(ptr, size, ring, avail, live, home, base, top) && p in ring
    ensures Freed(sizes, lives, homes, size, avail, live, home, b)
  {
    hide HeapBut;
    MergeAt(ptr0, size0, ring0, avail0, live, home0, base, top, k, k);
    assert ring[k] == p;
    assert p !in live by { NotLive(ptr0, size0, ring0, avail0, live, home0, base, top, k, p); }
  }

  lemma NotLive(ptr: map<nat, nat>, size: map<nat, nat>, ring: seq<nat>, avail: set<nat>, live: set<nat>,
                home: map<nat, nat>, base: nat, top: nat, k: int, p: nat)
    requires HeapBut(ptr, size, ring, avail, live, home, base, top, k, k) && p in avail
    ensures p !in live
  {
    hide Covers, Ring;
  }

  lemma LowerApart(ptr: map<nat, nat>, size: map<nat, nat>, ring: seq<nat>, avail: set<nat>, live: set<nat>,
                   home: map<nat, nat>, base: nat, top: nat, k: nat, p: nat, b: nat)
    requires JoinedBut(ptr, size, ring, avail, live, home, base, top, k, p, b) && p + size[p] != b
    ensures Heap(ptr, size, ring, avail, live, home, base, top) && p in ring
  {
    hide HeapBut;
    Tighten(ptr, size, ring, avail, live, home, base, top, k, -1, k);
  }

  /** The units morecore asks sbrk for. */
  function Chunk(n: nat): nat {
    if n < 4096 then 4096 else n
  }

  /** n more units from a on are available, in one block; nothing else changed for the holders of blocks. */
  ghost predicate Grown(size0: map<nat, nat>, live0: set<nat>, home0: map<nat, nat>, size: map<nat, nat>,
                        avail: set<nat>, live: set<nat>, home: map<nat, nat>, a: nat, n: nat) {
    && live == live0 && (forall x :: x in home <==> x in home0 || a <= x < a + n)
    && (forall c :: c in live && c in size0 ==> c in size && size[c] == size0[c])
    && a in home && home[a] in avail && home[a] in size && size[home[a]] >= n
  }

  /** Nothing changed, unless the heap has grown. */
  ghost predicate Since(grown: bool, size0: map<nat, nat>, avail0: set<nat>, live0: set<nat>, home0: map<nat, nat>,
                        top0: nat,
                        size: map<nat, nat>, avail: set<nat>, live: set<nat>, home: map<nat, nat>, top: nat, a: nat,
                        n: nat) {
    if grown then top == a + n && Grown(size0, live0, home0, size, avail, live, home, a, n)
    else size == size0 && avail == avail0 && live == live0 && home == home0 && top == top0
  }

  ghost predicate NoFit(size: map<nat, nat>, avail: set<nat>, n: nat) {
    forall b :: b in avail && b in size ==> size[b] < n
  }

  /** p, behind prevp at position i, is large enough. */
  ghost predicate Found(size: map<nat, nat>, ring: seq<nat>, i: nat, prevp: nat, p: nat, n: nat) {
    i + 1 < |ring| && ring[i] == prevp && ring[i + 1] == p && p in size && size[p] >= n
  }

  function Next(ring: seq<nat>, k: nat): (j: nat)
    requires k < |ring|
    ensures j < |ring| && ring[j] == After(ring, k)
  {
    if k + 1 < |ring| then k + 1 else 0
  }

  /** Going round from j one meets position f before every position that is too small. */
  ghost predicate Tried(size: map<nat, nat>, ring: seq<nat>, n: nat, j: nat, f: nat) {
    forall m {:trigger ring[m]} ::
      0 <= m < |ring| && j < |ring| && f < |ring| && Steps(j, m, |ring|) > Steps(j, f, |ring|) ==>
        ring[m] in size && size[ring[m]] < n
  }

  /** Position g is large enough and not behind f, going round from j. */
  ghost predicate Ahead(size: map<nat, nat>, ring: seq<nat>, n: nat, j: nat, f: nat, g: nat) {
    j < |ring| && f < |ring| && g < |ring| && ring[g] in size && size[ring[g]] >= n &&
    Steps(j, g, |ring|) <= Steps(j, f, |ring|)
  }

  lemma ExtendHeap(ptr: map<nat, nat>, size: map<nat, nat>, ring: seq<nat>, avail: set<nat>, live: set<nat>,
                   home: map<nat, nat>, base: nat, top: nat, a: nat, n: nat)
    requires Heap(ptr, size, ring, avail, live, home, base, top) && top <= a && n > 0
    ensures a !in live && a !in avail && GrowHome(home, a, n)[a] == a && (forall c :: c in live ==> c in size)
    ensures Heap(ptr, size[a := n], ring, avail, live + {a}, GrowHome(home, a, n), base, a + n)
  {
    hide Ring, Covers, GrowHome;
    ExtendBlocks(size, avail, live, home, base, top, a, n);
    assert forall k :: 0 <= k < |ring| ==> ring[k] == base || ring[k] in avail;
    hide Listed, Blocks;
    var size' := size[a := n];
    forall k | 0 <= k < |ring| - 1
      ensures Gap(size', ring, k)
    {
      assert Gap(size, ring, k);
    }
  }

  lemma FreedGrown(size0: map<nat, nat>, live0: set<nat>, home0: map<nat, nat>,
                   size1: map<nat, nat>, live1: set<nat>, home1: map<nat, nat>,
                   size: map<nat, nat>, avail: set<nat>, live: set<nat>, home: map<nat, nat>, a: nat, n: nat)
    requires a !in live0 && size1 == size0[a := n] && live1 == live0 + {a} && home1 == GrowHome(home0, a, n)
    requires Freed(size1, live1, home1, size, avail, live, home, a)
    ensures Grown(size0, live0, home0, size, avail, live, home, a, n)
  {
    assert live == live0;
    assert forall x :: x in home <==> x in home1;
  }

  lemma RingFacts(ptr: map<nat, nat>, size: map<nat, nat>, ring: seq<nat>, avail: set<nat>, live: set<nat>,
                  home: map<nat, nat>, base: nat, top: nat)
    requires Heap(ptr, size, ring, avail, live, home, base, top)
    ensures forall k :: 0 <= k < |ring| ==> ring[k] in size && ring[k] in ptr && ptr[ring[k]] == After(ring, k)
    ensures forall k :: 0 <= k < |ring| && size[ring[k]] > 0 ==> k > 0 && ring[k] in avail
    ensures forall k :: 0 <= k < |ring| ==> ring[k] >= base
    ensures Sorted(ring) && Listed(ring, base, avail) && |ring| > 0 && ring[0] == base && size[base] == 0
  {
    hide Covers;
    forall k | 0 <= k < |ring|
      ensures ring[k] in ptr && ptr[ring[k]] == After(ring, k)
    {
      assert Link(ptr, ring, k);
    }
  }

  lemma SamePlace(ring: seq<nat>, j: nat, f: nat)
    requires Sorted(ring) && j < |ring| && f < |ring|
    ensures ring[j] == ring[f] ==> j == f
  {
  }

  lemma NotAhead(size: map<nat, nat>, ring: seq<nat>, n: nat, f: nat, g: nat)
    requires f < |ring| && ring[f] in size && size[ring[f]] < n
    ensures !Ahead(size, ring, n, f, f, g)
  {
  }

  lemma LapDone(ring: seq<nat>, size: map<nat, nat>, base: nat, avail: set<nat>, n: nat, f: nat)
    requires f < |ring| && ring[f] in size && size[ring[f]] < n && Tried(size, ring, n, f, f) &&
             Listed(ring, base, avail)
    ensures NoFit(size, avail, n)
  {
    forall b | b in avail && b in size
      ensures size[b] < n
    {
      var m :| 0 <= m < |ring| && ring[m] == b;
      assert m != f ==> Steps(f, m, |ring|) > Steps(f, f, |ring|);
    }
  }

  lemma NewTarget(ring: seq<nat>, base: nat, size0: map<nat, nat>, live0: set<nat>, home0: map<nat, nat>,
                  size: map<nat, nat>,
                  avail: set<nat>, live: set<nat>, home: map<nat, nat>, a: nat, n: nat) returns (g: nat)
    requires Grown(size0, live0, home0, size, avail, live, home, a, n) && Listed(ring, base, avail)
    ensures g < |ring| && ring[g] in size && size[ring[g]] >= n
  {
    g :| 0 <= g < |ring| && ring[g] == home[a];
  }

  lemma Restart(size: map<nat, nat>, ring: seq<nat>, n: nat, f: nat, g: nat)
    requires f < |ring| && g < |ring| && ring[g] in size && size[ring[g]] >= n
    ensures Ahead(size, ring, n, Next(ring, f), f, g)
  {
  }

  lemma StartLap(size: map<nat, nat>, ring: seq<nat>, n: nat, f: nat)
    requires f < |ring|
    ensures Tried(size, ring, n, Next(ring, f), f)
  {
  }

  lemma Advance(size: map<nat, nat>, ring: seq<nat>, n: nat, j: nat, f: nat, g: nat, grown: bool)
    requires j < |ring| && f < |ring| && j != f && ring[j] in size && size[ring[j]] < n
    requires if grown then Ahead(size, ring, n, j, f, g) else Tried(size, ring, n, j, f)
    ensures if grown then Ahead(size, ring, n, Next(ring, j), f, g) else Tried(size, ring, n, Next(ring, j), f)
    ensures Steps(Next(ring, j), f, |ring|) < Steps(j, f, |ring|)
  {
  }

  lemma Fits(size: map<nat, nat>, avail: set<nat>, n: nat, b: nat)
    requires b in avail && b in size && size[b] >= n
    ensures !NoFit(size, avail, n)
  {
  }

  /** Block q of n units has become live; the other live blocks are as they were. */
  ghost predicate Taken(size0: map<nat, nat>, live0: set<nat>, home0: map<nat, nat>,
                        size: map<nat, nat>, live: set<nat>, home: map<nat, nat>, q: nat, n: nat) {
    && q !in live0 && live == live0 + {q} && q in size && size[q] == n && home.Keys == home0.Keys
    && (forall c :: c in live0 ==> c in size0 && c in size && size[c] == size0[c])
  }

  /** The units malloc takes for nbytes: the payload rounded up and a header. */
  function Units(nbytes: nat): nat {
    (nbytes + HEADER - 1) % 0x1_0000_0000 / HEADER + 1
  }

  /** Block q of n units is new among the live blocks, and the heap has grown by a chunk at a when asked to. */
  ghost predicate Served(size0: map<nat, nat>, live0: set<nat>, home0: map<nat, nat>,
                         size: map<nat, nat>, live: set<nat>, home: map<nat, nat>, q: nat, n: nat, grown: bool,
                         a: nat) {
    && q !in live0 && live == live0 + {q} && q in size && size[q] == n
    && (forall c :: c in live0 && c in size0 ==> c in size && size[c] == size0[c])
    && (forall x :: x in home <==> x in home0 || (grown && a <= x < a + Chunk(n)))
  }

  lemma TakeWhole(ptr: map<nat, nat>, size: map<nat, nat>, ring: seq<nat>, avail: set<nat>, live: set<nat>,
                  home: map<nat, nat>, base: nat, top: nat, i: nat, n: nat)
    requires Heap(ptr, size, ring, avail, live, home, base, top) && i + 1 < |ring|
    requires ring[i + 1] in size && size[ring[i + 1]] == n > 0 && ring[i + 1] in avail && ring[i + 1] in ptr
    ensures var p := ring[i + 1];
            && Heap(ptr[ring[i] := ptr[p]], size, Delete(ring, i + 1), avail - {p}, live + {p}, home, base, top)
            && Taken(size, live, home, size, live + {p}, home, p, n) && ring[i] in Delete(ring, i + 1)
  {
    hide Tiles, Covers, Linked;
    var p, r := ring[i + 1], Delete(ring, i + 1);
    assert ring[0] < p;
    DeleteRing(ptr, ring, base, i);
    DeleteListed(ring, base, avail, i + 1);
    TakeBlock(size, avail, live, home, base, top, p);
    TakenFacts(size, avail, live, home, base, top, p);
    assert r[i] == ring[i];
    hide Ring, Listed, Blocks;
    assert i + 2 < |ring| ==> ring[i + 1] < ring[i + 2];
    hide Sorted;
    forall j | 0 <= j < |r| - 1
      ensures r[j] in size && Gap(size, r, j)
    {
      assert Gap(size, ring, if j <= i then j else j + 1);
    }
  }

  lemma TakenFacts(size: map<nat, nat>, avail: set<nat>, live: set<nat>, home: map<nat, nat>, base: nat, top: nat,
                   p: nat)
    requires Blocks(size, avail, live, home, base, top) && p in avail
    ensures p !in live && (forall c :: c in live ==> c in size && c != p)
  {
    hide Covers;
  }

  lemma TakeTail(ptr: map<nat, nat>, size: map<nat, nat>, ring: seq<nat>, avail: set<nat>, live: set<nat>,
                 home: map<nat, nat>, base: nat, top: nat, j: nat, n: nat)
    requires Heap(ptr, size, ring, avail, live, home, base, top) && j < |ring|
    requires ring[j] in size && 0 < n < size[ring[j]] && ring[j] in avail
    ensures var p := ring[j]; var q := p + size[p] - n;
            && Heap(ptr, size[p := size[p] - n][q := n], ring, avail, live + {q}, CutHome(home, p, q), base, top)
            && Taken(size, live, home, size[p := size[p] - n][q := n], live + {q}, CutHome(home, p, q), q, n)
  {
    hide Tiles, Covers, Ring;
    var p := ring[j];
    var q := p + size[p] - n;
    SplitBlock(size, avail, live, home, base, top, p, n);
    TakenFacts(size, avail, live, home, base, top, p);
    assert q !in ring;
    hide Listed, Blocks;
    var size' := size[p := size[p] - n][q := n];
    forall k | 0 <= k < |ring| - 1
      ensures Gap(size', ring, k)
    {
      assert Gap(size, ring, k);
    }
  }

  lemma FirstHeap(ptr: map<nat, nat>, size: map<nat, nat>, base: nat, top: nat)
    requires 0 < base < top
    ensures Heap(ptr[base := base], size[base := 0], [base], {}, {}, map[], base, top)
  {
  }

  lemma SameFits(size0: map<nat, nat>, size: map<nat, nat>, avail: set<nat>, n: nat)
    requires avail == {}
    ensures NoFit(size0, avail, n) == NoFit(size, avail, n)
  {
  }

  lemma ServedBy(size0: map<nat, nat>, size1: map<nat, nat>, avail0: set<nat>, live0: set<nat>, home0: map<nat, nat>,
                 top0: nat,
                 size2: map<nat, nat>, avail2: set<nat>, live2: set<nat>, home2: map<nat, nat>, top2: nat,
                 size: map<nat, nat>, live: set<nat>, home: map<nat, nat>, q: nat, n: nat, grown: bool, a: nat)
    requires size1 == size0 || live0 == {}
    requires Since(grown, size1, avail0, live0, home0, top0, size2, avail2, live2, home2, top2, a, Chunk(n))
    requires Taken(size2, live2, home2, size, live, home, q, n)
    ensures Served(size0, live0, home0, size, live, home, q, n, grown, a)
  {
    assert forall x :: x in home <==> x in home2;
  }

  /** The units computed for a request have room for it unless the sum wraps around; then malloc
      hands out a header without payload. */
  lemma RoomExactly(nbytes: nat)
    requires nbytes < 0x1_0000_0000
    ensures (Units(nbytes) - 1) * HEADER >= nbytes <==> nbytes <= 0x1_0000_0000 - HEADER
    ensures nbytes > 0x1_0000_0000 - HEADER ==> Units(nbytes) == 1
  {
    var n := nbytes + HEADER - 1;
    if n >= 0x1_0000_0000 { assert n % 0x1_0000_0000 == n - 0x1_0000_0000 < HEADER; }
  }

  /** The largest request gets no room at all. */
  lemma WrapsAround()
    ensures Units(0xFFFF_FFFF) == 1 && (Units(0xFFFF_FFFF) - 1) * HEADER < 0xFFFF_FFFF
  {
  }

  /** What sbrk makes of the number of bytes: it takes a signed 32-bit integer. */
  function SbrkBytes(nunits: nat): int {
    var u := Chunk(nunits) * HEADER % 0x1_0000_0000;
    if u < 0x8000_0000 then u else u - 0x1_0000_0000
  }

  /** The requests for which morecore asks sbrk for what it needs; for the others sbrk(0) or a negative
      number, which shrinks the heap, is taken for a success. */
  lemma SbrkGrows(nbytes: nat)
    requires nbytes < 0x1_0000_0000
    ensures SbrkBytes(Units(nbytes)) > 0 <==> nbytes <= 0x8000_0000 - 2 * HEADER || nbytes > 0x1_0000_0000 - HEADER
    ensures SbrkBytes(Units(nbytes)) > 0 ==> SbrkBytes(Units(nbytes)) == Chunk(Units(nbytes)) * HEADER
  {
    RoomExactly(nbytes);
    var n := nbytes + HEADER - 1;
    if n < 0x1_0000_0000 { assert n % 0x1_0000_0000 == n; }
  }

  lemma SinceSame(size0: map<nat, nat>, avail0: set<nat>, live0: set<nat>, home0: map<nat, nat>, top0: nat,
                  size: map<nat, nat>, avail: set<nat>, live: set<nat>, home: map<nat, nat>, top: nat, a: nat, n: nat)
    requires Since(false, size0, avail0, live0, home0, top0, size, avail, live, home, top, a, n)
    ensures avail == avail0 && live == live0 && home == home0 && top == top0
  {
  }

  lemma Tighten(ptr: map<nat, nat>, size: map<nat, nat>, ring: seq<nat>, avail: set<nat>, live: set<nat>,
                home: map<nat, nat>, base: nat, top: nat, i: int, j: int, k: nat)
    requires HeapBut(ptr, size, ring, avail, live, home, base, top, i, k)
    requires k < |ring| && ring[k] in size && (k + 1 < |ring| ==> Gap(size, ring, k)) && (j == i || (i == k && j == -1))
    ensures HeapBut(ptr, size, ring, avail, live, home, base, top, j, j)
  {
    hide Ring, Listed, Blocks;
  }

  /** What free leaves behind: the released units are in one available block at least as large. */
  ghost predicate Freed(size0: map<nat, nat>, live0: set<nat>, home0: map<nat, nat>, size: map<nat, nat>,
                        avail: set<nat>, live: set<nat>, home: map<nat, nat>, b: nat) {
    && live == live0 - {b} && home.Keys == home0.Keys
    && (forall c :: c in live && c in size0 ==> c in size && size[c] == size0[c])
    && b in size0 && b in home && home[b] in avail && home[b] in size && size[home[b]] >= size0[b]
  }

  lemma LiveUnits(ptr: map<nat, nat>, size: map<nat, nat>, ring: seq<nat>, avail: set<nat>, live: set<nat>,
                  home: map<nat, nat>, base: nat, top: nat, b: nat, k: nat)
    requires Heap(ptr, size, ring, avail, live, home, base, top) && b in live && k < |ring|
    ensures b in size && size[b] > 0 && b in home && home[b] == b && base < b && b !in avail
    ensures ring[k] in size && ring[k] in ptr && ptr[ring[k]] == After(ring, k)
    ensures After(ring, k) in size && After(ring, k) in ptr && After(ring, k) != b
    ensures k + 1 == |ring| ==> After(ring, k) == base
    ensures forall c :: c in live ==> c in size
  {
    assert Covered(home, b, size[b]);
    assert Link(ptr, ring, k);
    assert Link(ptr, ring, if k + 1 < |ring| then k + 1 else 0);
  }

  lemma Nearest(ring: seq<nat>, k: nat, b: nat)
    requires Sorted(ring) && k < |ring| && (k + 1 < |ring| ==> b < ring[k + 1])
    ensures forall q :: q in ring && q < b ==> q <= ring[k]
  {
    forall j | 0 <= j < |ring|
      ensures ring[j] < b ==> ring[j] <= ring[k]
    {
      if j > k + 1 { assert ring[k + 1] < ring[j]; }
    }
  }

  lemma LiveFacts(ptr: map<nat, nat>, size: map<nat, nat>, ring: seq<nat>, avail: set<nat>, live: set<nat>,
                  home: map<nat, nat>, base: nat, top: nat, b: nat)
    requires Heap(ptr, size, ring, avail, live, home, base, top) && b in live
    ensures |ring| > 0 && ring[0] == base < b && Sorted(ring) && Linked(ptr, ring) && b !in ring
    ensures forall k :: 0 <= k < |ring| ==> ring[k] in ptr
  {
    forall k | 0 <= k < |ring| ensures ring[k] in ptr { assert Link(ptr, ring, k); }
  }

  /** Where the two tests of free's loop stand at position k, when b belongs behind position t. */
  lemma LinkFacts(ring: seq<nat>, k: nat, t: nat, b: nat, ptr: map<nat, nat>)
    requires Sorted(ring) && Linked(ptr, ring) && k < |ring| && t < |ring| && ring[0] < b && b !in ring
    requires ring[t] < b && (t + 1 < |ring| ==> b <= ring[t + 1])
    ensures ring[k] in ptr && ptr[ring[k]] == After(ring, k)
    ensures (ring[k] < b < ptr[ring[k]]) ==> k == t
    ensures (ring[k] >= ptr[ring[k]] && (b > ring[k] || b < ptr[ring[k]])) ==> k == t
    ensures k == t ==> ring[k] < b && (k + 1 < |ring| ==> b < ring[k + 1])
    ensures k == t ==> (ring[k] < b < ptr[ring[k]]) || (ring[k] >= ptr[ring[k]] && (b > ring[k] || b < ptr[ring[k]]))
  {
    assert Link(ptr, ring, k);
    if k < t { assert k + 1 <= t; assert ring[k + 1] <= ring[t]; }
    if k > t { assert ring[t + 1] <= ring[k]; }
    if t + 1 < |ring| { assert ring[t + 1] in ring; }
  }

  // ----- Conservation -----

  ghost function Total(size: map<nat, nat>, s: set<nat>): nat
    requires s <= size.Keys
  {
    if s == {} then 0 else var b :| b in s; size[b] + Total(size, s - {b})
  }

  ghost function Range(b: nat, n: nat): (r: set<nat>)
    ensures forall x :: x in r <==> b <= x < b + n
    ensures |r| == n
  {
    if n == 0 then {} else Range(b, n - 1) + {b + n - 1}
  }

  lemma {:induction false} CountUnits(size: map<nat, nat>, home: map<nat, nat>, s: set<nat>, xs: set<nat>)
    requires s <= size.Keys && forall b :: b in s ==> Covered(home, b, size[b])
    requires forall x :: x in xs <==> x in home && home[x] in s
    requires forall x :: x in xs ==> home[x] <= x < home[x] + size[home[x]]
    ensures |xs| == Total(size, s)
    decreases s
  {
    if s == {} {
      assert xs == {};
    } else {
      var b :| b in s && Total(size, s) == size[b] + Total(size, s - {b});
      var own := Range(b, size[b]);
      assert forall x :: x in own <==> x in xs && home[x] == b by { assert Covered(home, b, size[b]); }
      hide Covered;
      CountUnits(size, home, s - {b}, xs - own);
      assert own <= xs && xs == (xs - own) + own;
    }
  }

  /** Free plus live units are the units obtained from sbrk, and no unit is in two blocks. */
  lemma UnitsConserved(a: Allocator)
    requires a.Valid() && a.freep != 0
    ensures a.live + a.avail <= a.size.Keys && a.live !! a.avail
    ensures Total(a.size, a.live + a.avail) == |a.home.Keys|
    ensures forall b, c :: b in a.live + a.avail && c in a.live + a.avail && b < c ==> b + a.size[b] <= c
  {
    CountUnits(a.size, a.home, a.live + a.avail, a.home.Keys);
    forall b, c | b in a.live + a.avail && c in a.live + a.avail && b < c
      ensures b + a.size[b] <= c
    {
      InOrder(a.size, a.avail, a.live, a.home, a.base, a.top, b, c);
    }
  }
}
