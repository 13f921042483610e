/**
 What the blocks of a file system mean (fs.c, fs.h): which block belongs to which slot of which
 inode, which bytes a file holds, and how one changed block or address affects that.
 */
module FileImage {
  import opened DiskFormat

  /** The regions of the disk; blocks from datastart on hold file data and indirect blocks. */
  datatype Super = Super(size: nat, ninodes: nat, inodestart: nat, bmapstart: nat, datastart: nat)

  predicate Layout(sb: Super) {
    && 2 <= sb.inodestart && sb.inodestart + sb.ninodes / IPB + 1 <= sb.bmapstart
    && sb.bmapstart + sb.size / BPB + 1 <= sb.datastart <= sb.size < 0x1_0000_0000
  }

  function IBlock(sb: Super, i: nat): nat { i / IPB + sb.inodestart }

  function BBlock(sb: Super, b: nat): nat { b / BPB + sb.bmapstart }

  /** In-core inodes and disk blocks, the latter as the log and the buffer cache present them. */
  datatype Img = Img(core: seq<Inode>, blocks: seq<Block>)

  ghost predicate Shape(sb: Super, im: Img) {
    && Layout(sb) && |im.core| == sb.ninodes && |im.blocks| == sb.size
    && forall i :: 0 <= i < |im.core| ==> InodeOk(im.core[i])
  }

  predicate Used(sb: Super, im: Img, b: nat)
    requires Layout(sb) && |im.blocks| == sb.size && b < sb.size
  {
    GetBit(im.blocks[BBlock(sb, b)], b % BPB)
  }

  /** The inode as it stands on the disk. */
  function OnDisk(sb: Super, im: Img, i: nat): Inode
    requires Layout(sb) && |im.blocks| == sb.size && i < sb.ninodes
  {
    GetInode(im.blocks[IBlock(sb, i)], i % IPB)
  }

  // ----- Slots: 0..11 direct, 12 the indirect block, 13..140 its entries -----

  const NSLOT := 141
  const INDIRECT := 12

  datatype Slot = Slot(i: nat, k: nat)

  function Addr(im: Img, i: nat, k: nat): nat
    requires i < |im.core| && InodeOk(im.core[i]) && k < NSLOT
  {
    if k <= INDIRECT then im.core[i].addrs[k]
    else
      var ind := im.core[i].addrs[INDIRECT];
      if ind == 0 || ind >= |im.blocks| then 0 else GetWord(im.blocks[ind], k - 13)
  }

  /** The slot of the bn-th block of a file. */
  function SlotOf(bn: nat): nat { if bn < NDIRECT then bn else bn + 1 }

  /** Entries 13 .. 13+done-1 of inode ix are being discarded by itrunc. */
  predicate Gone(ix: nat, done: nat, i: nat, k: nat) {
    i == ix && 13 <= k < 13 + done
  }

  /** Exact ownership: every address in a slot belongs to that slot alone, lies in the data area and
      is marked used, and nothing else there is marked used, except a block `spare` that balloc
      has handed out and nobody has stored yet (0 if none). */
  ghost predicate Own(sb: Super, im: Img, owner: map<nat, Slot>, ix: nat, done: nat, spare: nat)
    requires Shape(sb, im)
  {
    && (forall i, k {:trigger Addr(im, i, k)} ::
          0 <= i < sb.ninodes && 0 <= k < NSLOT && !Gone(ix, done, i, k) && Addr(im, i, k) != 0 ==>
            Addr(im, i, k) in owner && owner[Addr(im, i, k)] == Slot(i, k))
    && (forall b :: b in owner ==>
          && sb.datastart <= b < sb.size && owner[b].i < sb.ninodes && owner[b].k < NSLOT
          && !Gone(ix, done, owner[b].i, owner[b].k) && Addr(im, owner[b].i, owner[b].k) == b)
    && (forall b :: sb.datastart <= b < sb.size ==> (Used(sb, im, b) <==> b in owner || b == spare))
    && (forall b :: 0 <= b < sb.datastart ==> Used(sb, im, b))
    && spare !in owner
  }

  ghost predicate Exact(sb: Super, im: Img, owner: map<nat, Slot>) {
    Shape(sb, im) && Own(sb, im, owner, 0, 0, 0)
  }

  // ----- File contents -----

  ghost predicate Mapped(im: Img, i: nat, n: nat)
    requires i < |im.core| && InodeOk(im.core[i])
  {
    forall bn :: 0 <= bn < MAXFILE && bn * BSIZE < n ==> 0 < Addr(im, i, SlotOf(bn)) < |im.blocks|
  }

  function ByteAt(im: Img, i: nat, off: nat): Byte
    requires i < |im.core| && InodeOk(im.core[i]) && off < MAXFILE * BSIZE
  {
    var a := Addr(im, i, SlotOf(off / BSIZE));
    if a < |im.blocks| then im.blocks[a][off % BSIZE] else 0
  }

  /** The bytes of file i. */
  function Contents(im: Img, i: nat): (s: seq<Byte>)
    requires i < |im.core| && InodeOk(im.core[i]) && im.core[i].size <= MAXFILE * BSIZE
    ensures |s| == im.core[i].size
    ensures forall k :: 0 <= k < |s| ==> s[k] == ByteAt(im, i, k)
  {
    seq(im.core[i].size, k requires 0 <= k < im.core[i].size => ByteAt(im, i, k))
  }

  /** Overwrite s from off with src, extending it if src reaches past the end. */
  function Splice(s: seq<Byte>, off: nat, src: seq<Byte>): (r: seq<Byte>)
    requires off <= |s|
    ensures |r| == if off + |src| < |s| then |s| else off + |src|
    ensures forall k :: 0 <= k < |r| ==> r[k] == if off <= k < off + |src| then src[k - off] else s[k]
  {
    s[..off] + src + if off + |src| < |s| then s[off + |src|..] else []
  }

  // ----- Changing one block -----

  function SetBlock(im: Img, x: nat, data: Block): Img
    requires x < |im.blocks|
  {
    im.(blocks := im.blocks[x := data])
  }

  ghost predicate SameAddrs(sb: Super, im: Img, im': Img)
    requires Shape(sb, im) && Shape(sb, im')
  {
    forall i, k :: 0 <= i < sb.ninodes && 0 <= k < NSLOT ==> Addr(im', i, k) == Addr(im, i, k)
  }

  ghost predicate SameUsed(sb: Super, im: Img, im': Img)
    requires Shape(sb, im) && Shape(sb, im')
  {
    forall b :: 0 <= b < sb.size ==> Used(sb, im', b) == Used(sb, im, b)
  }

  /** No inode has x as its indirect block. */
  ghost predicate NoIndirect(sb: Super, im: Img, x: nat)
    requires Shape(sb, im)
  {
    forall i :: 0 <= i < sb.ninodes ==> im.core[i].addrs[INDIRECT] != x || x == 0
  }

  lemma BlockAddrs(sb: Super, im: Img, x: nat, data: Block)
    requires Shape(sb, im) && x < sb.size && NoIndirect(sb, im, x)
    ensures Shape(sb, SetBlock(im, x, data)) && SameAddrs(sb, im, SetBlock(im, x, data))
  {
    hide GetWord;
    forall i, k | 0 <= i < sb.ninodes && 0 <= k < NSLOT
      ensures Addr(SetBlock(im, x, data), i, k) == Addr(im, i, k)
    {
      assert Addr(im, i, INDIRECT) == im.core[i].addrs[INDIRECT];
    }
  }

  lemma BlockUsed(sb: Super, im: Img, x: nat, data: Block)
    requires Shape(sb, im) && x < sb.size && (x < sb.bmapstart || sb.datastart <= x)
    ensures Shape(sb, SetBlock(im, x, data)) && SameUsed(sb, im, SetBlock(im, x, data))
  {
    hide GetBit;
  }

  lemma OwnedArea(sb: Super, im: Img, owner: map<nat, Slot>, ix: nat, done: nat, spare: nat, x: nat)
    requires Shape(sb, im) && Own(sb, im, owner, ix, done, spare)
    requires x !in owner || (x in owner && owner[x].k != INDIRECT)
    ensures NoIndirect(sb, im, x)
  {
    hide Used, GetWord;
    forall i | 0 <= i < sb.ninodes
      ensures im.core[i].addrs[INDIRECT] != x || x == 0
    {
      assert !Gone(ix, done, i, INDIRECT);
      assert Addr(im, i, INDIRECT) == im.core[i].addrs[INDIRECT];
    }
  }

  lemma OwnTransfer(sb: Super, im: Img, im': Img, owner: map<nat, Slot>, ix: nat, done: nat, spare: nat)
    requires Shape(sb, im) && Shape(sb, im') && Own(sb, im, owner, ix, done, spare)
    requires SameAddrs(sb, im, im') && SameUsed(sb, im, im')
    ensures Own(sb, im', owner, ix, done, spare)
  {
    hide Addr, Used;
  }

  /** Writing a data block or an inode block leaves ownership alone. */
  lemma OwnAfterBlock(sb: Super, im: Img, owner: map<nat, Slot>, x: nat, data: Block)
    requires Exact(sb, im, owner) && x < sb.size
    requires x < sb.bmapstart || (x in owner && owner[x].k != INDIRECT)
    ensures Exact(sb, SetBlock(im, x, data), owner) && SameAddrs(sb, im, SetBlock(im, x, data))
  {
    OwnedArea(sb, im, owner, 0, 0, 0, x);
    BlockAddrs(sb, im, x, data);
    BlockUsed(sb, im, x, data);
    OwnTransfer(sb, im, SetBlock(im, x, data), owner, 0, 0, 0);
  }

  // ----- The free map -----

  function MarkImg(sb: Super, im: Img, b: nat): Img
    requires Layout(sb) && |im.blocks| == sb.size && b < sb.size
  {
    SetBlock(im, BBlock(sb, b), SetBit(im.blocks[BBlock(sb, b)], b % BPB))
  }

  function FreeImg(sb: Super, im: Img, b: nat): Img
    requires Layout(sb) && |im.blocks| == sb.size && b < sb.size
  {
    SetBlock(im, BBlock(sb, b), ClearBit(im.blocks[BBlock(sb, b)], b % BPB))
  }

  /** balloc: the bit is set and the block is zeroed. */
  function AllocImg(sb: Super, im: Img, b: nat): Img
    requires Layout(sb) && |im.blocks| == sb.size && b < sb.size
  {
    SetBlock(MarkImg(sb, im, b), b, Zeroes())
  }

  lemma MapBits(sb: Super, im: Img, b: nat, c: nat)
    requires Shape(sb, im) && b < sb.size && c < sb.size
    ensures Used(sb, MarkImg(sb, im, b), c) <==> b == c || Used(sb, im, c)
    ensures Used(sb, FreeImg(sb, im, b), c) <==> b != c && Used(sb, im, c)
  {
    hide GetBit, SetBit, ClearBit;
    if b / BPB == c / BPB {
      BitAfter(im.blocks[BBlock(sb, b)], b % BPB, c % BPB);
    }
  }

  lemma AllocOwn(sb: Super, im: Img, owner: map<nat, Slot>, b: nat)
    requires Exact(sb, im, owner) && b < sb.size && !Used(sb, im, b)
    ensures sb.datastart <= b && b !in owner
    ensures Shape(sb, AllocImg(sb, im, b)) && Own(sb, AllocImg(sb, im, b), owner, 0, 0, b)
    ensures SameAddrs(sb, im, AllocImg(sb, im, b))
  {
    hide GetBit, SetBit, GetWord, Addr;
    var im1, im2 := MarkImg(sb, im, b), AllocImg(sb, im, b);
    OwnedArea(sb, im, owner, 0, 0, 0, BBlock(sb, b));
    BlockAddrs(sb, im, BBlock(sb, b), im1.blocks[BBlock(sb, b)]);
    OwnedArea(sb, im, owner, 0, 0, 0, b);
    assert NoIndirect(sb, im1, b);
    BlockAddrs(sb, im1, b, Zeroes());
    BlockUsed(sb, im1, b, Zeroes());
    forall c | 0 <= c < sb.size
      ensures Used(sb, im2, c) <==> b == c || Used(sb, im, c)
    {
      MapBits(sb, im, b, c);
    }
    hide Used;
  }

  // ----- Storing and dropping addresses -----

  function SetCore(im: Img, i: nat, ip: Inode): Img
    requires i < |im.core|
  {
    im.(core := im.core[i := ip])
  }

  /** Store block number b in slot k of inode i: in the inode itself or in its indirect block. */
  function Store(im: Img, i: nat, k: nat, b: nat): Img
    requires i < |im.core| && InodeOk(im.core[i]) && k < NSLOT && b < 0x1_0000_0000
    requires k > INDIRECT ==> im.core[i].addrs[INDIRECT] < |im.blocks|
  {
    if k <= INDIRECT then SetCore(im, i, im.core[i].(addrs := im.core[i].addrs[k := b]))
    else
      var ind := im.core[i].addrs[INDIRECT];
      SetBlock(im, ind, SetWord(im.blocks[ind], k - 13, b))
  }

  /** im' differs from im in one slot only. */
  ghost predicate OneSlot(sb: Super, im: Img, im': Img, i: nat, k: nat, b: nat)
    requires Shape(sb, im) && Shape(sb, im')
  {
    forall j, l :: 0 <= j < sb.ninodes && 0 <= l < NSLOT ==>
      Addr(im', j, l) == if j == i && l == k then b else Addr(im, j, l)
  }

  lemma StoreInCore(sb: Super, im: Img, i: nat, k: nat, b: nat)
    requires Shape(sb, im) && i < sb.ninodes && k <= INDIRECT && b < sb.size
    requires k == INDIRECT ==> im.core[i].addrs[INDIRECT] == 0 && im.blocks[b] == Zeroes()
    ensures Shape(sb, Store(im, i, k, b))
    ensures OneSlot(sb, im, Store(im, i, k, b), i, k, b) && SameUsed(sb, im, Store(im, i, k, b))
  {
    hide GetWord, GetBit;
    forall j, l | 0 <= j < sb.ninodes && 0 <= l < NSLOT
      ensures Addr(Store(im, i, k, b), j, l) == if j == i && l == k then b else Addr(im, j, l)
    {
      if k == INDIRECT && j == i && l > 12 { ZeroWords(l - 13); }
    }
  }

  lemma OnlyIndirect(sb: Super, im: Img, owner: map<nat, Slot>, i: nat, spare: nat)
    requires Shape(sb, im) && Own(sb, im, owner, 0, 0, spare) && i < sb.ninodes
    requires im.core[i].addrs[INDIRECT] != 0
    ensures sb.datastart <= im.core[i].addrs[INDIRECT] < sb.size
    ensures forall j :: 0 <= j < sb.ninodes && j != i ==>
              im.core[j].addrs[INDIRECT] != im.core[i].addrs[INDIRECT]
  {
    hide Used, GetWord;
    assert forall j :: 0 <= j < sb.ninodes ==> Addr(im, j, INDIRECT) == im.core[j].addrs[INDIRECT];
  }

  lemma StoreInBlock(sb: Super, im: Img, i: nat, k: nat, b: nat)
    requires Shape(sb, im) && i < sb.ninodes && INDIRECT < k < NSLOT && b < sb.size
    requires sb.datastart <= im.core[i].addrs[INDIRECT] < sb.size
    requires forall j :: 0 <= j < sb.ninodes && j != i ==>
               im.core[j].addrs[INDIRECT] != im.core[i].addrs[INDIRECT]
    ensures Shape(sb, Store(im, i, k, b))
    ensures OneSlot(sb, im, Store(im, i, k, b), i, k, b) && SameUsed(sb, im, Store(im, i, k, b))
  {
    hide GetWord, GetBit, SetWord, Used;
    var ind := im.core[i].addrs[INDIRECT];
    var im' := Store(im, i, k, b);
    BlockUsed(sb, im, ind, im'.blocks[ind]);
    forall j, l | 0 <= j < sb.ninodes && 0 <= l < NSLOT
      ensures Addr(im', j, l) == if j == i && l == k then b else Addr(im, j, l)
    {
      if l > INDIRECT { WordAfter(im.blocks[ind], k - 13, b, l - 13); }
    }
  }

  lemma StoreOwn(sb: Super, im: Img, im': Img, owner: map<nat, Slot>, i: nat, k: nat, b: nat)
    requires Shape(sb, im) && Shape(sb, im') && Own(sb, im, owner, 0, 0, b)
    requires i < sb.ninodes && k < NSLOT && sb.datastart <= b < sb.size && Addr(im, i, k) == 0
    requires OneSlot(sb, im, im', i, k, b) && SameUsed(sb, im, im')
    ensures Own(sb, im', owner[b := Slot(i, k)], 0, 0, 0)
  {
    hide Addr, Used;
  }

  /** bfree of the block in slot (i, k), which then counts as gone. */
  lemma FreeFacts(sb: Super, im: Img, owner: map<nat, Slot>, ix: nat, done: nat, i: nat, k: nat)
    requires Shape(sb, im) && Own(sb, im, owner, ix, done, 0)
    requires i < sb.ninodes && k < NSLOT && !Gone(ix, done, i, k) && Addr(im, i, k) != 0
    ensures var a := Addr(im, i, k);
            && sb.datastart <= a < sb.size && Used(sb, im, a) && owner.Keys >= {a} && owner[a] == Slot(i, k)
            && Shape(sb, FreeImg(sb, im, a)) && SameAddrs(sb, im, FreeImg(sb, im, a))
            && (forall c :: 0 <= c < sb.size ==> (Used(sb, FreeImg(sb, im, a), c) <==> c != a && Used(sb, im, c)))
  {
    hide GetBit, ClearBit, GetWord, Addr;
    var a := Addr(im, i, k);
    OwnedArea(sb, im, owner, ix, done, 0, BBlock(sb, a));
    BlockAddrs(sb, im, BBlock(sb, a), FreeImg(sb, im, a).blocks[BBlock(sb, a)]);
    forall c | 0 <= c < sb.size
      ensures Used(sb, FreeImg(sb, im, a), c) <==> c != a && Used(sb, im, c)
    {
      MapBits(sb, im, a, c);
    }
  }

  /** Ownership after a block was freed and its slot is either cleared or counted as gone. */
  lemma OwnDrop(sb: Super, im: Img, im': Img, owner: map<nat, Slot>, ix: nat, done: nat, a: nat, ix': nat, done': nat)
    requires Shape(sb, im) && Shape(sb, im') && Own(sb, im, owner, ix, done, 0) && a in owner
    requires forall c :: 0 <= c < sb.size ==> (Used(sb, im', c) <==> c != a && Used(sb, im, c))
    requires forall j, l :: 0 <= j < sb.ninodes && 0 <= l < NSLOT && !Gone(ix', done', j, l) ==>
               || Addr(im', j, l) == 0
               || (Addr(im', j, l) == Addr(im, j, l) != a && !Gone(ix, done, j, l))
    requires forall b :: b in owner && b != a ==>
               !Gone(ix', done', owner[b].i, owner[b].k) && Addr(im', owner[b].i, owner[b].k) == b
    ensures Own(sb, im', owner - {a}, ix', done', 0)
  {
    hide Addr, Used;
  }

  lemma OwnerOf(sb: Super, im: Img, owner: map<nat, Slot>, ix: nat, done: nat, spare: nat, i: nat, k: nat)
    requires Shape(sb, im) && Own(sb, im, owner, ix, done, spare)
    requires i < sb.ninodes && k < NSLOT && !Gone(ix, done, i, k) && Addr(im, i, k) != 0
    ensures Addr(im, i, k) in owner && owner[Addr(im, i, k)] == Slot(i, k)
  {
  }

  lemma OwnedSlot(sb: Super, im: Img, owner: map<nat, Slot>, ix: nat, done: nat, spare: nat, b: nat)
    requires Shape(sb, im) && Own(sb, im, owner, ix, done, spare) && b in owner
    ensures owner[b].i < sb.ninodes && owner[b].k < NSLOT && !Gone(ix, done, owner[b].i, owner[b].k)
    ensures Addr(im, owner[b].i, owner[b].k) == b
  {
  }

  /** itrunc, entry `done` of the indirect block: free it if there is one. */
  lemma DropEntry(sb: Super, im: Img, owner: map<nat, Slot>, i: nat, done: nat)
    requires Shape(sb, im) && Own(sb, im, owner, i, done, 0) && i < sb.ninodes && done < NINDIRECT
    requires Addr(im, i, 13 + done) != 0
    ensures var a := Addr(im, i, 13 + done);
            && sb.datastart <= a < sb.size && Used(sb, im, a)
            && Shape(sb, FreeImg(sb, im, a)) && SameAddrs(sb, im, FreeImg(sb, im, a))
            && Own(sb, FreeImg(sb, im, a), owner - {a}, i, done + 1, 0)
  {
    hide Own, Addr, Used, FreeImg;
    var a := Addr(im, i, 13 + done);
    FreeFacts(sb, im, owner, i, done, i, 13 + done);
    var im' := FreeImg(sb, im, a);
    forall j, l | 0 <= j < sb.ninodes && 0 <= l < NSLOT && !Gone(i, done + 1, j, l)
      ensures Addr(im', j, l) == Addr(im, j, l) && !Gone(i, done, j, l)
      ensures Addr(im, j, l) == 0 || Addr(im, j, l) != a
    {
      if Addr(im, j, l) != 0 { OwnerOf(sb, im, owner, i, done, 0, j, l); }
    }
    forall b | b in owner
      ensures owner[b].i < sb.ninodes && owner[b].k < NSLOT
    {
      OwnedSlot(sb, im, owner, i, done, 0, b);
    }
    forall b | b in owner && b != a
      ensures !Gone(i, done + 1, owner[b].i, owner[b].k) && Addr(im', owner[b].i, owner[b].k) == b
    {
      OwnedSlot(sb, im, owner, i, done, 0, b);
    }
    OwnDrop(sb, im, im', owner, i, done, a, i, done + 1);
  }

  lemma SkipEntry(sb: Super, im: Img, owner: map<nat, Slot>, i: nat, done: nat)
    requires Shape(sb, im) && Own(sb, im, owner, i, done, 0) && i < sb.ninodes && done < NINDIRECT
    requires Addr(im, i, 13 + done) == 0
    ensures Own(sb, im, owner, i, done + 1, 0)
  {
    hide Addr, Used;
  }

  /** itrunc, a direct block. */
  lemma DropDirect(sb: Super, im: Img, owner: map<nat, Slot>, i: nat, k: nat)
    requires Exact(sb, im, owner) && i < sb.ninodes && k < NDIRECT && im.core[i].addrs[k] != 0
    ensures var a := im.core[i].addrs[k];
            && sb.datastart <= a < sb.size && Used(sb, im, a)
            && Exact(sb, Store(FreeImg(sb, im, a), i, k, 0), owner - {a})
            && OneSlot(sb, im, Store(FreeImg(sb, im, a), i, k, 0), i, k, 0)
  {
    var a := im.core[i].addrs[k];
    assert Addr(im, i, k) == a;
    hide GetWord, GetBit;
    FreeFacts(sb, im, owner, 0, 0, i, k);
    hide Addr, Used, FreeImg, Store;
    var im1 := FreeImg(sb, im, a);
    StoreInCore(sb, im1, i, k, 0);
    OwnDrop(sb, im, Store(im1, i, k, 0), owner, 0, 0, a, 0, 0);
  }

  /** Clearing the indirect address of i empties all slots behind it. */
  lemma ClearIndirect(sb: Super, im: Img, i: nat)
    requires Shape(sb, im) && i < sb.ninodes
    ensures var im' := Store(im, i, INDIRECT, 0);
            && Shape(sb, im') && SameUsed(sb, im, im')
            && (forall j, l :: 0 <= j < sb.ninodes && 0 <= l < NSLOT ==>
                  Addr(im', j, l) == if j == i && l >= INDIRECT then 0 else Addr(im, j, l))
  {
    hide GetWord, GetBit;
  }

  /** itrunc, the indirect block itself, when all its entries are gone. */
  lemma DropIndirect(sb: Super, im: Img, owner: map<nat, Slot>, i: nat)
    requires Shape(sb, im) && i < sb.ninodes && Own(sb, im, owner, i, NINDIRECT, 0)
    requires im.core[i].addrs[INDIRECT] != 0
    ensures var a := im.core[i].addrs[INDIRECT];
            && sb.datastart <= a < sb.size && Used(sb, im, a)
            && Exact(sb, Store(FreeImg(sb, im, a), i, INDIRECT, 0), owner - {a})
            && (forall j, l :: 0 <= j < sb.ninodes && 0 <= l < NSLOT ==>
                  Addr(Store(FreeImg(sb, im, a), i, INDIRECT, 0), j, l) ==
                    if j == i && l >= INDIRECT then 0 else Addr(im, j, l))
  {
    var a := im.core[i].addrs[INDIRECT];
    assert Addr(im, i, INDIRECT) == a;
    hide GetWord, GetBit;
    FreeFacts(sb, im, owner, i, NINDIRECT, i, INDIRECT);
    hide Addr, Used, FreeImg, Store;
    var im1 := FreeImg(sb, im, a);
    ClearIndirect(sb, im1, i);
    OwnDrop(sb, im, Store(im1, i, INDIRECT, 0), owner, i, NINDIRECT, a, 0, 0);
  }
}
