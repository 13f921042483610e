/**
 The block and inode routines of fs.c: balloc, bfree, iupdate, bmap, itrunc, readi and writei.
 They run on the block array that the log and the buffer cache present, and are proved to give
 every file the behaviour of a flat byte sequence while block ownership stays exact.
 */
module FileSys {
  import opened Common
  import opened DiskFormat
  import opened FileImage

  /** What balloc returns: a block, 0 because the container is over its quota, or a panic. */
  datatype AllocResult = Got(b: nat) | OverQuota | OutOfBlocks

  /** Growing file i: addresses appear, none changes, and no data byte is touched. */
  ghost predicate Kept(sb: Super, im: Img, im': Img, i: nat)
    requires Shape(sb, im) && Shape(sb, im')
  {
    && (forall j, l :: 0 <= j < sb.ninodes && 0 <= l < NSLOT && (j != i || Addr(im, j, l) != 0) ==>
          Addr(im', j, l) == Addr(im, j, l))
    && (forall j, l :: 0 <= j < sb.ninodes && 0 <= l < NSLOT && l != INDIRECT && 0 < Addr(im, j, l) < sb.size ==>
          im'.blocks[Addr(im, j, l)] == im.blocks[Addr(im, j, l)])
    && SameInodes(sb, im, im', i)
  }

  /** Inodes agree, in core up to the addresses of i, and on the disk. */
  ghost predicate SameInodes(sb: Super, im: Img, im': Img, i: nat)
    requires Shape(sb, im) && Shape(sb, im')
  {
    && (forall j :: 0 <= j < sb.ninodes && j != i ==> im'.core[j] == im.core[j])
    && (i < sb.ninodes ==> im'.core[i] == im.core[i].(addrs := im'.core[i].addrs))
    && (forall j :: 0 <= j < sb.ninodes ==> OnDisk(sb, im', j) == OnDisk(sb, im, j))
  }

  lemma BlockOnDisk(sb: Super, im: Img, x: nat, data: Block, j: nat)
    requires Shape(sb, im) && x < sb.size && sb.bmapstart <= x && j < sb.ninodes
    ensures OnDisk(sb, SetBlock(im, x, data), j) == OnDisk(sb, im, j)
  {
    hide GetInode;
  }

  /** balloc a block and store its number in an empty slot. */
  lemma GrowSlot(sb: Super, im: Img, owner: map<nat, Slot>, i: nat, k: nat, b: nat)
    requires Exact(sb, im, owner) && b < sb.size && !Used(sb, im, b)
    requires i < sb.ninodes && k < NSLOT && Addr(im, i, k) == 0
    requires k > INDIRECT ==> im.core[i].addrs[INDIRECT] != 0
    ensures sb.datastart <= b && (k > INDIRECT ==> im.core[i].addrs[INDIRECT] < sb.size)
    ensures var im' := Store(AllocImg(sb, im, b), i, k, b);
            Exact(sb, im', owner[b := Slot(i, k)]) && OneSlot(sb, im, im', i, k, b)
  {
    AllocOwn(sb, im, owner, b);
    var im1 := AllocImg(sb, im, b);
    if k <= INDIRECT {
      assert im1.blocks[b] == Zeroes();
      assert im1.core == im.core;
      StoreInCore(sb, im1, i, k, b);
    } else {
      OnlyIndirect(sb, im1, owner, i, b);
      StoreInBlock(sb, im1, i, k, b);
    }
    hide Addr, Used, AllocImg, Store;
    StoreOwn(sb, im1, Store(im1, i, k, b), owner, i, k, b);
  }

  lemma GrowBlocks(sb: Super, im: Img, owner: map<nat, Slot>, i: nat, k: nat, b: nat)
    requires Exact(sb, im, owner) && b < sb.size && !Used(sb, im, b) && b !in owner && sb.datastart <= b
    requires i < sb.ninodes && k < NSLOT && (k > INDIRECT ==> sb.datastart <= im.core[i].addrs[INDIRECT] < sb.size)
    ensures var im' := Store(AllocImg(sb, im, b), i, k, b);
            && Shape(sb, im') && SameInodes(sb, im, im', i)
            && (forall x :: x in owner && (k <= INDIRECT || x != im.core[i].addrs[INDIRECT]) ==>
                  im'.blocks[x] == im.blocks[x])
  {
    hide Used, GetWord, SetWord, SetBit, GetInode, Addr;
    var im1 := MarkImg(sb, im, b);
    var im2 := AllocImg(sb, im, b);
    var im' := Store(im2, i, k, b);
    forall j | 0 <= j < sb.ninodes
      ensures OnDisk(sb, im', j) == OnDisk(sb, im, j)
    {
      BlockOnDisk(sb, im, BBlock(sb, b), im1.blocks[BBlock(sb, b)], j);
      BlockOnDisk(sb, im1, b, Zeroes(), j);
      if k > INDIRECT {
        BlockOnDisk(sb, im2, im.core[i].addrs[INDIRECT], im'.blocks[im.core[i].addrs[INDIRECT]], j);
      }
    }
  }

  lemma GrowKept(sb: Super, im: Img, owner: map<nat, Slot>, i: nat, k: nat, b: nat)
    requires Exact(sb, im, owner) && b < sb.size && !Used(sb, im, b)
    requires i < sb.ninodes && k < NSLOT && Addr(im, i, k) == 0
    requires k > INDIRECT ==> im.core[i].addrs[INDIRECT] != 0
    ensures sb.datastart <= b && (k > INDIRECT ==> im.core[i].addrs[INDIRECT] < sb.size)
    ensures var im' := Store(AllocImg(sb, im, b), i, k, b);
            && Exact(sb, im', owner[b := Slot(i, k)]) && OneSlot(sb, im, im', i, k, b)
            && Kept(sb, im, im', i)
  {
    hide Addr, Used, AllocImg, Store, SameInodes, Own;
    AllocOwn(sb, im, owner, b);
    GrowSlot(sb, im, owner, i, k, b);
    if k > INDIRECT { OnlyIndirect(sb, im, owner, i, 0); }
    GrowBlocks(sb, im, owner, i, k, b);
    AllocCore(sb, im, b);
    DataStays(sb, im, Store(AllocImg(sb, im, b), i, k, b), owner, i, k);
  }

  lemma AllocCore(sb: Super, im: Img, b: nat)
    requires Layout(sb) && |im.blocks| == sb.size && b < sb.size
    ensures AllocImg(sb, im, b).core == im.core && |AllocImg(sb, im, b).blocks| == sb.size
  {
    hide SetBit;
  }

  /** Blocks of data are not indirect blocks. */
  lemma DataStays(sb: Super, im: Img, im': Img, owner: map<nat, Slot>, i: nat, k: nat)
    requires Exact(sb, im, owner) && |im'.blocks| == sb.size && i < sb.ninodes
    requires forall x :: x in owner && (k <= INDIRECT || x != im.core[i].addrs[INDIRECT]) ==>
               im'.blocks[x] == im.blocks[x]
    ensures forall j, l :: 0 <= j < sb.ninodes && 0 <= l < NSLOT && l != INDIRECT && 0 < Addr(im, j, l) < sb.size ==>
              im'.blocks[Addr(im, j, l)] == im.blocks[Addr(im, j, l)]
  {
    assert Addr(im, i, INDIRECT) == im.core[i].addrs[INDIRECT];
    hide Addr, Used;
    forall j, l | 0 <= j < sb.ninodes && 0 <= l < NSLOT && l != INDIRECT && 0 < Addr(im, j, l) < sb.size
      ensures im'.blocks[Addr(im, j, l)] == im.blocks[Addr(im, j, l)]
    {
      assert owner[Addr(im, j, l)] == Slot(j, l);
    }
  }

  /** The map block and the bit of block b + bi, where b is the first of its map block. */
  lemma MapBlock(sb: Super, im: Img, b: nat, bi: nat)
    requires Shape(sb, im) && b % BPB == 0 && bi < BPB && b + bi < sb.size
    ensures BBlock(sb, b + bi) == BBlock(sb, b) < sb.size && (b + bi) % BPB == bi
    ensures Used(sb, im, b + bi) <==> GetBit(im.blocks[BBlock(sb, b)], bi)
  {
    hide GetBit;
    assert (b + bi) / BPB == b / BPB;
  }

  lemma KeptTransitive(sb: Super, a: Img, b: Img, c: Img, i: nat)
    requires Shape(sb, a) && Shape(sb, b) && Shape(sb, c) && i < sb.ninodes
    requires Kept(sb, a, b, i) && Kept(sb, b, c, i)
    ensures Kept(sb, a, c, i)
  {
    hide Addr, OnDisk;
  }

  /** The image after iupdate of inode i. */
  function UpdateImg(sb: Super, im: Img, i: nat): Img
    requires Layout(sb) && |im.blocks| == sb.size && i < sb.ninodes == |im.core| && InodeOk(im.core[i])
  {
    SetBlock(im, IBlock(sb, i), PutInode(im.blocks[IBlock(sb, i)], i % IPB, im.core[i]))
  }

  lemma UpdateOnDisk(sb: Super, im: Img, i: nat, j: nat)
    requires Shape(sb, im) && i < sb.ninodes && j < sb.ninodes
    ensures OnDisk(sb, UpdateImg(sb, im, i), j) == if j == i then im.core[i] else OnDisk(sb, im, j)
  {
    hide GetInode, PutInode;
    if IBlock(sb, i) == IBlock(sb, j) {
      InodeAfter(im.blocks[IBlock(sb, i)], i % IPB, im.core[i], j % IPB);
    }
  }

  // ----- Writing bytes -----

  /** Files other than i keep their blocks and the data in them. */
  ghost predicate OthersKept(sb: Super, im: Img, im': Img, i: nat)
    requires Shape(sb, im) && Shape(sb, im')
  {
    forall j, l :: 0 <= j < sb.ninodes && 0 <= l < NSLOT && j != i ==>
      && Addr(im', j, l) == Addr(im, j, l)
      && (l != INDIRECT && 0 < Addr(im, j, l) < sb.size ==> im'.blocks[Addr(im, j, l)] == im.blocks[Addr(im, j, l)])
  }

  /** Byte k of file i lies in an allocated block. */
  ghost predicate Present(sb: Super, im: Img, i: nat, k: nat)
    requires Shape(sb, im) && i < sb.ninodes && k < MAXFILE * BSIZE
  {
    0 < Addr(im, i, SlotOf(k / BSIZE)) < sb.size
  }

  function Expect(im: Img, i: nat, off: nat, src: seq<Byte>, tot: nat, k: nat): Byte
    requires i < |im.core| && InodeOk(im.core[i]) && k < MAXFILE * BSIZE && tot <= |src|
  {
    if off <= k < off + tot then src[k - off] else ByteAt(im, i, k)
  }

  /** After tot bytes of src went to offset off of file i: those bytes and the old ones are there. */
  ghost predicate Written(sb: Super, im: Img, im': Img, i: nat, off: nat, src: seq<Byte>, tot: nat)
    requires Shape(sb, im) && Shape(sb, im') && i < sb.ninodes && tot <= |src|
  {
    forall k {:trigger ByteAt(im', i, k)} ::
      0 <= k < MAXFILE * BSIZE && (k < im.core[i].size || off <= k < off + tot) ==>
      Present(sb, im', i, k) && ByteAt(im', i, k) == Expect(im, i, off, src, tot, k)
  }

  ghost predicate WriteInv(sb: Super, im: Img, im': Img, i: nat, off: nat, src: seq<Byte>, tot: nat)
    requires Shape(sb, im) && Shape(sb, im') && i < sb.ninodes && tot <= |src|
  {
    OthersKept(sb, im, im', i) && SameInodes(sb, im, im', i) && Written(sb, im, im', i, off, src, tot)
  }

  lemma KeptByte(sb: Super, im: Img, im': Img, i: nat, j: nat, k: nat)
    requires Shape(sb, im) && Shape(sb, im') && i < sb.ninodes && j < sb.ninodes && k < MAXFILE * BSIZE
    requires Kept(sb, im, im', i) && Present(sb, im, j, k)
    ensures Present(sb, im', j, k) && ByteAt(im', j, k) == ByteAt(im, j, k)
  {
    hide Addr, OnDisk;
    assert Addr(im', j, SlotOf(k / BSIZE)) == Addr(im, j, SlotOf(k / BSIZE));
  }

  lemma WriteGrow(sb: Super, im0: Img, im: Img, im': Img, i: nat, off: nat, src: seq<Byte>, tot: nat)
    requires Shape(sb, im0) && Shape(sb, im) && Shape(sb, im') && i < sb.ninodes && tot <= |src|
    requires WriteInv(sb, im0, im, i, off, src, tot) && Kept(sb, im, im', i)
    ensures WriteInv(sb, im0, im', i, off, src, tot)
  {
    hide Addr, OnDisk, Present, ByteAt;
    assert SameInodes(sb, im0, im', i);
    assert OthersKept(sb, im0, im', i);
    forall k | 0 <= k < MAXFILE * BSIZE && (k < im0.core[i].size || off <= k < off + tot)
      ensures Present(sb, im', i, k) && ByteAt(im', i, k) == Expect(im0, i, off, src, tot, k)
    {
      assert ByteAt(im, i, k) == Expect(im0, i, off, src, tot, k);
      KeptByte(sb, im, im', i, i, k);
    }
  }

  /** memmove of m bytes into a block at offset o. */
  function Patch(blk: Block, o: nat, bytes: seq<Byte>): (r: Block)
    requires o + |bytes| <= BSIZE
    ensures forall k :: 0 <= k < BSIZE ==> r[k] == if o <= k < o + |bytes| then bytes[k - o] else blk[k]
  {
    blk[..o] + bytes + blk[o + |bytes|..]
  }

  /** Writing the data block of one slot: no other slot's data changes. */
  lemma DataWrite(sb: Super, im: Img, owner: map<nat, Slot>, i: nat, k: nat, data: Block)
    requires Exact(sb, im, owner) && i < sb.ninodes && k < NSLOT && k != INDIRECT && Addr(im, i, k) != 0
    ensures var a := Addr(im, i, k);
            && a < sb.size && Exact(sb, SetBlock(im, a, data), owner) && SameAddrs(sb, im, SetBlock(im, a, data))
            && (forall j, l :: 0 <= j < sb.ninodes && 0 <= l < NSLOT && (j != i || l != k) && Addr(im, j, l) != 0 ==>
                  Addr(im, j, l) != a)
            && (forall j :: 0 <= j < sb.ninodes ==> OnDisk(sb, SetBlock(im, a, data), j) == OnDisk(sb, im, j))
  {
    hide Used, GetWord;
    var a := Addr(im, i, k);
    assert a in owner && owner[a] == Slot(i, k);
    OwnAfterBlock(sb, im, owner, a, data);
    forall j | 0 <= j < sb.ninodes
      ensures OnDisk(sb, SetBlock(im, a, data), j) == OnDisk(sb, im, j)
    {
      BlockOnDisk(sb, im, a, data, j);
    }
    hide Addr;
  }

  /** The bytes p .. p+m-1 of a file, when they do not cross a block boundary. */
  lemma OneBlock(p: nat, m: nat, k: nat)
    requires p % BSIZE + m <= BSIZE
    ensures p <= k < p + m <==> k / BSIZE == p / BSIZE && p % BSIZE <= k % BSIZE < p % BSIZE + m
    ensures p <= k < p + m ==> k - p == k % BSIZE - p % BSIZE
  {
  }

  /** The effect of one chunk on one byte of the file. */
  lemma ChunkByte(sb: Super, im: Img, owner: map<nat, Slot>, i: nat, p: nat, bytes: seq<Byte>, k: nat)
    requires Exact(sb, im, owner) && i < sb.ninodes && p < MAXFILE * BSIZE && k < MAXFILE * BSIZE
    requires p % BSIZE + |bytes| <= BSIZE && Present(sb, im, i, p)
    requires p <= k < p + |bytes| || Present(sb, im, i, k)
    ensures var a := Addr(im, i, SlotOf(p / BSIZE));
            var im' := SetBlock(im, a, Patch(im.blocks[a], p % BSIZE, bytes));
            && Exact(sb, im', owner) && Present(sb, im', i, k)
            && ByteAt(im', i, k) == if p <= k < p + |bytes| then bytes[k - p] else ByteAt(im, i, k)
  {
    hide Own, OnDisk, Used, Addr;
    var s, t := SlotOf(p / BSIZE), SlotOf(k / BSIZE);
    var a := Addr(im, i, s);
    var data := Patch(im.blocks[a], p % BSIZE, bytes);
    DataWrite(sb, im, owner, i, s, data);
    OneBlock(p, |bytes|, k);
    var im' := SetBlock(im, a, data);
    assert Addr(im', i, t) == Addr(im, i, t);
    assert s == t <==> p / BSIZE == k / BSIZE;
  }

  lemma ChunkOthers(sb: Super, im0: Img, im: Img, owner: map<nat, Slot>, i: nat, k: nat, data: Block)
    requires Shape(sb, im0) && Exact(sb, im, owner) && i < sb.ninodes && k < NSLOT && k != INDIRECT
    requires 0 < Addr(im, i, k) < sb.size && OthersKept(sb, im0, im, i) && SameInodes(sb, im0, im, i)
    ensures var im' := SetBlock(im, Addr(im, i, k), data);
            Shape(sb, im') && OthersKept(sb, im0, im', i) && SameInodes(sb, im0, im', i)
  {
    DataWrite(sb, im, owner, i, k, data);
    hide Addr, OnDisk, Own;
  }

  lemma ChunkWritten(sb: Super, im0: Img, im: Img, owner: map<nat, Slot>, i: nat, off: nat, src: seq<Byte>,
                     tot: nat, m: nat, im': Img)
    requires Shape(sb, im0) && Exact(sb, im, owner) && Shape(sb, im') && i < sb.ninodes &&
             off + |src| <= MAXFILE * BSIZE
    requires 0 < m && tot + m <= |src| && (off + tot) % BSIZE + m <= BSIZE
    requires Written(sb, im0, im, i, off, src, tot) && Present(sb, im, i, off + tot)
    requires var a := Addr(im, i, SlotOf((off + tot) / BSIZE));
             im' == SetBlock(im, a, Patch(im.blocks[a], (off + tot) % BSIZE, src[tot..tot + m]))
    ensures Written(sb, im0, im', i, off, src, tot + m)
  {
    hide Addr, Own, ByteAt, Patch, Present, SetBlock;
    forall k | 0 <= k < MAXFILE * BSIZE && (k < im0.core[i].size || off <= k < off + (tot + m))
      ensures Present(sb, im', i, k) && ByteAt(im', i, k) == Expect(im0, i, off, src, tot + m, k)
    {
      if k < off + tot || off + tot + m <= k {
        assert ByteAt(im, i, k) == Expect(im0, i, off, src, tot, k);
      }
      ChunkByte(sb, im, owner, i, off + tot, src[tot..tot + m], k);
    }
  }

  /** One round of writei's loop. */
  lemma WriteChunk(sb: Super, im0: Img, im: Img, owner: map<nat, Slot>, i: nat, off: nat, src: seq<Byte>,
                   tot: nat, m: nat, im': Img)
    requires Shape(sb, im0) && Exact(sb, im, owner) && i < sb.ninodes && off + |src| <= MAXFILE * BSIZE
    requires 0 < m && tot + m <= |src| && (off + tot) % BSIZE + m <= BSIZE
    requires WriteInv(sb, im0, im, i, off, src, tot) && Present(sb, im, i, off + tot)
    requires var a := Addr(im, i, SlotOf((off + tot) / BSIZE));
             im' == SetBlock(im, a, Patch(im.blocks[a], (off + tot) % BSIZE, src[tot..tot + m]))
    ensures Exact(sb, im', owner) && WriteInv(sb, im0, im', i, off, src, tot + m)
  {
    var k := SlotOf((off + tot) / BSIZE);
    var data := im'.blocks[Addr(im, i, k)];
    DataWrite(sb, im, owner, i, k, data);
    ChunkOthers(sb, im0, im, owner, i, k, data);
    hide Own, Written, Patch, OthersKept, SameInodes;
    ChunkWritten(sb, im0, im, owner, i, off, src, tot, m, im');
  }

  // ----- Quota -----

  /** Blocks b0 .. b1-1 of file i that have no disk block yet. */
  ghost function Missing(im: Img, i: nat, b0: nat, b1: nat): nat
    requires i < |im.core| && InodeOk(im.core[i]) && b1 <= MAXFILE
    decreases b1 - b0
  {
    if b0 >= b1 then 0
    else (if Addr(im, i, SlotOf(b0)) == 0 then 1 else 0) + Missing(im, i, b0 + 1, b1)
  }

  /** Bytes of quota that writing blocks b0 .. b1-1 of file i takes, the indirect block included. */
  ghost function Demand(im: Img, i: nat, b0: nat, b1: nat): nat
    requires i < |im.core| && InodeOk(im.core[i]) && b1 <= MAXFILE
  {
    BSIZE * Missing(im, i, b0, b1)
    + if b0 < b1 && b1 > NDIRECT && im.core[i].addrs[INDIRECT] == 0 then BSIZE else 0
  }

  lemma DemandFirst(sb: Super, im: Img, i: nat, b0: nat, b1: nat)
    requires Shape(sb, im) && i < sb.ninodes && b0 < b1 <= MAXFILE
    ensures Demand(im, i, b0, b0 + 1) <= Demand(im, i, b0, b1)
  {
    assert Missing(im, i, b0 + 1, b0 + 1) == 0;
  }

  lemma AddrInRange(sb: Super, im: Img, owner: map<nat, Slot>, i: nat, k: nat)
    requires Exact(sb, im, owner) && i < sb.ninodes && k < NSLOT && Addr(im, i, k) != 0
    ensures sb.datastart <= Addr(im, i, k) < sb.size
  {
    hide Addr, Used;
  }

  /** Slots of i other than that of block bn and the indirect block are as before. */
  ghost predicate OnlyBlock(sb: Super, im: Img, im': Img, i: nat, bn: nat)
    requires Shape(sb, im) && Shape(sb, im') && i < sb.ninodes
  {
    forall l :: 0 <= l < NSLOT && l != INDIRECT && l != SlotOf(bn) ==> Addr(im', i, l) == Addr(im, i, l)
  }

  lemma {:induction false} MissingSame(sb: Super, im: Img, im': Img, i: nat, bn: nat, b0: nat, b1: nat)
    requires Shape(sb, im) && Shape(sb, im') && i < sb.ninodes && bn < b0 && b1 <= MAXFILE
    requires OnlyBlock(sb, im, im', i, bn)
    ensures Missing(im', i, b0, b1) == Missing(im, i, b0, b1)
    decreases b1 - b0
  {
    hide Addr;
    if b0 < b1 { MissingSame(sb, im, im', i, bn, b0 + 1, b1); }
  }

  /** What remains to be paid after block b0 is in place, exactly. */
  lemma DemandExact(sb: Super, im: Img, im': Img, i: nat, b0: nat, b1: nat)
    requires Shape(sb, im) && Shape(sb, im') && i < sb.ninodes && b0 < b1 <= MAXFILE && OnlyBlock(sb, im, im', i, b0)
    requires if b0 >= NDIRECT then im'.core[i].addrs[INDIRECT] != 0
             else im'.core[i].addrs[INDIRECT] == im.core[i].addrs[INDIRECT]
    ensures Demand(im', i, b0 + 1, b1) + Demand(im, i, b0, b0 + 1) <= Demand(im, i, b0, b1)
    ensures b0 + 1 < b1 || Demand(im, i, b0, b1) == Demand(im, i, b0, b0 + 1)
    ensures b0 + 1 < b1 ==> Demand(im', i, b0 + 1, b1) + Demand(im, i, b0, b0 + 1) == Demand(im, i, b0, b1)
  {
    MissingSame(sb, im, im', i, b0, b0 + 1, b1);
    assert Missing(im, i, b0 + 1, b0 + 1) == 0;
    hide Addr;
  }

  lemma RoundGiven(sb: Super, im0: Img, im: Img, im1: Img, owner: map<nat, Slot>, i: nat, off: nat, src: seq<Byte>,
                   tot: nat, m: nat)
    requires Shape(sb, im0) && Shape(sb, im) && Exact(sb, im1, owner) && i < sb.ninodes
    requires off + |src| <= MAXFILE * BSIZE && 0 < m && tot + m <= |src| && (off + tot) % BSIZE + m <= BSIZE
    requires WriteInv(sb, im0, im1, i, off, src, tot) && OnlyBlock(sb, im, im1, i, (off + tot) / BSIZE)
    requires Present(sb, im1, i, off + tot)
    requires if (off + tot) / BSIZE >= NDIRECT then im1.core[i].addrs[INDIRECT] != 0
             else im1.core[i].addrs[INDIRECT] == im.core[i].addrs[INDIRECT]
    ensures var bn, b1 := (off + tot) / BSIZE, EndBlock(off, |src|);
            var a := Addr(im1, i, SlotOf(bn));
            var im2 := SetBlock(im1, a, Patch(im1.blocks[a], (off + tot) % BSIZE, src[tot..tot + m]));
            && Exact(sb, im2, owner) && WriteInv(sb, im0, im2, i, off, src, tot + m) && b1 <= MAXFILE
            && (bn + 1 < b1 ==>
                  Demand(im2, i, bn + 1, b1) + Demand(im, i, bn, bn + 1) == Demand(im, i, bn, b1))
            && (bn + 1 >= b1 ==> Demand(im2, i, bn + 1, b1) == 0 && Demand(im, i, bn, bn + 1) == Demand(im, i, bn, b1))
  {
    hide Own, Used, WriteInv, Demand, GetWord;
    var bn, b1 := (off + tot) / BSIZE, EndBlock(off, |src|);
    var a := Addr(im1, i, SlotOf(bn));
    var data := Patch(im1.blocks[a], (off + tot) % BSIZE, src[tot..tot + m]);
    var im2 := SetBlock(im1, a, data);
    DataWrite(sb, im1, owner, i, SlotOf(bn), data);
    WriteChunk(sb, im0, im1, owner, i, off, src, tot, m, im2);
    hide Addr, Patch;
    DemandExact(sb, im, im2, i, bn, b1);
    NoDemand(sb, im2, i, bn + 1, b1);
  }

  lemma NoDemand(sb: Super, im: Img, i: nat, b0: nat, b1: nat)
    requires Shape(sb, im) && i < sb.ninodes && b1 <= MAXFILE
    ensures b0 >= b1 ==> Demand(im, i, b0, b1) == 0
  {
  }

  // ----- Past the quota -----

  /** What bmap returns when it cannot allocate.  Without an indirect block it takes the entry from
      block 0. */
  function Found(im: Img, i: nat, bn: nat): nat
    requires i < |im.core| && InodeOk(im.core[i]) && bn < MAXFILE
  {
    if bn < NDIRECT then im.core[i].addrs[bn]
    else
      var ind := im.core[i].addrs[INDIRECT];
      if ind < |im.blocks| then GetWord(im.blocks[ind], bn - NDIRECT) else 0
  }

  /** The smallest case: past the quota the first byte of an empty file goes to block 0. */
  lemma FirstByteLost(sb: Super, im: Img, i: nat, udsk: nat, mdsk: nat)
    requires Shape(sb, im) && i < sb.ninodes && im.core[i].addrs[0] == 0 && udsk + BSIZE > mdsk
    ensures EndBlock(0, 1) == 1 && udsk + Demand(im, i, 0, 1) > mdsk && Found(im, i, 0) == 0
  {
    OneDemand(sb, im, i, 0);
  }

  /** Block bad of file i has no disk block; ownership is exact, or bad lies behind a missing indirect
      block. */
  ghost predicate Holed(sb: Super, im: Img, owner: map<nat, Slot>, i: nat, bad: nat) {
    && Shape(sb, im) && i < sb.ninodes && bad < MAXFILE && Addr(im, i, SlotOf(bad)) == 0
    && (Exact(sb, im, owner) || (bad >= NDIRECT && im.core[i].addrs[INDIRECT] == 0))
  }

  /** Wherever the data of block bn goes, the hole stays. */
  lemma HoledWrite(sb: Super, im: Img, owner: map<nat, Slot>, i: nat, bad: nat, bn: nat, data: Block)
    requires Holed(sb, im, owner, i, bad) && bn < MAXFILE && Found(im, i, bn) < sb.size
    ensures Holed(sb, SetBlock(im, Found(im, i, bn), data), owner, i,
                  if bn >= NDIRECT && im.core[i].addrs[INDIRECT] == 0 then bn else bad)
  {
    hide GetWord, Own, Used;
    var x := Found(im, i, bn);
    if im.core[i].addrs[INDIRECT] == 0 && (bn >= NDIRECT || !Exact(sb, im, owner)) {
    } else if x == 0 {
      OwnAfterBlock(sb, im, owner, 0, data);
    } else {
      assert Addr(im, i, SlotOf(bn)) == x by { IndirectThere(sb, im, owner, i); }
      DataWrite(sb, im, owner, i, SlotOf(bn), data);
    }
  }

  lemma IndirectThere(sb: Super, im: Img, owner: map<nat, Slot>, i: nat)
    requires Exact(sb, im, owner) && i < sb.ninodes
    ensures im.core[i].addrs[INDIRECT] < sb.size
  {
    hide Used;
    assert Addr(im, i, INDIRECT) == im.core[i].addrs[INDIRECT];
    if Addr(im, i, INDIRECT) != 0 { AddrInRange(sb, im, owner, i, INDIRECT); }
  }

  /** Setting the size and iupdate leave the hole as well. */
  lemma HoledUpdate(sb: Super, im: Img, owner: map<nat, Slot>, i: nat, bad: nat, size: nat)
    requires Holed(sb, im, owner, i, bad) && size < 0x1_0000_0000
    ensures Shape(sb, Resize(im, i, size)) && Holed(sb, UpdateImg(sb, Resize(im, i, size), i), owner, i, bad)
  {
    hide GetWord, Own, Used, PutInode;
    var im1 := Resize(im, i, size);
    var data := PutInode(im1.blocks[IBlock(sb, i)], i % IPB, im1.core[i]);
    if Exact(sb, im, owner) {
      ResizeFacts(sb, im, owner, i, size);
      OwnAfterBlock(sb, im1, owner, IBlock(sb, i), data);
    }
  }

  lemma HoledFile(sb: Super, im: Img, owner: map<nat, Slot>, i: nat, bad: nat)
    requires Holed(sb, im, owner, i, bad) && bad * BSIZE < im.core[i].size
    ensures !FileOk(sb, im, i)
  {
  }

  /** While a file is written to, it keeps its blocks. */
  lemma BlocksThere(sb: Super, im0: Img, im: Img, i: nat, off: nat, src: seq<Byte>, tot: nat, bn: nat)
    requires Shape(sb, im0) && Shape(sb, im) && i < sb.ninodes && tot <= |src| && bn < MAXFILE
    requires WriteInv(sb, im0, im, i, off, src, tot) && bn * BSIZE < im0.core[i].size
    ensures Addr(im, i, SlotOf(bn)) != 0
  {
    assert ByteAt(im, i, bn * BSIZE) == Expect(im0, i, off, src, tot, bn * BSIZE);
  }

  lemma HoledCases(sb: Super, im: Img, owner: map<nat, Slot>, i: nat, bad: nat)
    requires Holed(sb, im, owner, i, bad)
    ensures Shape(sb, im) && i < sb.ninodes && (Exact(sb, im, owner) || im.core[i].addrs[INDIRECT] == 0)
  {
  }

  lemma RoundLost(sb: Super, im: Img, owner: map<nat, Slot>, i: nat, bad: nat, off: nat, src: seq<Byte>, tot: nat,
                  m: nat)
    requires Holed(sb, im, owner, i, bad)
    requires off + |src| <= MAXFILE * BSIZE && 0 < m && tot + m <= |src| && (off + tot) % BSIZE + m <= BSIZE
    ensures var bn := (off + tot) / BSIZE;
            Found(im, i, bn) < sb.size ==>
              var x := Found(im, i, bn);
              Holed(sb, SetBlock(im, x, Patch(im.blocks[x], (off + tot) % BSIZE, src[tot..tot + m])), owner, i,
                    if bn >= NDIRECT && im.core[i].addrs[INDIRECT] == 0 then bn else bad)
  {
    hide Own, Used, Addr, Found, GetWord;
    var x := Found(im, i, (off + tot) / BSIZE);
    if x < sb.size {
      var data := Patch(im.blocks[x], (off + tot) % BSIZE, src[tot..tot + m]);
      HoledWrite(sb, im, owner, i, bad, (off + tot) / BSIZE, data);
    }
  }

  lemma RoundDenied(sb: Super, im0: Img, im: Img, owner: map<nat, Slot>, i: nat, off: nat, src: seq<Byte>,
                    tot: nat, m: nat)
    requires Shape(sb, im0) && Exact(sb, im, owner) && i < sb.ninodes
    requires off + |src| <= MAXFILE * BSIZE && 0 < m && tot + m <= |src| && (off + tot) % BSIZE + m <= BSIZE
    requires WriteInv(sb, im0, im, i, off, src, tot) && Addr(im, i, SlotOf((off + tot) / BSIZE)) == 0
    ensures var bn := (off + tot) / BSIZE;
            && im0.core[i].size <= bn * BSIZE <= off + tot && im.core[i].size == im0.core[i].size
            && (Found(im, i, bn) < sb.size ==>
                  var x := Found(im, i, bn);
                  Holed(sb, SetBlock(im, x, Patch(im.blocks[x], (off + tot) % BSIZE, src[tot..tot + m])), owner, i, bn))
  {
    hide Own, Used, Addr, Found, GetWord;
    var bn := (off + tot) / BSIZE;
    if bn * BSIZE < im0.core[i].size { BlocksThere(sb, im0, im, i, off, src, tot, bn); }
    var x := Found(im, i, bn);
    if x < sb.size {
      var data := Patch(im.blocks[x], (off + tot) % BSIZE, src[tot..tot + m]);
      HoledWrite(sb, im, owner, i, bn, bn, data);
    }
  }

  lemma SlotGiven(sb: Super, im: Img, im': Img, i: nat, bn: nat, addr: nat)
    requires Shape(sb, im) && Shape(sb, im') && i < sb.ninodes && bn < MAXFILE && addr != 0
    requires Addr(im, i, SlotOf(bn)) == 0 && (bn >= NDIRECT ==> im.core[i].addrs[INDIRECT] != 0)
    requires OneSlot(sb, im, im', i, SlotOf(bn), addr)
    ensures OnlyBlock(sb, im, im', i, bn) && Addr(im', i, SlotOf(bn)) == addr && Demand(im, i, bn, bn + 1) == BSIZE
    ensures im'.core[i].addrs[INDIRECT] == im.core[i].addrs[INDIRECT]
  {
    OneDemand(sb, im, i, bn);
    assert Addr(im, i, INDIRECT) == im.core[i].addrs[INDIRECT];
    assert Addr(im', i, INDIRECT) == im'.core[i].addrs[INDIRECT];
    hide Addr, Demand;
  }

  /** im' has a fresh indirect block for file i, and all other slots of the file as in im. */
  ghost predicate NewIndirect(sb: Super, im: Img, im': Img, i: nat)
    requires Shape(sb, im) && Shape(sb, im') && i < sb.ninodes
  {
    && im.core[i].addrs[INDIRECT] == 0 && 0 < im'.core[i].addrs[INDIRECT] < sb.size
    && forall l :: 0 <= l < NSLOT && l != INDIRECT ==> Addr(im', i, l) == Addr(im, i, l)
  }

  /** What a block costs, and what bmap finds without allocating. */
  lemma QuotaCases(sb: Super, im: Img, i: nat, bn: nat)
    requires Shape(sb, im) && i < sb.ninodes && bn < MAXFILE
    ensures Kept(sb, im, im, i) && OnlyBlock(sb, im, im, i, bn)
    ensures Addr(im, i, SlotOf(bn)) != 0 ==>
              && Demand(im, i, bn, bn + 1) == 0 && Found(im, i, bn) == Addr(im, i, SlotOf(bn))
              && (bn >= NDIRECT ==> im.core[i].addrs[INDIRECT] != 0)
    ensures Addr(im, i, SlotOf(bn)) == 0 ==> Demand(im, i, bn, bn + 1) >= BSIZE
  {
    OneDemand(sb, im, i, bn);
  }

  lemma AfterIndirect(sb: Super, im: Img, im1: Img, i: nat, bn: nat)
    requires Shape(sb, im) && Shape(sb, im1) && i < sb.ninodes && NDIRECT <= bn < MAXFILE && NewIndirect(sb, im, im1, i)
    ensures im1.core[i].addrs[INDIRECT] != 0 && im1.core[i].addrs[INDIRECT] < sb.size
    ensures Addr(im1, i, SlotOf(bn)) == 0 == Found(im1, i, bn)
    ensures Demand(im, i, bn, bn + 1) == 2 * BSIZE && Demand(im1, i, bn, bn + 1) == BSIZE
  {
    OneDemand(sb, im, i, bn);
    OneDemand(sb, im1, i, bn);
    SlotFound(sb, im1, i, bn);
  }

  lemma BothNew(sb: Super, im: Img, im1: Img, im2: Img, i: nat, bn: nat)
    requires Shape(sb, im) && Shape(sb, im1) && Shape(sb, im2) && i < sb.ninodes && NDIRECT <= bn < MAXFILE
    requires NewIndirect(sb, im, im1, i) && OnlyBlock(sb, im1, im2, i, bn)
    requires Kept(sb, im, im1, i) && Kept(sb, im1, im2, i)
    ensures OnlyBlock(sb, im, im2, i, bn) && Kept(sb, im, im2, i)
  {
    hide Addr, Kept;
    KeptTransitive(sb, im, im1, im2, i);
  }

  lemma SlotFound(sb: Super, im: Img, i: nat, bn: nat)
    requires Shape(sb, im) && i < sb.ninodes && bn < MAXFILE
    requires bn >= NDIRECT ==> 0 < im.core[i].addrs[INDIRECT] < sb.size
    ensures Found(im, i, bn) == Addr(im, i, SlotOf(bn))
  {
  }

  ghost predicate FileOk(sb: Super, im: Img, i: nat)
    requires Shape(sb, im) && i < sb.ninodes
  {
    im.core[i].size <= MAXFILE * BSIZE && Mapped(im, i, im.core[i].size)
  }

  lemma SizeOk(sb: Super, im: Img, i: nat)
    requires Shape(sb, im) && i < sb.ninodes && FileOk(sb, im, i)
    ensures im.core[i].size <= MAXFILE * BSIZE
  {
  }

  /** A piece of one block is the corresponding piece of the file. */
  lemma ReadChunk(sb: Super, im: Img, i: nat, p: nat, m: nat)
    requires Shape(sb, im) && i < sb.ninodes && FileOk(sb, im, i)
    requires p % BSIZE + m <= BSIZE && 0 < m && p + m <= im.core[i].size
    ensures var a := Addr(im, i, SlotOf(p / BSIZE));
            0 < a < sb.size && im.blocks[a][p % BSIZE..p % BSIZE + m] == Contents(im, i)[p..p + m]
  {
    hide Addr;
    var a := Addr(im, i, SlotOf(p / BSIZE));
    assert p / BSIZE * BSIZE < im.core[i].size;
    var x, y := im.blocks[a][p % BSIZE..p % BSIZE + m], Contents(im, i)[p..p + m];
    forall k | 0 <= k < m
      ensures x[k] == y[k]
    {
      OneBlock(p, m, p + k);
    }
  }

  lemma OneDemand(sb: Super, im: Img, i: nat, bn: nat)
    requires Shape(sb, im) && i < sb.ninodes && bn < MAXFILE
    ensures Demand(im, i, bn, bn + 1) ==
            (if Addr(im, i, SlotOf(bn)) == 0 then BSIZE else 0)
            + (if bn >= NDIRECT && im.core[i].addrs[INDIRECT] == 0 then BSIZE else 0)
    ensures bn >= NDIRECT && im.core[i].addrs[INDIRECT] == 0 ==> Addr(im, i, SlotOf(bn)) == 0
  {
    assert Missing(im, i, bn + 1, bn + 1) == 0;
  }

  // ----- The file as a byte sequence -----

  lemma SameContents(sb: Super, im: Img, im': Img, i: nat)
    requires Shape(sb, im) && Shape(sb, im') && i < sb.ninodes && FileOk(sb, im, i)
    requires im'.core[i].size == im.core[i].size
    requires forall l :: 0 <= l < NSLOT && l != INDIRECT ==> Addr(im', i, l) == Addr(im, i, l)
    requires forall l :: 0 <= l < NSLOT && l != INDIRECT && 0 < Addr(im, i, l) < sb.size ==>
               im'.blocks[Addr(im, i, l)] == im.blocks[Addr(im, i, l)]
    ensures FileOk(sb, im', i) && Contents(im', i) == Contents(im, i)
  {
    hide Addr, InodeOk;
    forall k | 0 <= k < im.core[i].size
      ensures ByteAt(im', i, k) == ByteAt(im, i, k)
    {
      assert k / BSIZE * BSIZE < im.core[i].size;
      assert Addr(im', i, SlotOf(k / BSIZE)) == Addr(im, i, SlotOf(k / BSIZE));
    }
  }

  /** All files but i are what they were. */
  ghost predicate OtherFiles(sb: Super, im: Img, im': Img, i: nat)
    requires Shape(sb, im) && Shape(sb, im')
  {
    forall j :: 0 <= j < sb.ninodes && j != i ==>
      && im'.core[j] == im.core[j] && OnDisk(sb, im', j) == OnDisk(sb, im, j)
      && (FileOk(sb, im, j) ==> FileOk(sb, im', j) && Contents(im', j) == Contents(im, j))
  }

  lemma OthersIntact(sb: Super, im: Img, im': Img, i: nat)
    requires Shape(sb, im) && Shape(sb, im') && OthersKept(sb, im, im', i)
    requires forall j :: 0 <= j < sb.ninodes && j != i ==>
               im'.core[j] == im.core[j] && OnDisk(sb, im', j) == OnDisk(sb, im, j)
    ensures OtherFiles(sb, im, im', i)
  {
    hide Addr, OnDisk, Mapped, Contents;
    forall j | 0 <= j < sb.ninodes && j != i && FileOk(sb, im, j)
      ensures FileOk(sb, im', j) && Contents(im', j) == Contents(im, j)
    {
      SameContents(sb, im, im', j);
    }
  }

  /** The last block that a write of n bytes at off touches, plus one. */
  function EndBlock(off: nat, n: nat): nat {
    if n == 0 then off / BSIZE else (off + n + BSIZE - 1) / BSIZE
  }

  /** The range test of writei. */
  predicate WriteFits(size: nat, off: nat, n: nat) {
    off <= size && off + n < 0x1_0000_0000 && off + n <= MAXFILE * BSIZE
  }

  lemma WriteStart(sb: Super, im: Img, i: nat, off: nat, src: seq<Byte>)
    requires Shape(sb, im) && i < sb.ninodes && FileOk(sb, im, i)
    ensures WriteInv(sb, im, im, i, off, src, 0)
  {
    hide Addr, OnDisk;
    forall k | 0 <= k < im.core[i].size
      ensures Present(sb, im, i, k)
    {
      assert k / BSIZE * BSIZE < im.core[i].size;
    }
  }

  function Resize(im: Img, i: nat, size: nat): Img
    requires i < |im.core|
  {
    SetCore(im, i, im.core[i].(size := size))
  }

  lemma ResizeFacts(sb: Super, im: Img, owner: map<nat, Slot>, i: nat, size: nat)
    requires Exact(sb, im, owner) && i < sb.ninodes && size < 0x1_0000_0000
    ensures Exact(sb, Resize(im, i, size), owner) && SameAddrs(sb, im, Resize(im, i, size))
    ensures forall j :: 0 <= j < sb.ninodes ==> OnDisk(sb, Resize(im, i, size), j) == OnDisk(sb, im, j)
  {
    hide GetWord, GetBit, Own;
    assert SameAddrs(sb, im, Resize(im, i, size));
    OwnTransfer(sb, im, Resize(im, i, size), owner, 0, 0, 0);
  }

  /** When all of src is written and the size set, the file is the spliced byte sequence. */
  lemma WriteDone(sb: Super, im0: Img, im: Img, i: nat, off: nat, src: seq<Byte>, size: nat)
    requires Shape(sb, im0) && Shape(sb, im) && i < sb.ninodes && FileOk(sb, im0, i)
    requires off <= im0.core[i].size && off + |src| <= MAXFILE * BSIZE
    requires size == if off + |src| > im0.core[i].size then off + |src| else im0.core[i].size
    requires im.core[i].size == size && Written(sb, im0, im, i, off, src, |src|)
    ensures FileOk(sb, im, i) && Contents(im, i) == Splice(Contents(im0, i), off, src)
  {
    hide Addr, InodeOk;
    forall bn | 0 <= bn < MAXFILE && bn * BSIZE < size
      ensures 0 < Addr(im, i, SlotOf(bn)) < sb.size
    {
      assert ByteAt(im, i, bn * BSIZE) == Expect(im0, i, off, src, |src|, bn * BSIZE);
    }
    var c, c0 := Contents(im, i), Splice(Contents(im0, i), off, src);
    forall k | 0 <= k < size
      ensures c[k] == c0[k]
    {
      assert ByteAt(im, i, k) == Expect(im0, i, off, src, |src|, k);
    }
  }

  lemma NextBlock(p: nat, m: nat)
    requires p % BSIZE + m <= BSIZE && 0 < m
    ensures p % BSIZE + m == BSIZE ==> (p + m) % BSIZE == 0 && (p + m) / BSIZE == p / BSIZE + 1
  {
  }

  lemma StillThere(sb: Super, im0: Img, im: Img, i: nat, off: nat, src: seq<Byte>, tot: nat)
    requires Shape(sb, im0) && Shape(sb, im) && i < sb.ninodes && tot < |src| && FileOk(sb, im0, i)
    requires WriteInv(sb, im0, im, i, off, src, tot) && off + |src| <= im0.core[i].size
    ensures Addr(im, i, SlotOf((off + tot) / BSIZE)) != 0
  {
    assert ByteAt(im, i, off + tot) == Expect(im0, i, off, src, tot, off + tot);
  }

  lemma WriteFacts(sb: Super, im0: Img, im: Img, i: nat, off: nat, src: seq<Byte>)
    requires Shape(sb, im0) && Shape(sb, im) && i < sb.ninodes && WriteInv(sb, im0, im, i, off, src, |src|)
    ensures im.core[i].size == im0.core[i].size && OnDisk(sb, im, i) == OnDisk(sb, im0, i)
    ensures OthersKept(sb, im0, im, i) && Written(sb, im0, im, i, off, src, |src|)
    ensures forall j :: 0 <= j < sb.ninodes && j != i ==>
              im.core[j] == im0.core[j] && OnDisk(sb, im, j) == OnDisk(sb, im0, j)
    ensures im.core[i] == im0.core[i].(addrs := im.core[i].addrs)
  {
  }

  /** From im to im' at most inode i changed, in core (but for its addresses) and on the disk. */
  ghost predicate OnlyInode(sb: Super, im: Img, im': Img, i: nat)
    requires Shape(sb, im) && Shape(sb, im')
  {
    && SameAddrs(sb, im, im')
    && (forall x :: sb.datastart <= x < sb.size ==> im'.blocks[x] == im.blocks[x])
    && (forall j :: 0 <= j < sb.ninodes && j != i ==>
          im'.core[j] == im.core[j] && OnDisk(sb, im', j) == OnDisk(sb, im, j))
  }

  lemma OnlyInodeOthers(sb: Super, im0: Img, im: Img, im': Img, owner: map<nat, Slot>, i: nat)
    requires Shape(sb, im0) && Exact(sb, im, owner) && Shape(sb, im')
    requires OthersKept(sb, im0, im, i) && OnlyInode(sb, im, im', i)
    ensures OthersKept(sb, im0, im', i)
  {
    hide Own, Addr, OnDisk;
    forall j, l | 0 <= j < sb.ninodes && 0 <= l < NSLOT && j != i && 0 < Addr(im0, j, l) < sb.size
      ensures im'.blocks[Addr(im0, j, l)] == im.blocks[Addr(im0, j, l)]
    {
      assert Addr(im0, j, l) == Addr(im, j, l);
      AddrInRange(sb, im, owner, j, l);
    }
  }

  lemma OnlyInodeWritten(sb: Super, im0: Img, im: Img, im': Img, owner: map<nat, Slot>, i: nat, off: nat,
                         src: seq<Byte>)
    requires Shape(sb, im0) && Exact(sb, im, owner) && Shape(sb, im') && i < sb.ninodes
    requires Written(sb, im0, im, i, off, src, |src|) && OnlyInode(sb, im, im', i)
    ensures Written(sb, im0, im', i, off, src, |src|)
  {
    hide Own, Addr, OnDisk;
    forall k | 0 <= k < MAXFILE * BSIZE && (k < im0.core[i].size || off <= k < off + |src|)
      ensures Present(sb, im', i, k) && ByteAt(im', i, k) == Expect(im0, i, off, src, |src|, k)
    {
      assert ByteAt(im, i, k) == Expect(im0, i, off, src, |src|, k);
      AddrInRange(sb, im, owner, i, SlotOf(k / BSIZE));
    }
  }

  lemma FinishWrite(sb: Super, im0: Img, im: Img, im': Img, owner: map<nat, Slot>, i: nat, off: nat, src: seq<Byte>)
    requires Shape(sb, im0) && Exact(sb, im, owner) && Shape(sb, im') && i < sb.ninodes && FileOk(sb, im0, i)
    requires WriteFits(im0.core[i].size, off, |src|) && OnlyInode(sb, im, im', i)
    requires WriteInv(sb, im0, im, i, off, src, |src|)
    requires im'.core[i].size == if off + |src| > im0.core[i].size then off + |src| else im0.core[i].size
    ensures FileOk(sb, im', i) && Contents(im', i) == Splice(Contents(im0, i), off, src)
    ensures OtherFiles(sb, im0, im', i)
  {
    hide Own, Addr, OnDisk, FileOk, Contents, Splice, Written, OthersKept;
    WriteFacts(sb, im0, im, i, off, src);
    OnlyInodeOthers(sb, im0, im, im', owner, i);
    OnlyInodeWritten(sb, im0, im, im', owner, i, off, src);
    OthersIntact(sb, im0, im', i);
    WriteDone(sb, im0, im', i, off, src, im'.core[i].size);
  }

  /** Blocks of different slots, of one file or of two, are different blocks of the data area. */
  lemma NoSharing(sb: Super, im: Img, owner: map<nat, Slot>, i: nat, k: nat, j: nat, l: nat)
    requires Exact(sb, im, owner) && i < sb.ninodes && j < sb.ninodes && k < NSLOT && l < NSLOT
    requires (i != j || k != l) && Addr(im, i, k) != 0
    ensures Addr(im, i, k) != Addr(im, j, l)
    ensures sb.datastart <= Addr(im, i, k) < sb.size && Used(sb, im, Addr(im, i, k))
  {
    hide Addr, Used;
  }

  // ----- Truncation -----

  /** Slots of inode i that itrunc has dealt with: direct ones below lo, entries below hi. */
  predicate Dropped(i: nat, lo: nat, hi: nat, s: Slot) {
    s.i == i && (s.k < lo || 13 <= s.k < hi)
  }

  function Remaining(owner: map<nat, Slot>, i: nat, lo: nat, hi: nat): map<nat, Slot> {
    map b | b in owner && !Dropped(i, lo, hi, owner[b]) :: owner[b]
  }

  /** Halfway through itrunc: lo direct addresses are cleared, and nothing but the free map and the
      addresses of i has changed. */
  ghost predicate TruncInv(sb: Super, im: Img, im': Img, i: nat, lo: nat)
    requires Shape(sb, im) && Shape(sb, im') && i < sb.ninodes
  {
    && (forall j, l :: 0 <= j < sb.ninodes && 0 <= l < NSLOT ==>
          Addr(im', j, l) == if j == i && l < lo then 0 else Addr(im, j, l))
    && MapOnly(sb, im, im', i)
  }

  ghost predicate MapOnly(sb: Super, im: Img, im': Img, i: nat)
    requires Shape(sb, im) && Shape(sb, im') && i < sb.ninodes
  {
    && (forall x :: 0 <= x < sb.size && (x < sb.bmapstart || sb.datastart <= x) ==> im'.blocks[x] == im.blocks[x])
    && (forall j :: 0 <= j < sb.ninodes && j != i ==> im'.core[j] == im.core[j])
    && im'.core[i] == im.core[i].(addrs := im'.core[i].addrs)
  }

  lemma TruncOwner(sb: Super, im: Img, owner: map<nat, Slot>, i: nat, k: nat, b: nat)
    requires Exact(sb, im, owner) && i < sb.ninodes && k < NSLOT && b in owner
    ensures owner[b] == Slot(i, k) <==> b == Addr(im, i, k)
  {
    hide Addr, Used;
  }

  lemma TruncRemaining(sb: Super, im: Img, owner: map<nat, Slot>, i: nat, k: nat, lo: nat, hi: nat, lo': nat, hi': nat)
    requires Exact(sb, im, owner) && i < sb.ninodes && k < NSLOT
    requires forall s: Slot :: Dropped(i, lo', hi', s) <==> Dropped(i, lo, hi, s) || s == Slot(i, k)
    ensures Remaining(owner, i, lo', hi') ==
            if Addr(im, i, k) == 0 then Remaining(owner, i, lo, hi) else Remaining(owner, i, lo, hi) - {Addr(im, i, k)}
  {
    hide Own, Addr;
    forall b | b in owner
      ensures owner[b] == Slot(i, k) <==> b == Addr(im, i, k)
      ensures b != 0
    {
      TruncOwner(sb, im, owner, i, k, b);
      OwnedSlot(sb, im, owner, 0, 0, 0, b);
      NotZero(sb, im, owner, b);
    }
  }

  lemma NotZero(sb: Super, im: Img, owner: map<nat, Slot>, b: nat)
    requires Exact(sb, im, owner) && b in owner
    ensures b != 0
  {
  }

  lemma TruncDirect(sb: Super, im: Img, im': Img, owner: map<nat, Slot>, i: nat, k: nat)
    requires Exact(sb, im, owner) && Exact(sb, im', Remaining(owner, i, k, 13)) && i < sb.ninodes && k < NDIRECT
    requires TruncInv(sb, im, im', i, k)
    ensures var a := im'.core[i].addrs[k];
            && a == Addr(im, i, k)
            && (a == 0 ==> TruncInv(sb, im, im', i, k + 1))
            && (a == 0 ==> Remaining(owner, i, k + 1, 13) == Remaining(owner, i, k, 13))
            && (a != 0 ==> sb.datastart <= a < sb.size && Used(sb, im', a) && Shape(sb, FreeImg(sb, im', a)))
  {
    assert Addr(im', i, k) == im'.core[i].addrs[k];
    if im'.core[i].addrs[k] != 0 {
      DropDirect(sb, im', Remaining(owner, i, k, 13), i, k);
    }
    TruncRemaining(sb, im, owner, i, k, k, 13, k + 1, 13);
    hide Addr, Used, Own, Remaining;
  }

  lemma TruncDirectDrop(sb: Super, im: Img, im': Img, owner: map<nat, Slot>, i: nat, k: nat)
    requires Exact(sb, im, owner) && Exact(sb, im', Remaining(owner, i, k, 13)) && i < sb.ninodes && k < NDIRECT
    requires TruncInv(sb, im, im', i, k) && im'.core[i].addrs[k] != 0
    ensures var a := im'.core[i].addrs[k];
            && a < sb.size
            && var im'' := Store(FreeImg(sb, im', a), i, k, 0);
            Exact(sb, im'', Remaining(owner, i, k + 1, 13)) && TruncInv(sb, im, im'', i, k + 1)
  {
    hide Own, Remaining;
    TruncDirect(sb, im, im', owner, i, k);
    DropDirect(sb, im', Remaining(owner, i, k, 13), i, k);
    TruncRemaining(sb, im, owner, i, k, k, 13, k + 1, 13);
    var a := im'.core[i].addrs[k];
    var im'' := Store(FreeImg(sb, im', a), i, k, 0);
    assert im''.core == im'.core[i := im'.core[i].(addrs := im'.core[i].addrs[k := 0])];
    assert im''.blocks == im'.blocks[BBlock(sb, a) := im''.blocks[BBlock(sb, a)]];
    hide Addr, Used, Store, FreeImg, OneSlot;
    TruncOneSlot(sb, im, im', im'', i, k, BBlock(sb, a));
  }

  lemma TruncOneSlot(sb: Super, im: Img, im': Img, im'': Img, i: nat, k: nat, x: nat)
    requires Shape(sb, im) && Shape(sb, im') && Shape(sb, im'') && i < sb.ninodes && k < NDIRECT
    requires TruncInv(sb, im, im', i, k) && OneSlot(sb, im', im'', i, k, 0)
    requires sb.bmapstart <= x < sb.datastart && im''.blocks == im'.blocks[x := im''.blocks[x]]
    requires im''.core == im'.core[i := im'.core[i].(addrs := im'.core[i].addrs[k := 0])]
    ensures TruncInv(sb, im, im'', i, k + 1)
  {
    hide Addr;
  }

  /** Freeing a block touches the free map only. */
  lemma TruncFree(sb: Super, im: Img, im': Img, i: nat, lo: nat, a: nat)
    requires Shape(sb, im) && Shape(sb, im') && i < sb.ninodes && a < sb.size && Shape(sb, FreeImg(sb, im', a))
    requires TruncInv(sb, im, im', i, lo) && SameAddrs(sb, im', FreeImg(sb, im', a))
    ensures TruncInv(sb, im, FreeImg(sb, im', a), i, lo)
  {
    hide Addr, ClearBit;
  }

  /** One entry of the indirect block. */
  lemma TruncEntry(sb: Super, im: Img, im': Img, owner: map<nat, Slot>, i: nat, j: nat)
    requires Exact(sb, im, owner) && Shape(sb, im') && i < sb.ninodes && j < NINDIRECT
    requires Own(sb, im', Remaining(owner, i, INDIRECT, 13 + j), i, j, 0) && TruncInv(sb, im, im', i, INDIRECT)
    ensures var a := Addr(im', i, 13 + j);
            && (a == 0 ==> Own(sb, im', Remaining(owner, i, INDIRECT, 13 + j + 1), i, j + 1, 0))
            && (a != 0 ==>
                  && sb.datastart <= a < sb.size && Used(sb, im', a) && Shape(sb, FreeImg(sb, im', a))
                  && Own(sb, FreeImg(sb, im', a), Remaining(owner, i, INDIRECT, 13 + j + 1), i, j + 1, 0)
                  && TruncInv(sb, im, FreeImg(sb, im', a), i, INDIRECT))
  {
    hide Own, Addr, Used, Remaining, FreeImg;
    var a := Addr(im', i, 13 + j);
    assert a == Addr(im, i, 13 + j);
    TruncRemaining(sb, im, owner, i, 13 + j, INDIRECT, 13 + j, INDIRECT, 13 + j + 1);
    if a == 0 {
      SkipEntry(sb, im', Remaining(owner, i, INDIRECT, 13 + j), i, j);
    } else {
      DropEntry(sb, im', Remaining(owner, i, INDIRECT, 13 + j), i, j);
      TruncFree(sb, im, im', i, INDIRECT, a);
    }
  }

  /** All slots of i are empty and every other slot, file and disk inode is untouched. */
  ghost predicate Emptied(sb: Super, im: Img, im': Img, i: nat)
    requires Shape(sb, im) && Shape(sb, im') && i < sb.ninodes
  {
    && (forall l :: 0 <= l < NSLOT ==> Addr(im', i, l) == 0)
    && OthersKept(sb, im, im', i)
    && (forall j :: 0 <= j < sb.ninodes && j != i ==> im'.core[j] == im.core[j])
    && (forall j :: 0 <= j < sb.ninodes ==> OnDisk(sb, im', j) == OnDisk(sb, im, j))
  }

  lemma TruncEmpty(sb: Super, im: Img, im': Img, owner: map<nat, Slot>, i: nat)
    requires Exact(sb, im, owner) && Shape(sb, im') && i < sb.ninodes && MapOnly(sb, im, im', i)
    requires forall j, l :: 0 <= j < sb.ninodes && 0 <= l < NSLOT ==>
               Addr(im', j, l) == if j == i then 0 else Addr(im, j, l)
    ensures Emptied(sb, im, im', i)
  {
    hide Own, Addr, GetInode;
    forall j, l | 0 <= j < sb.ninodes && 0 <= l < NSLOT && j != i && 0 < Addr(im, j, l) < sb.size
      ensures im'.blocks[Addr(im, j, l)] == im.blocks[Addr(im, j, l)]
    {
      AddrInRange(sb, im, owner, j, l);
    }
  }

  lemma TruncIndirect(sb: Super, im: Img, im': Img, owner: map<nat, Slot>, i: nat)
    requires Exact(sb, im, owner) && Shape(sb, im') && i < sb.ninodes && TruncInv(sb, im, im', i, INDIRECT)
    requires Own(sb, im', Remaining(owner, i, INDIRECT, NSLOT), i, NINDIRECT, 0) && im'.core[i].addrs[INDIRECT] != 0
    ensures var a := im'.core[i].addrs[INDIRECT];
            && sb.datastart <= a < sb.size && Used(sb, im', a)
            && var im'' := Store(FreeImg(sb, im', a), i, INDIRECT, 0);
            && Exact(sb, im'', Remaining(owner, i, NSLOT, NSLOT)) && Emptied(sb, im, im'', i)
            && im''.core[i] == im.core[i].(addrs := im''.core[i].addrs)
  {
    hide Own, Remaining, Emptied;
    var a := im'.core[i].addrs[INDIRECT];
    DropIndirect(sb, im', Remaining(owner, i, INDIRECT, NSLOT), i);
    var im'' := Store(FreeImg(sb, im', a), i, INDIRECT, 0);
    assert im''.core == im'.core[i := im'.core[i].(addrs := im'.core[i].addrs[INDIRECT := 0])];
    assert im''.blocks == im'.blocks[BBlock(sb, a) := im''.blocks[BBlock(sb, a)]];
    assert a == Addr(im', i, INDIRECT) == Addr(im, i, INDIRECT);
    hide Addr, Used, Store, FreeImg;
    MapOnlyStep(sb, im, im', im'', i, INDIRECT, BBlock(sb, a));
    TruncRemaining(sb, im, owner, i, INDIRECT, INDIRECT, NSLOT, 13, NSLOT);
    RemainingAll(owner, i);
    TruncEmpty(sb, im, im'', owner, i);
  }

  lemma MapOnlyStep(sb: Super, im: Img, im': Img, im'': Img, i: nat, k: nat, x: nat)
    requires Shape(sb, im) && Shape(sb, im') && Shape(sb, im'') && i < sb.ninodes && k <= INDIRECT
    requires MapOnly(sb, im, im', i)
    requires sb.bmapstart <= x < sb.datastart && im''.blocks == im'.blocks[x := im''.blocks[x]]
    requires im''.core == im'.core[i := im'.core[i].(addrs := im'.core[i].addrs[k := 0])]
    ensures MapOnly(sb, im, im'', i)
  {
  }

  lemma RemainingAll(owner: map<nat, Slot>, i: nat)
    ensures Remaining(owner, i, 13, NSLOT) == Remaining(owner, i, NSLOT, NSLOT)
  {
  }

  /** After itrunc exactly the blocks of i have become free. */
  lemma TruncFrees(sb: Super, im: Img, im': Img, owner: map<nat, Slot>, i: nat, b: nat)
    requires Exact(sb, im, owner) && Exact(sb, im', Remaining(owner, i, NSLOT, NSLOT)) && i < sb.ninodes && b < sb.size
    ensures Used(sb, im', b) <==> Used(sb, im, b) && !exists k :: 0 <= k < NSLOT && Addr(im, i, k) == b != 0
  {
    hide Addr, Used;
    if b in owner { OwnedSlot(sb, im, owner, 0, 0, 0, b); }
  }

  lemma RemainingNone(sb: Super, im: Img, owner: map<nat, Slot>, i: nat)
    requires Exact(sb, im, owner) && i < sb.ninodes
    ensures Remaining(owner, i, 0, 13) == owner && TruncInv(sb, im, im, i, 0)
  {
  }

  lemma OwnStart(sb: Super, im: Img, owner: map<nat, Slot>, i: nat)
    requires Exact(sb, im, owner)
    ensures Own(sb, im, owner, i, 0, 0)
  {
    hide Addr, Used;
  }

  lemma IndirectOk(sb: Super, im: Img, i: nat)
    requires Shape(sb, im) && i < sb.ninodes
    ensures |im.core[i].addrs| == NDIRECT + 1
  {
  }

  lemma EntryAddr(im: Img, i: nat, j: nat)
    requires i < |im.core| && InodeOk(im.core[i]) && j < NINDIRECT
    requires |im.core[i].addrs| == NDIRECT + 1 && 0 < im.core[i].addrs[INDIRECT] < |im.blocks|
    ensures Addr(im, i, 13 + j) == GetWord(im.blocks[im.core[i].addrs[INDIRECT]], j)
  {
  }

  lemma TruncDone(sb: Super, im0: Img, im: Img, im': Img, owner: map<nat, Slot>, i: nat)
    requires Shape(sb, im0) && Exact(sb, im, owner) && Shape(sb, im') && i < sb.ninodes
    requires Emptied(sb, im0, im, i) && OnlyInode(sb, im, im', i)
    ensures OtherFiles(sb, im0, im', i) && forall l :: 0 <= l < NSLOT ==> Addr(im', i, l) == 0
  {
    hide Own, Addr, OnDisk;
    OnlyInodeOthers(sb, im0, im, im', owner, i);
    OthersIntact(sb, im0, im', i);
  }

  lemma TruncNoIndirect(sb: Super, im: Img, im': Img, owner: map<nat, Slot>, i: nat)
    requires Exact(sb, im, owner) && Exact(sb, im', Remaining(owner, i, INDIRECT, 13)) && i < sb.ninodes
    requires TruncInv(sb, im, im', i, INDIRECT) && im'.core[i].addrs[INDIRECT] == 0
    ensures Emptied(sb, im, im', i) && im'.core[i] == im.core[i].(addrs := im'.core[i].addrs)
    ensures Remaining(owner, i, INDIRECT, 13) == Remaining(owner, i, NSLOT, NSLOT)
  {
    hide Own, GetWord, GetInode;
    assert forall l :: INDIRECT <= l < NSLOT ==> Addr(im', i, l) == 0;
    assert forall l :: INDIRECT <= l < NSLOT ==> Addr(im, i, l) == Addr(im', i, l);
    hide Addr;
    TruncEmpty(sb, im, im', owner, i);
    forall b | b in owner
      ensures !(owner[b].i == i && owner[b].k >= INDIRECT) && owner[b].k < NSLOT
    {
      OwnedSlot(sb, im, owner, 0, 0, 0, b);
      NotZero(sb, im, owner, b);
    }
  }

  class FileSystem {
    const sb: Super
    var core: seq<Inode>   // in-core inodes, by number
    var blocks: seq<Block>
    var udsk: nat          // disk space charged to the container
    const mdsk: nat        // its limit
    ghost var owner: map<nat, Slot>

    ghost function Now(): Img
      reads this
    {
      Img(core, blocks)
    }

    ghost predicate Valid()
      reads this
    {
      Exact(sb, Now(), owner) && udsk <= mdsk
    }

    /** A mounted file system whose ownership is exact. */
    constructor (sb: Super, core: seq<Inode>, blocks: seq<Block>, udsk: nat, mdsk: nat, ghost owner: map<nat, Slot>)
      requires Exact(sb, Img(core, blocks), owner) && udsk <= mdsk
      ensures Valid() && Now() == Img(core, blocks) && this.owner == owner
      ensures this.sb == sb && this.udsk == udsk && this.mdsk == mdsk
    {
      this.sb, this.core, this.blocks, this.udsk, this.mdsk, this.owner := sb, core, blocks, udsk, mdsk, owner;
    }

    /** The inner loop of balloc: the first free block from b on in b's map block, if it has one. */
    method ScanMap(b: nat) returns (bi: nat)
      requires Shape(sb, Now()) && b % BPB == 0 && b < sb.size
      ensures bi <= BPB && (forall c :: b <= c < b + bi && c < sb.size ==> Used(sb, Now(), c))
      ensures bi < BPB && b + bi < sb.size ==> !Used(sb, Now(), b + bi)
    {
      hide GetBit, Used, BBlock;
      MapBlock(sb, Now(), b, 0);
      var bp := blocks[BBlock(sb, b)];
      bi := 0;
      while bi < BPB && b + bi < sb.size
        invariant bi <= BPB && (forall c :: b <= c < b + bi && c < sb.size ==> Used(sb, Now(), c))
      {
        MapBlock(sb, Now(), b, bi);
        if !GetBit(bp, bi) {
          return;
        }
        bi := bi + 1;
      }
    }

    /** First fit over the free map; the block found is marked and zeroed. */
    method Balloc() returns (r: AllocResult)
      requires Shape(sb, Now())
      modifies this`blocks, this`udsk
      ensures r.OverQuota? <==> old(udsk) + BSIZE > mdsk
      ensures r.Got? ==> && r.b < sb.size && !Used(sb, old(Now()), r.b)
                         && (forall c :: 0 <= c < r.b ==> Used(sb, old(Now()), c))
                         && Now() == AllocImg(sb, old(Now()), r.b) && udsk == old(udsk) + BSIZE
      ensures r.OutOfBlocks? ==> forall c :: 0 <= c < sb.size ==> Used(sb, old(Now()), c)
      ensures !r.Got? ==> Now() == old(Now()) && udsk == old(udsk)
    {
      hide GetBit, SetBit, Used, BBlock;
      if udsk + BSIZE > mdsk {
        return OverQuota;
      }
      var b := 0;
      while b < sb.size
        invariant Now() == old(Now()) && udsk == old(udsk)
        invariant b % BPB == 0 && (forall c :: 0 <= c < b && c < sb.size ==> Used(sb, Now(), c))
        decreases sb.size - b
      {
        var bi := ScanMap(b);
        if bi < BPB && b + bi < sb.size {
          MapBlock(sb, Now(), b, bi);
          blocks := blocks[BBlock(sb, b) := SetBit(blocks[BBlock(sb, b)], bi)];
          blocks := blocks[b + bi := Zeroes()];
          udsk := udsk + BSIZE;
          return Got(b + bi);
        }
        b := b + BPB;
      }
      return OutOfBlocks;
    }

    /** The precondition is what the panic "freeing free block" checks. */
    method Bfree(b: nat)
      requires Shape(sb, Now()) && b < sb.size && Used(sb, Now(), b)
      modifies this`blocks, this`udsk
      ensures Now() == FreeImg(sb, old(Now()), b)
      ensures udsk <= old(udsk)
    {
      if udsk > BSIZE {
        udsk := udsk - BSIZE;
      }
      var bp := blocks[BBlock(sb, b)];
      blocks := blocks[BBlock(sb, b) := ClearBit(bp, b % BPB)];
    }

    /** Copy the in-core inode to its place in the inode block. */
    method Iupdate(i: nat)
      requires Shape(sb, Now()) && i < sb.ninodes
      modifies this`blocks
      ensures Now() == UpdateImg(sb, old(Now()), i) && Shape(sb, Now())
      ensures OnDisk(sb, Now(), i) == core[i]
      ensures forall j :: 0 <= j < sb.ninodes && j != i ==> OnDisk(sb, Now(), j) == OnDisk(sb, old(Now()), j)
      ensures forall x :: sb.datastart <= x < sb.size ==> blocks[x] == old(blocks[x])
      ensures old(Valid()) ==> Valid() && SameAddrs(sb, old(Now()), Now())
    {
      hide PutWords, GetWord, SetWord, GetInode;
      ghost var im := Now();
      var x := IBlock(sb, i);
      var data := PutInode(blocks[x], i % IPB, core[i]);
      blocks := blocks[x := data];
      if old(Valid()) { OwnAfterBlock(sb, im, owner, x, data); }
      assert Now() == UpdateImg(sb, im, i);
      hide Own, SameAddrs, OnDisk, UpdateImg, PutInode;
      forall j | 0 <= j < sb.ninodes
        ensures OnDisk(sb, Now(), j) == if j == i then core[i] else OnDisk(sb, im, j)
      {
        UpdateOnDisk(sb, im, i, j);
      }
    }

    /** balloc panics: no bit of the free map is clear. */
    ghost predicate Full()
      reads this
      requires Shape(sb, Now())
    {
      forall c :: 0 <= c < sb.size ==> Used(sb, Now(), c)
    }

    /** balloc refuses: the container has used up its quota. */
    predicate Over()
      reads this
    {
      udsk + BSIZE > mdsk
    }

    /** One empty slot: balloc and store.  ok is false when balloc panics; past the quota the address
        is 0 and nothing changes. */
    method Grow(i: nat, k: nat) returns (addr: nat, ok: bool)
      requires Shape(sb, Now()) && i < sb.ninodes && k < NSLOT
      requires !Over() ==> Valid() && Addr(Now(), i, k) == 0 && (k > INDIRECT ==> core[i].addrs[INDIRECT] != 0)
      modifies this`blocks, this`core, this`udsk, this`owner
      ensures old(Over()) ==> ok && addr == 0 && Now() == old(Now()) && udsk == old(udsk) && owner == old(owner)
      ensures !old(Over()) && ok ==> Valid() && Kept(sb, old(Now()), Now(), i) && addr == Addr(Now(), i, k) != 0
      ensures !old(Over()) && ok ==> OneSlot(sb, old(Now()), Now(), i, k, addr) && udsk == old(udsk) + BSIZE
      ensures !ok ==> Now() == old(Now()) && Full()
    {
      ghost var im := Now();
      var r := Balloc();
      if !r.Got? {
        return 0, r.OverQuota?;
      }
      GrowKept(sb, im, owner, i, k, r.b);
      hide Addr, Used, Own, Kept, AllocImg, GetWord, SetWord;
      if k <= INDIRECT {
        core := core[i := core[i].(addrs := core[i].addrs[k := r.b])];
      } else {
        var ind := core[i].addrs[INDIRECT];
        blocks := blocks[ind := SetWord(blocks[ind], k - 13, r.b)];
      }
      owner := owner[r.b := Slot(i, k)];
      assert Now() == Store(AllocImg(sb, im, r.b), i, k, r.b);
      return r.b, true;
    }

    /** bmap gave block bn of file i a disk block, taking the quota for it. */
    ghost predicate Given(im: Img, i: nat, bn: nat, addr: nat, paid: nat)
      reads this
      requires Shape(sb, im) && i < sb.ninodes && bn < MAXFILE
    {
      && Valid() && Kept(sb, im, Now(), i) && OnlyBlock(sb, im, Now(), i, bn)
      && addr == Addr(Now(), i, SlotOf(bn)) && addr != 0 && udsk == paid + Demand(im, i, bn, bn + 1)
      && (if bn >= NDIRECT then core[i].addrs[INDIRECT] != 0
          else core[i].addrs[INDIRECT] == im.core[i].addrs[INDIRECT])
    }

    /** bmap ran into the quota: block bn of file i has no disk block, and addr is taken for one. */
    ghost predicate Denied(im: Img, i: nat, bn: nat, addr: nat)
      reads this
      requires Shape(sb, im) && i < sb.ninodes && bn < MAXFILE
    {
      && Valid() && Kept(sb, im, Now(), i) && Over() && Addr(Now(), i, SlotOf(bn)) == 0 && addr == Found(Now(), i, bn)
    }

    /** bmap when no block has to be got for the indirect block: a direct block, or the entry of the
        indirect block, for which block 0 is taken if there is none. */
    method BmapSlot(i: nat, bn: nat) returns (addr: nat, ok: bool)
      requires Shape(sb, Now()) && i < sb.ninodes && bn < MAXFILE && core[i].addrs[INDIRECT] < sb.size
      requires !Over() ==> Valid() && (bn >= NDIRECT ==> core[i].addrs[INDIRECT] != 0)
      modifies this`blocks, this`core, this`udsk, this`owner
      ensures old(Over()) ==> ok && addr == Found(old(Now()), i, bn) && Now() == old(Now())
      ensures old(Over()) ==> udsk == old(udsk) && owner == old(owner)
      ensures !old(Over()) && ok ==> Given(old(Now()), i, bn, addr, old(udsk))
      ensures Addr(old(Now()), i, SlotOf(bn)) != 0 && !old(Over()) ==> ok && Now() == old(Now()) && udsk == old(udsk)
      ensures !ok ==> Shape(sb, Now()) && Full()
    {
      hide Own, Used, Kept, GetWord, Demand, Addr, Found, OneSlot, OnlyBlock, Full;
      ghost var im := Now();
      if !Over() { SlotFound(sb, im, i, bn); }
      QuotaCases(sb, im, i, bn);
      addr := Entry(i, bn);
      ok := true;
      if addr == 0 {
        addr, ok := Grow(i, SlotOf(bn));
        if ok && !old(Over()) { SlotGiven(sb, im, Now(), i, bn, addr); }
      }
    }

    /** The address in the inode or in the indirect block. */
    method Entry(i: nat, bn: nat) returns (addr: nat)
      requires Shape(sb, Now()) && i < sb.ninodes && bn < MAXFILE && core[i].addrs[INDIRECT] < sb.size
      ensures addr == Found(Now(), i, bn)
    {
      if bn < NDIRECT {
        return core[i].addrs[bn];
      }
      return GetWord(blocks[core[i].addrs[INDIRECT]], bn - NDIRECT);
    }

    /** The indirect block of file i is missing. */
    method AddIndirect(i: nat) returns (ok: bool)
      requires Shape(sb, Now()) && i < sb.ninodes && core[i].addrs[INDIRECT] == 0 && (!Over() ==> Valid())
      modifies this`blocks, this`core, this`udsk, this`owner
      ensures old(Over()) ==> ok && Now() == old(Now()) && udsk == old(udsk) && owner == old(owner)
      ensures !old(Over()) && ok ==> Valid() && Kept(sb, old(Now()), Now(), i) && NewIndirect(sb, old(Now()), Now(), i)
      ensures !old(Over()) && ok ==> udsk == old(udsk) + BSIZE
      ensures !ok ==> Shape(sb, Now()) && Full()
    {
      ghost var im := Now();
      assert Addr(im, i, INDIRECT) == 0;
      assert forall l :: INDIRECT < l < NSLOT ==> Addr(im, i, l) == 0;
      hide Own, Used, Kept, GetWord;
      var addr;
      addr, ok := Grow(i, INDIRECT);
      if ok && !old(Over()) {
        assert Addr(Now(), i, INDIRECT) == core[i].addrs[INDIRECT];
        IndirectThere(sb, Now(), owner, i);
      }
    }

    /** What bmap does to a sound file system: block bn of file i has a disk block, or the quota does not
        allow it one. */
    ghost predicate Bmapped(im: Img, i: nat, bn: nat, addr: nat, paid: nat)
      reads this
      requires Shape(sb, im) && i < sb.ninodes && bn < MAXFILE
    {
      if paid + Demand(im, i, bn, bn + 1) <= mdsk then Given(im, i, bn, addr, paid) else Denied(im, i, bn, addr)
    }

    /** bmap of an entry without an indirect block. */
    method BmapNew(i: nat, bn: nat) returns (addr: nat, ok: bool)
      requires Shape(sb, Now()) && i < sb.ninodes && NDIRECT <= bn < MAXFILE && core[i].addrs[INDIRECT] == 0
      requires !Over() ==> Valid()
      modifies this`blocks, this`core, this`udsk, this`owner
      ensures old(Over()) ==> ok && addr == Found(old(Now()), i, bn) && Now() == old(Now())
      ensures old(Over()) ==> udsk == old(udsk) && owner == old(owner)
      ensures ok && !old(Over()) ==> Bmapped(old(Now()), i, bn, addr, old(udsk))
      ensures !ok ==> Shape(sb, Now()) && Full()
    {
      hide Own, Used, Kept, GetWord, Full, Demand, Addr, Found, OnlyBlock, NewIndirect;
      ghost var im := Now();
      ok := AddIndirect(i);
      if !ok { return 0, false; }
      ghost var im1 := Now();
      if !old(Over()) { AfterIndirect(sb, im, im1, i, bn); }
      addr, ok := BmapSlot(i, bn);
      if ok && !old(Over()) && old(udsk) + 2 * BSIZE <= mdsk { BothNew(sb, im, im1, Now(), i, bn); }
    }

    /** Disk block of the bn-th block of file i, allocating it (and the indirect block) if necessary.
        ok is false when balloc panics.  When the quota is used up the block found is no block of the
        file: 0, or what block 0 has in the place of an entry. */
    method Bmap(i: nat, bn: nat) returns (addr: nat, ok: bool)
      requires Shape(sb, Now()) && i < sb.ninodes && bn < MAXFILE
      requires Valid() || (Over() && core[i].addrs[INDIRECT] == 0)
      modifies this`blocks, this`core, this`udsk, this`owner
      ensures old(Over()) ==> ok && addr == Found(old(Now()), i, bn) && Now() == old(Now())
      ensures old(Over()) ==> udsk == old(udsk) && owner == old(owner)
      ensures ok && old(Valid()) ==> Bmapped(old(Now()), i, bn, addr, old(udsk))
      ensures Addr(old(Now()), i, SlotOf(bn)) != 0 && old(Valid()) ==>
                ok && addr == Addr(old(Now()), i, SlotOf(bn)) && Valid() && Now() == old(Now()) && udsk == old(udsk)
      ensures !ok ==> Shape(sb, Now()) && Full()
    {
      hide Own, Used, Kept, GetWord, Full, Demand, Addr, Found, OnlyBlock;
      ghost var im := Now();
      if Valid() { IndirectThere(sb, im, owner, i); }
      QuotaCases(sb, im, i, bn);
      if bn >= NDIRECT && core[i].addrs[INDIRECT] == 0 {
        addr, ok := BmapNew(i, bn);
      } else {
        addr, ok := BmapSlot(i, bn);
      }
    }

    /** One round of readi: bmap, bread and memmove of the m bytes at p, which lie in one block. */
    method ReadRound(i: nat, p: nat, m: nat) returns (bytes: seq<Byte>)
      requires Valid() && i < sb.ninodes && FileOk(sb, Now(), i)
      requires 0 < m <= BSIZE - p % BSIZE && p + m <= core[i].size
      modifies this`blocks, this`core, this`udsk, this`owner
      ensures Valid() && Now() == old(Now()) && udsk == old(udsk)
      ensures p + m <= |Contents(Now(), i)| && bytes == Contents(Now(), i)[p..p + m]
    {
      hide Own, Addr, Kept, Demand, Contents, FileOk, Found, Used;
      SizeOk(sb, Now(), i);
      ReadChunk(sb, Now(), i, p, m);
      var addr, ok := Bmap(i, p / BSIZE);
      var bp := blocks[addr];
      return bp[p % BSIZE..p % BSIZE + m];
    }

    /** Read n bytes at offset off of file i: -1 for a bad range, else as many bytes of the file as
        there are.  Nothing changes, since every block below the size has a disk block. */
    method Readi(i: nat, off: nat, n: nat) returns (r: int, dst: seq<Byte>)
      requires Valid() && i < sb.ninodes && FileOk(sb, Now(), i) && core[i].typ != T_DEV
      requires off < 0x1_0000_0000 && n < 0x1_0000_0000
      modifies this`blocks, this`core, this`udsk, this`owner
      ensures Valid() && Now() == old(Now()) && udsk == old(udsk)
      ensures off > core[i].size || off + n >= 0x1_0000_0000 ==> r == -1 && dst == []
      ensures off <= core[i].size && off + n < 0x1_0000_0000 ==>
                r == Min(n, core[i].size - off) && dst == Contents(Now(), i)[off..off + r]
    {
      hide Own, Addr, Kept, Demand, Contents, FileOk, Found, Used;
      dst := [];
      if off > core[i].size || off + n >= 0x1_0000_0000 {
        return -1, [];
      }
      var n' := n;
      if off + n > core[i].size {
        n' := core[i].size - off;
      }
      ghost var im := Now();
      SizeOk(sb, im, i);
      ghost var c := Contents(im, i);
      var tot := 0;
      while tot < n'
        invariant tot <= n' && Valid() && Now() == im && udsk == old(udsk)
        invariant dst == c[off..off + tot]
      {
        var p := off + tot;
        var m := Min(n' - tot, BSIZE - p % BSIZE);
        var bytes := ReadRound(i, p, m);
        dst := dst + bytes;
        assert c[off..p] + c[p..p + m] == c[off..p + m];
        tot := tot + m;
      }
      return n', dst;
    }

    /** bread, memmove, log_write, brelse of one data block. */
    method PatchBlock(addr: nat, o: nat, bytes: seq<Byte>)
      requires addr < |blocks| && o + |bytes| <= BSIZE
      modifies this`blocks
      ensures Now() == SetBlock(old(Now()), addr, Patch(old(blocks[addr]), o, bytes))
    {
      var bp := blocks[addr];
      blocks := blocks[addr := bp[..o] + bytes + bp[o + |bytes|..]];
    }

    /** Writing has run into the quota: block bad of file i, which the write covers, is missing. */
    ghost predicate Spoiled(im0: Img, i: nat, off: nat, n: nat, tot: nat, bad: nat)
      reads this
      requires i < |im0.core|
    {
      && Over() && udsk <= mdsk && Holed(sb, Now(), owner, i, bad) && core[i].size == im0.core[i].size
      && im0.core[i].size <= bad * BSIZE < off + n && bad * BSIZE <= off + tot
    }

    /** The quota is enough for the blocks from b0 on of a write that ends before block b1. */
    ghost predicate Enough(i: nat, b0: nat, b1: nat)
      reads this
      requires Shape(sb, Now()) && i < sb.ninodes && b1 <= MAXFILE
    {
      udsk + Demand(Now(), i, b0, b1) <= mdsk
    }

    /** Where writei stands after tot bytes: bad is None while the quota lasts, and after that a block of
        the write that is missing. */
    ghost predicate Stage(im0: Img, i: nat, off: nat, src: seq<Byte>, tot: nat, bad: Option<nat>)
      reads this
      requires Shape(sb, im0) && i < sb.ninodes && tot <= |src|
    {
      match bad
      case None => Valid() && WriteInv(sb, im0, Now(), i, off, src, tot)
      case Some(b) => Spoiled(im0, i, off, |src|, tot, b)
    }

    /** One round of writei's loop: m bytes, all in one block. */
    method WriteRound(i: nat, off: nat, src: seq<Byte>, tot: nat, m: nat, ghost im0: Img, ghost bad: Option<nat>)
        returns (ok: bool, ghost bad': Option<nat>)
      requires Shape(sb, im0) && Shape(sb, Now()) && i < sb.ninodes && FileOk(sb, im0, i)
      requires off + |src| <= MAXFILE * BSIZE && 0 < m && tot + m <= |src| && (off + tot) % BSIZE + m <= BSIZE
      requires Stage(im0, i, off, src, tot, bad)
      modifies this`blocks, this`core, this`udsk, this`owner
      ensures Shape(sb, Now()) && (ok ==> Stage(im0, i, off, src, tot + m, bad'))
      ensures ok && bad.Some? ==> bad'.Some?
      ensures ok && bad.None? && old(Enough(i, (off + tot) / BSIZE, EndBlock(off, |src|))) ==>
                bad'.None? && Enough(i, (off + tot) / BSIZE + 1, EndBlock(off, |src|))
      ensures ok && bad.None? && !old(Enough(i, (off + tot) / BSIZE, EndBlock(off, |src|))) && bad'.None? ==>
                && (off + tot) / BSIZE + 1 < EndBlock(off, |src|)
                && !Enough(i, (off + tot) / BSIZE + 1, EndBlock(off, |src|))
      ensures bad.None? && Addr(old(Now()), i, SlotOf((off + tot) / BSIZE)) != 0 ==>
                ok && bad'.None? && core == old(core)
      ensures !ok ==> Full() || bad.Some? || !old(Enough(i, (off + tot) / BSIZE, EndBlock(off, |src|)))
    {
      hide Own, Used, Kept, WriteInv, Demand, Full, Addr, GetWord, FileOk, OnlyBlock, Found, Patch, Holed;
      ghost var im := Now();
      var p := off + tot;
      var bn := p / BSIZE;
      ghost var b1 := EndBlock(off, |src|);
      assert bn < b1 <= MAXFILE;
      DemandFirst(sb, im, i, bn, b1);
      QuotaCases(sb, im, i, bn);
      if bad.Some? { HoledCases(sb, im, owner, i, bad.value); }
      var addr;
      bad' := bad;
      addr, ok := Bmap(i, bn);
      if !ok { return; }
      ghost var im1 := Now();
      if bad.Some? {
        RoundLost(sb, im1, owner, i, bad.value, off, src, tot, m);
        bad' := Some(if bn >= NDIRECT && core[i].addrs[INDIRECT] == 0 then bn else bad.value);
      } else {
        WriteGrow(sb, im0, im, im1, i, off, src, tot);
        if old(udsk) + Demand(im, i, bn, bn + 1) <= mdsk {
          AddrInRange(sb, im1, owner, i, SlotOf(bn));
          RoundGiven(sb, im0, im, im1, owner, i, off, src, tot, m);
        } else {
          bad' := Some(bn);
          RoundDenied(sb, im0, im1, owner, i, off, src, tot, m);
        }
      }
      if addr >= |blocks| {
        return false, bad';   // the disk driver panics
      }
      PatchBlock(addr, p % BSIZE, src[tot..tot + m]);
    }

    /** Write src at offset off of file i.  r is -1 for a bad range.  Within the quota file i becomes the
        spliced byte sequence, in core and on disk, and no other file changes.  Past the quota writei
        reports the same success, but the file is left with a block missing.  ok is false when balloc
        panics, or past the quota the disk driver. */
    method Writei(i: nat, off: nat, src: seq<Byte>) returns (r: int, ok: bool)
      requires Valid() && i < sb.ninodes && FileOk(sb, Now(), i) && core[i].typ != T_DEV
      modifies this`blocks, this`core, this`udsk, this`owner
      ensures !WriteFits(old(core)[i].size, off, |src|) ==> r == -1 && ok && Now() == old(Now()) && Valid()
      ensures WriteFits(old(core)[i].size, off, |src|) && ok ==> r == |src| && Shape(sb, Now())
      ensures WriteFits(old(core)[i].size, off, |src|) && ok ==>
                (FileOk(sb, Now(), i) <==> old(Enough(i, off / BSIZE, EndBlock(off, |src|))))
      ensures WriteFits(old(core)[i].size, off, |src|) && ok && old(Enough(i, off / BSIZE, EndBlock(off, |src|))) ==>
                && Valid() && Contents(Now(), i) == Splice(Contents(old(Now()), i), off, src)
                && core[i] == old(core)[i].(size := core[i].size, addrs := core[i].addrs)
                && (OnDisk(sb, old(Now()), i) == old(core)[i] ==> OnDisk(sb, Now(), i) == core[i])
                && OtherFiles(sb, old(Now()), Now(), i)
      ensures !ok ==> Shape(sb, Now()) && (Full() || !old(Enough(i, off / BSIZE, EndBlock(off, |src|))))
    {
      hide Own, Used, Kept, WriteInv, Demand, Full, Addr, GetWord, FileOk, Contents, Splice, OnDisk, OtherFiles;
      hide OthersKept, Holed;
      ghost var im0 := Now();
      if off > core[i].size || off + |src| >= 0x1_0000_0000 {
        return -1, true;
      }
      if off + |src| > MAXFILE * BSIZE {
        return -1, true;
      }
      WriteStart(sb, im0, i, off, src);
      ghost var b1 := EndBlock(off, |src|);
      ghost var enough := Enough(i, off / BSIZE, b1);
      ghost var bad: Option<nat> := None;
      var n := |src|;
      var tot := 0;
      NoDemand(sb, im0, i, off / BSIZE, b1);
      while tot < n
        invariant tot <= n && Shape(sb, Now()) && Stage(im0, i, off, src, tot, bad)
        invariant enough ==> bad.None?
        invariant bad.None? ==> if tot < n then Enough(i, (off + tot) / BSIZE, b1) == enough else enough
        invariant tot > 0 && tot < n ==> (off + tot) % BSIZE == 0
        invariant bad.None? && off + n <= im0.core[i].size ==> core == im0.core
      {
        var m := Min(n - tot, BSIZE - (off + tot) % BSIZE);
        if off + n <= im0.core[i].size && bad.None? { StillThere(sb, im0, Now(), i, off, src, tot); }
        ok, bad := WriteRound(i, off, src, tot, m, im0, bad);
        if !ok { return 0, false; }
        NextBlock(off + tot, m);
        tot := tot + m;
      }
      Resized(i, off, src, im0, bad);
      return n, true;
    }

    /** The end of writei: a file that has grown gets its new size. */
    method Resized(i: nat, off: nat, src: seq<Byte>, ghost im0: Img, ghost bad: Option<nat>)
      requires Shape(sb, im0) && Shape(sb, Now()) && i < sb.ninodes && FileOk(sb, im0, i)
      requires WriteFits(im0.core[i].size, off, |src|) && Stage(im0, i, off, src, |src|, bad)
      requires bad.None? && off + |src| <= im0.core[i].size ==> core == im0.core
      modifies this`blocks, this`core
      ensures Shape(sb, Now()) && (FileOk(sb, Now(), i) <==> bad.None?)
      ensures bad.None? ==>
                && Valid() && Contents(Now(), i) == Splice(Contents(im0, i), off, src)
                && core[i] == im0.core[i].(size := core[i].size, addrs := core[i].addrs)
                && (OnDisk(sb, im0, i) == im0.core[i] ==> OnDisk(sb, Now(), i) == core[i])
                && OtherFiles(sb, im0, Now(), i)
    {
      hide Own, Used, Kept, WriteInv, Demand, Full, Addr, GetWord, FileOk, Contents, Splice, OnDisk, OtherFiles;
      hide OthersKept, Holed, UpdateImg, Written;
      ghost var im1 := Now();
      var n := |src|;
      if bad.None? { WriteFacts(sb, im0, im1, i, off, src); }
      if n > 0 && off + n > core[i].size {
        core := core[i := core[i].(size := off + n)];
        assert Now() == Resize(im1, i, off + n);
        if bad.None? { ResizeFacts(sb, im1, owner, i, off + n); }
        else { HoledUpdate(sb, im1, owner, i, bad.value, off + n); }
        Iupdate(i);
      }
      if bad.None? { FinishWrite(sb, im0, im1, Now(), owner, i, off, src); }
      else { HoledFile(sb, Now(), owner, i, bad.value); }
    }

    /** The first loop of itrunc. */
    method TruncDirects(i: nat)
      requires Valid() && i < sb.ninodes
      modifies this`blocks, this`core, this`udsk, this`owner
      ensures Valid() && owner == Remaining(old(owner), i, INDIRECT, 13) && udsk <= old(udsk)
      ensures TruncInv(sb, old(Now()), Now(), i, INDIRECT)
    {
      hide Own, Used, Remaining, Addr, FreeImg;
      ghost var im0, owner0 := Now(), owner;
      RemainingNone(sb, im0, owner0, i);
      var k := 0;
      while k < NDIRECT
        invariant k <= NDIRECT && Valid() && owner == Remaining(owner0, i, k, 13) && udsk <= old(udsk)
        invariant TruncInv(sb, im0, Now(), i, k)
      {
        ghost var im := Now();
        TruncDirect(sb, im0, im, owner0, i, k);
        var a := core[i].addrs[k];
        if a != 0 {
          TruncDirectDrop(sb, im0, im, owner0, i, k);
          Bfree(a);
          core := core[i := core[i].(addrs := core[i].addrs[k := 0])];
          owner := Remaining(owner0, i, k + 1, 13);
          assert Now() == Store(FreeImg(sb, im, a), i, k, 0);
        }
        k := k + 1;
      }
    }

    /** The body of itrunc's second loop: b is entry j of the indirect block. */
    method TruncOne(i: nat, j: nat, b: nat, ghost im0: Img, ghost owner0: map<nat, Slot>)
      requires Exact(sb, im0, owner0) && Shape(sb, Now()) && i < sb.ninodes && j < NINDIRECT
      requires owner == Remaining(owner0, i, INDIRECT, 13 + j) && Own(sb, Now(), owner, i, j, 0)
      requires TruncInv(sb, im0, Now(), i, INDIRECT) && b == Addr(Now(), i, 13 + j)
      modifies this`blocks, this`udsk, this`owner
      ensures Shape(sb, Now()) && core == old(core) && udsk <= old(udsk)
      ensures owner == Remaining(owner0, i, INDIRECT, 13 + j + 1) && Own(sb, Now(), owner, i, j + 1, 0)
      ensures TruncInv(sb, im0, Now(), i, INDIRECT)
      ensures forall x :: sb.datastart <= x < sb.size ==> blocks[x] == old(blocks[x])
    {
      hide Own, Used, Remaining, TruncInv, GetWord, Addr;
      TruncEntry(sb, im0, Now(), owner0, i, j);
      if b != 0 {
        Bfree(b);
      }
      owner := Remaining(owner0, i, INDIRECT, 13 + j + 1);
    }

    /** The second loop of itrunc, over the entries of the indirect block. */
    method TruncEntries(i: nat, ghost im0: Img, ghost owner0: map<nat, Slot>)
      requires Valid() && i < sb.ninodes && core[i].addrs[INDIRECT] != 0
      requires Exact(sb, im0, owner0) && owner == Remaining(owner0, i, INDIRECT, 13)
      requires TruncInv(sb, im0, Now(), i, INDIRECT)
      modifies this`blocks, this`udsk, this`owner
      ensures Shape(sb, Now()) && TruncInv(sb, im0, Now(), i, INDIRECT) && udsk <= old(udsk)
      ensures owner == Remaining(owner0, i, INDIRECT, NSLOT) && Own(sb, Now(), owner, i, NINDIRECT, 0)
    {
      hide Own, Used, Remaining, FreeImg, TruncInv, GetWord, Addr, InodeOk;
      OnlyIndirect(sb, Now(), owner, i, 0);
      OwnStart(sb, Now(), owner, i);
      IndirectOk(sb, Now(), i);
      var ind := core[i].addrs[INDIRECT];
      var a := blocks[ind];
      var j := 0;
      while j < NINDIRECT
        invariant j <= NINDIRECT && Shape(sb, Now()) && udsk <= old(udsk) && core == old(core) && blocks[ind] == a
        invariant owner == Remaining(owner0, i, INDIRECT, 13 + j)
        invariant Own(sb, Now(), owner, i, j, 0) && TruncInv(sb, im0, Now(), i, INDIRECT)
      {
        EntryAddr(Now(), i, j);
        TruncOne(i, j, GetWord(a, j), im0, owner0);
        j := j + 1;
      }
    }

    /** Discard the contents of file i: each of its blocks is freed, exactly once, and no other file
        is affected. */
    method Itrunc(i: nat)
      requires Valid() && i < sb.ninodes
      modifies this`blocks, this`core, this`udsk, this`owner
      ensures Valid() && owner == Remaining(old(owner), i, NSLOT, NSLOT)
      ensures core[i] == old(core)[i].(size := 0, addrs := core[i].addrs)
      ensures forall l :: 0 <= l < NSLOT ==> Addr(Now(), i, l) == 0
      ensures OnDisk(sb, Now(), i) == core[i] && OtherFiles(sb, old(Now()), Now(), i)
    {
      hide Own, Used, Remaining, FreeImg, TruncInv, GetWord, Addr, OnDisk, OtherFiles, UpdateImg;
      ghost var im0, owner0 := Now(), owner;
      TruncDirects(i);
      var ind := core[i].addrs[INDIRECT];
      if ind != 0 {
        TruncEntries(i, im0, owner0);
        ghost var im := Now();
        TruncIndirect(sb, im0, im, owner0, i);
        Bfree(ind);
        core := core[i := core[i].(addrs := core[i].addrs[INDIRECT := 0])];
        owner := Remaining(owner0, i, NSLOT, NSLOT);
        assert Now() == Store(FreeImg(sb, im, ind), i, INDIRECT, 0);
      } else {
        TruncNoIndirect(sb, im0, Now(), owner0, i);
      }
      ghost var im1 := Now();
      core := core[i := core[i].(size := 0)];
      ResizeFacts(sb, im1, owner, i, 0);
      assert Now() == Resize(im1, i, 0);
      Iupdate(i);
      TruncDone(sb, im0, im1, Now(), owner, i);
    }
  }
}
