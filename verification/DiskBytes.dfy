/**
 The format of fs.h read off the disk as one array of bytes, without the functions that pack and
 unpack blocks: where an inode lies and in which order its fields, which bit stands for a block, and
 which byte of the disk a byte of a file is.
 */
module DiskBytes {
  import opened DiskFormat
  import opened FileImage

  function DiskByte(blocks: seq<Block>, at: nat): Byte
    requires at < |blocks| * BSIZE
  {
    blocks[at / BSIZE][at % BSIZE]
  }

  /** The number that n bytes of the disk stand for, low byte first. */
  function Number(blocks: seq<Block>, at: nat, n: nat): nat
    requires at + n <= |blocks| * BSIZE
    decreases n
  {
    if n == 0 then 0 else DiskByte(blocks, at) as nat + 0x100 * Number(blocks, at + 1, n - 1)
  }

  lemma ByteOf(blocks: seq<Block>, b: nat, o: nat)
    requires b < |blocks| && o < BSIZE
    ensures BSIZE * b + o < |blocks| * BSIZE && DiskByte(blocks, BSIZE * b + o) == blocks[b][o]
  {
  }

  lemma FourBytes(blocks: seq<Block>, at: nat)
    requires at + 4 <= |blocks| * BSIZE
    ensures Number(blocks, at, 4) == Number(blocks, at, 2) + 0x1_0000 * Number(blocks, at + 2, 2)
    ensures Number(blocks, at, 2) == DiskByte(blocks, at) as nat + 0x100 * DiskByte(blocks, at + 1) as nat
    ensures Number(blocks, at + 2, 2) == DiskByte(blocks, at + 2) as nat + 0x100 * DiskByte(blocks, at + 3) as nat
  {
    hide DiskByte;
    assert Number(blocks, at + 2, 0) == 0 && Number(blocks, at + 4, 0) == 0;
    assert Number(blocks, at + 1, 1) == DiskByte(blocks, at + 1) as nat;
    assert Number(blocks, at + 3, 1) == DiskByte(blocks, at + 3) as nat;
    assert Number(blocks, at + 1, 3) == DiskByte(blocks, at + 1) as nat + 0x100 * Number(blocks, at + 2, 2);
  }

  lemma WordNumber(blocks: seq<Block>, b: nat, j: nat)
    requires b < |blocks| && j < NINDIRECT
    ensures BSIZE * b + 4 * j + 4 <= |blocks| * BSIZE
    ensures GetWord(blocks[b], j) == Number(blocks, BSIZE * b + 4 * j, 4)
    ensures GetWord(blocks[b], j) % 0x1_0000 == Number(blocks, BSIZE * b + 4 * j, 2)
    ensures GetWord(blocks[b], j) / 0x1_0000 == Number(blocks, BSIZE * b + 4 * j + 2, 2)
  {
    hide DiskByte, Number;
    ByteOf(blocks, b, 4 * j);
    ByteOf(blocks, b, 4 * j + 1);
    ByteOf(blocks, b, 4 * j + 2);
    ByteOf(blocks, b, 4 * j + 3);
    FourBytes(blocks, BSIZE * b + 4 * j);
    HalfWords(Number(blocks, BSIZE * b + 4 * j, 2), Number(blocks, BSIZE * b + 4 * j + 2, 2));
  }

  /** Inode i occupies the 64 bytes from 64 * i on of the inode area: four shorts, the size and the
      block addresses. */
  lemma InodeBytes(sb: Super, im: Img, i: nat)
    requires Layout(sb) && |im.blocks| == sb.size && i < sb.ninodes
    ensures var ip, at := OnDisk(sb, im, i), BSIZE * sb.inodestart + 64 * i;
            && at + 64 <= |im.blocks| * BSIZE
            && ip.typ == Number(im.blocks, at, 2) && ip.major == Number(im.blocks, at + 2, 2)
            && ip.minor == Number(im.blocks, at + 4, 2) && ip.nlink == Number(im.blocks, at + 6, 2)
            && ip.size == Number(im.blocks, at + 8, 4) && |ip.addrs| == NDIRECT + 1
            && forall j :: 0 <= j <= NDIRECT ==> ip.addrs[j] == Number(im.blocks, at + 12 + 4 * j, 4)
  {
    hide GetWord, Number;
    var b, slot, at := IBlock(sb, i), i % IPB, BSIZE * sb.inodestart + 64 * i;
    assert BSIZE * b + 4 * (DWORDS * slot) == at;
    WordNumber(im.blocks, b, DWORDS * slot);
    WordNumber(im.blocks, b, DWORDS * slot + 1);
    WordNumber(im.blocks, b, DWORDS * slot + 2);
    forall j | 0 <= j <= NDIRECT
      ensures OnDisk(sb, im, i).addrs[j] == Number(im.blocks, at + 12 + 4 * j, 4)
    {
      WordNumber(im.blocks, b, DWORDS * slot + 3 + j);
    }
  }

  lemma QuotientIs(a: nat, d: nat, q: nat, r: nat)
    requires a == d * q + r && r < d
    ensures a / d == q
  {
    var e: int := q - a / d;
    assert d * e == a % d - r;
    assert e >= 1 ==> d * e >= d;
    assert e <= -1 ==> d * e + d <= 0;
  }

  lemma Halved(x: nat, h: nat, bit: nat, d: nat, q: nat, r: nat)
    requires x == 2 * h + bit && bit < 2 && h == d * q + r && r < d
    ensures x / (2 * d) == q
  {
    assert 2 * d * q == 2 * (d * q);
    QuotientIs(x, 2 * d, q, 2 * r + bit);
  }

  lemma HalfQuotient(x: nat, d: nat)
    requires d > 0
    ensures x / (2 * d) == x / 2 / d
  {
    var h := x / 2;
    assert h == d * (h / d) + h % d;
    Halved(x, h, x % 2, d, h / d, h % d);
  }

  lemma OddQuotient(x: nat, y: nat, d: nat, e: nat)
    requires d > 0 && e == 2 * d && y == x / 2
    ensures x / e % 2 == y / d % 2
  {
    HalfQuotient(x, d);
  }

  lemma {:induction false} BitNumber(x: nat, k: nat)
    ensures TestBit(x, k) <==> x / Two(k) % 2 == 1
  {
    if k == 0 {
      assert x / 1 == x;
    } else {
      var y := x / 2;
      OddQuotient(x, y, Two(k - 1), Two(k));
      BitNumber(y, k - 1);
    }
  }

  lemma BitPlace(sb: Super, b: nat)
    ensures (BSIZE * sb.bmapstart + b / 8) / BSIZE == BBlock(sb, b)
    ensures (BSIZE * sb.bmapstart + b / 8) % BSIZE == b % BPB / 8 && b % BPB % 8 == b % 8
  {
    var q, r := b / BPB, b % BPB;
    assert b == BPB * q + r && b / 8 == BSIZE * q + r / 8;
  }

  /** Block b is in use exactly when bit b % 8 of byte b / 8 of the free map is 1. */
  lemma UsedBytes(sb: Super, im: Img, b: nat)
    requires Layout(sb) && |im.blocks| == sb.size && b < sb.size
    ensures BSIZE * sb.bmapstart + b / 8 < |im.blocks| * BSIZE
    ensures Used(sb, im, b) <==> DiskByte(im.blocks, BSIZE * sb.bmapstart + b / 8) as nat / Two(b % 8) % 2 == 1
  {
    hide TestBit, Two;
    var at := BSIZE * sb.bmapstart + b / 8;
    BitPlace(sb, b);
    BitNumber(DiskByte(im.blocks, at), b % 8);
  }

  /** Byte off of a file lies in the block that address off / BSIZE of the inode names, or beyond the
      direct ones in the block named by the number off / BSIZE - NDIRECT of the indirect block. */
  lemma FileBytes(im: Img, i: nat, off: nat)
    requires i < |im.core| && InodeOk(im.core[i]) && off < im.core[i].size <= MAXFILE * BSIZE
    requires Mapped(im, i, im.core[i].size)
    ensures var addrs, bn := im.core[i].addrs, off / BSIZE;
            && (bn < NDIRECT ==>
                  0 < addrs[bn] < |im.blocks|
                  && Contents(im, i)[off] == DiskByte(im.blocks, BSIZE * addrs[bn] + off % BSIZE))
            && (bn >= NDIRECT ==>
                  && 0 < addrs[NDIRECT] < |im.blocks|
                  && var a := Number(im.blocks, BSIZE * addrs[NDIRECT] + 4 * (bn - NDIRECT), 4);
                     0 < a < |im.blocks| && Contents(im, i)[off] == DiskByte(im.blocks, BSIZE * a + off % BSIZE))
  {
    hide GetWord, Number, Contents;
    var addrs, bn := im.core[i].addrs, off / BSIZE;
    assert bn < MAXFILE && bn * BSIZE < im.core[i].size;
    var a := Addr(im, i, SlotOf(bn));
    assert (BSIZE * a + off % BSIZE) / BSIZE == a;
    if bn >= NDIRECT {
      WordNumber(im.blocks, addrs[NDIRECT], bn - NDIRECT);
    }
  }
}
