/**
 The on-disk format of fs.h at byte level: bits of the free map, little-endian words of
 indirect blocks, and disk inodes packed IPB to a block.
 */
module DiskFormat {
  const BSIZE := 512
  const NDIRECT := 12
  const NINDIRECT := 128
  const MAXFILE := 140
  const BPB := 4096
  const IPB := 8
  const T_DEV := 3

  type Byte = b: nat | b < 256
  type Block = b: seq<Byte> | |b| == 512 witness seq(512, i => 0)

  function Zeroes(): (z: Block)
    ensures forall i :: 0 <= i < 512 ==> z[i] == 0
  {
    seq(512, i => 0)
  }

  // ----- Bits -----

  function Two(w: nat): (r: nat)
    ensures r > 0
  {
    if w == 0 then 1 else 2 * Two(w - 1)
  }

  /** x & (1 << k) is not 0. */
  predicate TestBit(x: nat, k: nat) {
    if k == 0 then x % 2 == 1 else TestBit(x / 2, k - 1)
  }

  /** x | (1 << k), for an x of w bits. */
  function OrBit(x: nat, k: nat, w: nat): (r: nat)
    requires k < w && x < Two(w)
    ensures r < Two(w)
  {
    if k == 0 then x - x % 2 + 1 else 2 * OrBit(x / 2, k - 1, w - 1) + x % 2
  }

  /** x & ~(1 << k) */
  function AndNotBit(x: nat, k: nat): (r: nat)
    ensures r <= x
  {
    if k == 0 then x - x % 2 else 2 * AndNotBit(x / 2, k - 1) + x % 2
  }

  lemma {:induction false} OrTest(x: nat, k: nat, w: nat, j: nat)
    requires k < w && x < Two(w)
    ensures TestBit(OrBit(x, k, w), j) <==> j == k || TestBit(x, j)
  {
    if k > 0 && j > 0 {
      OrTest(x / 2, k - 1, w - 1, j - 1);
      assert OrBit(x, k, w) / 2 == OrBit(x / 2, k - 1, w - 1);
    } else if j > 0 {
      assert OrBit(x, k, w) / 2 == x / 2;
    }
  }

  lemma {:induction false} AndNotTest(x: nat, k: nat, j: nat)
    ensures TestBit(AndNotBit(x, k), j) <==> j != k && TestBit(x, j)
  {
    if k > 0 && j > 0 {
      AndNotTest(x / 2, k - 1, j - 1);
      assert AndNotBit(x, k) / 2 == AndNotBit(x / 2, k - 1);
    } else if j > 0 {
      assert AndNotBit(x, k) / 2 == x / 2;
    }
  }

  lemma EightBits()
    ensures Two(8) == 256
  {
    assert Two(4) == 16;
  }

  predicate Test(x: Byte, k: nat)
    requires k < 8
  {
    TestBit(x, k)
  }

  function Or(x: Byte, k: nat): (r: Byte)
    requires k < 8
  {
    EightBits();
    OrBit(x, k, 8)
  }

  function AndNot(x: Byte, k: nat): (r: Byte)
    requires k < 8
  {
    AndNotBit(x, k)
  }

  predicate GetBit(blk: Block, i: nat)
    requires i < BPB
  {
    Test(blk[i / 8], i % 8)
  }

  function SetBit(blk: Block, i: nat): Block
    requires i < BPB
  {
    blk[i / 8 := Or(blk[i / 8], i % 8)]
  }

  function ClearBit(blk: Block, i: nat): Block
    requires i < BPB
  {
    blk[i / 8 := AndNot(blk[i / 8], i % 8)]
  }

  lemma BitAfter(blk: Block, i: nat, j: nat)
    requires i < BPB && j < BPB
    ensures GetBit(SetBit(blk, i), j) <==> i == j || GetBit(blk, j)
    ensures GetBit(ClearBit(blk, i), j) <==> i != j && GetBit(blk, j)
  {
    hide TestBit, OrBit, AndNotBit, Two;
    EightBits();
    OrTest(blk[i / 8], i % 8, 8, j % 8);
    AndNotTest(blk[i / 8], i % 8, j % 8);
  }

  // ----- Words -----

  type Word = w: nat | w < 0x1_0000_0000

  function GetWord(blk: Block, i: nat): (w: Word)
    requires i < NINDIRECT
  {
    blk[4 * i] as nat + 0x100 * blk[4 * i + 1] as nat + 0x1_0000 * blk[4 * i + 2] as nat
    + 0x100_0000 * blk[4 * i + 3] as nat
  }

  function SetWord(blk: Block, i: nat, w: Word): (r: Block)
    requires i < NINDIRECT
  {
    blk[4 * i := w % 0x100][4 * i + 1 := w / 0x100 % 0x100]
       [4 * i + 2 := w / 0x1_0000 % 0x100][4 * i + 3 := w / 0x100_0000]
  }

  lemma WordAfter(blk: Block, i: nat, w: Word, j: nat)
    requires i < NINDIRECT && j < NINDIRECT
    ensures GetWord(SetWord(blk, i, w), j) == if i == j then w else GetWord(blk, j)
  {
    SplitWord(w);
    var r := SetWord(blk, i, w);
    if i == j {
      assert r[4 * i] == w % 0x100 && r[4 * i + 1] == w / 0x100 % 0x100;
    } else {
      assert forall k :: 4 * j <= k < 4 * j + 4 ==> r[k] == blk[k];
    }
  }

  lemma SplitWord(w: Word)
    ensures w == w % 0x100 + 0x100 * (w / 0x100 % 0x100) + 0x1_0000 * (w / 0x1_0000 % 0x100)
                 + 0x100_0000 * (w / 0x100_0000)
  {
    assert w / 0x100 / 0x100 == w / 0x1_0000 && w / 0x1_0000 / 0x100 == w / 0x100_0000;
  }

  lemma ZeroWords(j: nat)
    requires j < NINDIRECT
    ensures GetWord(Zeroes(), j) == 0
  {
  }

  // ----- Disk inodes -----

  /** struct dinode; the four shorts are taken as 16-bit patterns. */
  datatype Inode = Inode(typ: nat, major: nat, minor: nat, nlink: nat, size: nat, addrs: seq<nat>)

  predicate InodeOk(ip: Inode) {
    && ip.typ < 0x1_0000 && ip.major < 0x1_0000 && ip.minor < 0x1_0000 && ip.nlink < 0x1_0000
    && ip.size < 0x1_0000_0000
    && |ip.addrs| == NDIRECT + 1 && forall j :: 0 <= j < |ip.addrs| ==> ip.addrs[j] < 0x1_0000_0000
  }

  const DWORDS := 16 // words per disk inode

  function InodeWord(ip: Inode, j: nat): Word
    requires InodeOk(ip) && j < DWORDS
  {
    if j == 0 then ip.typ + 0x1_0000 * ip.major
    else if j == 1 then ip.minor + 0x1_0000 * ip.nlink
    else if j == 2 then ip.size
    else ip.addrs[j - 3]
  }

  function PutWords(blk: Block, slot: nat, ip: Inode, j: nat): Block
    requires slot < IPB && InodeOk(ip) && j <= DWORDS
    decreases j
  {
    if j == 0 then blk
    else SetWord(PutWords(blk, slot, ip, j - 1), DWORDS * slot + j - 1, InodeWord(ip, j - 1))
  }

  /** The block after iupdate stored ip in its slot. */
  function PutInode(blk: Block, slot: nat, ip: Inode): Block
    requires slot < IPB && InodeOk(ip)
  {
    PutWords(blk, slot, ip, DWORDS)
  }

  function GetInode(blk: Block, slot: nat): (ip: Inode)
    requires slot < IPB
  {
    var w0, w1 := GetWord(blk, DWORDS * slot), GetWord(blk, DWORDS * slot + 1);
    Inode(w0 % 0x1_0000, w0 / 0x1_0000, w1 % 0x1_0000, w1 / 0x1_0000, GetWord(blk, DWORDS * slot + 2),
          Words(blk, DWORDS * slot + 3, NDIRECT + 1))
  }

  function Words(blk: Block, from: nat, n: nat): (ws: seq<nat>)
    requires from + n <= NINDIRECT
    ensures |ws| == n && forall j :: 0 <= j < n ==> ws[j] == GetWord(blk, from + j)
  {
    if n == 0 then [] else Words(blk, from, n - 1) + [GetWord(blk, from + n - 1)]
  }

  lemma {:induction false} PutWordsAfter(blk: Block, slot: nat, ip: Inode, j: nat, k: nat)
    requires slot < IPB && InodeOk(ip) && j <= DWORDS && k < NINDIRECT
    ensures GetWord(PutWords(blk, slot, ip, j), k) ==
            if DWORDS * slot <= k < DWORDS * slot + j then InodeWord(ip, k - DWORDS * slot) else GetWord(blk, k)
  {
    hide GetWord, SetWord;
    if j > 0 {
      PutWordsAfter(blk, slot, ip, j - 1, k);
      WordAfter(PutWords(blk, slot, ip, j - 1), DWORDS * slot + j - 1, InodeWord(ip, j - 1), k);
    }
  }

  lemma InodeWordAfter(blk: Block, s: nat, ip: Inode, t: nat, j: nat)
    requires s < IPB && t < IPB && InodeOk(ip) && j < DWORDS
    ensures GetWord(PutInode(blk, s, ip), DWORDS * t + j) ==
            if s == t then InodeWord(ip, j) else GetWord(blk, DWORDS * t + j)
  {
    hide GetWord, PutWords, InodeOk;
    PutWordsAfter(blk, s, ip, DWORDS, DWORDS * t + j);
  }

  /** Storing an inode changes that inode of the block and no other. */
  lemma InodeAfter(blk: Block, s: nat, ip: Inode, t: nat)
    requires s < IPB && t < IPB && InodeOk(ip)
    ensures GetInode(PutInode(blk, s, ip), t) == if s == t then ip else GetInode(blk, t)
  {
    hide GetWord, PutInode;
    InodeWordAfter(blk, s, ip, t, 0);
    InodeWordAfter(blk, s, ip, t, 1);
    InodeWordAfter(blk, s, ip, t, 2);
    HalfWords(ip.typ, ip.major);
    HalfWords(ip.minor, ip.nlink);
    var r := GetInode(PutInode(blk, s, ip), t);
    forall j | 0 <= j < NDIRECT + 1
      ensures r.addrs[j] == if s == t then ip.addrs[j] else GetInode(blk, t).addrs[j]
    {
      InodeWordAfter(blk, s, ip, t, 3 + j);
      assert DWORDS * t + 3 + j == DWORDS * t + (3 + j);
    }
    assert r.addrs == if s == t then ip.addrs else GetInode(blk, t).addrs;
  }

  lemma HalfWords(lo: nat, hi: nat)
    requires lo < 0x1_0000 && hi < 0x1_0000
    ensures (lo + 0x1_0000 * hi) % 0x1_0000 == lo && (lo + 0x1_0000 * hi) / 0x1_0000 == hi
  {
  }
}
