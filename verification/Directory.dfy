/**
 Directories (dirlookup and dirlink of fs.c): files of 16-byte entries, each an inode number and a
 name of up to DIRSIZ bytes, read and written through readi and writei, and proved to be maps from
 names to inode numbers.
 */
module Directory {
  import opened Common
  import opened DiskFormat
  import opened FileImage
  import opened FileSys

  const ENTRY := 16

  // ----- Names -----

  /** The first n bytes of a C string, without its NUL. */
  function Cut(s: seq<Byte>, n: nat): (r: seq<Byte>)
    ensures |r| <= n && |r| <= |s| && r == s[..|r|]
    ensures forall i :: 0 <= i < |r| ==> r[i] != 0
    ensures |r| < n && |r| < |s| ==> s[|r|] == 0
  {
    if n == 0 || s == [] || s[0] == 0 then [] else [s[0]] + Cut(s[1..], n - 1)
  }

  function NameOf(s: seq<Byte>): seq<Byte> {
    Cut(s, DIRSIZ)
  }

  function CharAt(s: seq<Byte>, i: nat): Byte {
    if i < |s| then s[i] else 0
  }

  lemma CutStops(s: seq<Byte>, n: nat)
    ensures |Cut(s, n)| < n ==> CharAt(s, |Cut(s, n)|) == 0
  {
  }

  lemma CutReach(s: seq<Byte>, n: nat, k: nat)
    requires k <= n && forall i :: 0 <= i < k ==> CharAt(s, i) != 0
    ensures |Cut(s, n)| >= k && (forall i :: 0 <= i < k ==> Cut(s, n)[i] == CharAt(s, i))
    ensures k < n ==> (|Cut(s, n)| == k <==> CharAt(s, k) == 0)
    ensures k < n && |Cut(s, n)| > k ==> Cut(s, n)[k] == CharAt(s, k)
  {
    CutStops(s, n);
  }

  /** Two strings agree in their first k characters and differ or end there. */
  lemma CutSame(s: seq<Byte>, t: seq<Byte>, n: nat, k: nat)
    requires k <= n && (forall i :: 0 <= i < k ==> CharAt(s, i) == CharAt(t, i) != 0)
    requires k < n ==> (CharAt(s, k) != CharAt(t, k) || CharAt(s, k) == 0)
    ensures Cut(s, n) == Cut(t, n) <==> k == n || CharAt(s, k) == CharAt(t, k)
  {
    CutReach(s, n, k);
    CutReach(t, n, k);
    var a, b := Cut(s, n), Cut(t, n);
    assert |a| <= n && |b| <= n;
    hide Cut;
    if k == n || CharAt(s, k) == CharAt(t, k) {
      assert |a| == |b| == k;
      assert a == b;
    } else {
      assert |a| == k ==> |b| != k;
    }
  }

  /** namecmp: strncmp over DIRSIZ characters. */
  method NameCmp(s: seq<Byte>, t: seq<Byte>) returns (same: bool)
    ensures same <==> NameOf(s) == NameOf(t)
  {
    var i := 0;
    while i < DIRSIZ && CharAt(s, i) != 0 && CharAt(s, i) == CharAt(t, i)
      invariant i <= DIRSIZ && forall j :: 0 <= j < i ==> CharAt(s, j) == CharAt(t, j) != 0
    {
      i := i + 1;
    }
    CutSame(s, t, DIRSIZ, i);
    return i == DIRSIZ || CharAt(s, i) == CharAt(t, i);
  }

  /** strncpy: the name, padded with NULs. */
  function Pad(name: seq<Byte>): (r: seq<Byte>)
    ensures |r| == DIRSIZ
  {
    seq(DIRSIZ, i requires 0 <= i < DIRSIZ => CharAt(NameOf(name), i))
  }

  lemma PadName(name: seq<Byte>)
    ensures NameOf(Pad(name)) == NameOf(name)
  {
    var a, b := NameOf(Pad(name)), NameOf(name);
    assert forall i :: 0 <= i < |b| ==> Pad(name)[i] == b[i] != 0;
    assert |b| < DIRSIZ ==> Pad(name)[|b|] == 0;
  }

  // ----- Entries -----

  ghost predicate DirFile(s: seq<Byte>) {
    |s| % ENTRY == 0
  }

  function Entry(s: seq<Byte>, e: nat): seq<Byte>
    requires ENTRY * e + ENTRY <= |s|
  {
    s[ENTRY * e..ENTRY * e + ENTRY]
  }

  function Inum(de: seq<Byte>): nat
    requires |de| == ENTRY
  {
    de[0] as nat + 256 * de[1] as nat
  }

  function MakeEntry(inum: nat, name: seq<Byte>): (de: seq<Byte>)
    requires inum < 0x1_0000
    ensures |de| == ENTRY
  {
    [inum % 256, inum / 256] + Pad(name)
  }

  lemma EntryParts(inum: nat, name: seq<Byte>)
    requires inum < 0x1_0000
    ensures var de := MakeEntry(inum, name); Inum(de) == inum && NameOf(de[2..]) == NameOf(name)
  {
    PadName(name);
    assert MakeEntry(inum, name)[2..] == Pad(name);
  }

  /** Entry e is in use and has the name. */
  predicate Names(s: seq<Byte>, e: nat, name: seq<Byte>)
    requires ENTRY * e + ENTRY <= |s|
  {
    Inum(Entry(s, e)) != 0 && NameOf(Entry(s, e)[2..]) == name
  }

  /** The position of the first entry from e on with the name. */
  function Find(s: seq<Byte>, e: nat, name: seq<Byte>): (r: Option<nat>)
    ensures r.Some? ==> e <= r.value && ENTRY * r.value + ENTRY <= |s| && Names(s, r.value, name)
    ensures forall d :: e <= d && ENTRY * d + ENTRY <= |s| && (r.Some? ==> d < r.value) ==> !Names(s, d, name)
    decreases |s| - ENTRY * e
  {
    if ENTRY * e + ENTRY > |s| then None
    else if Names(s, e, name) then Some(e)
    else Find(s, e + 1, name)
  }

  /** The directory as a map: the inode number of a name. */
  function Lookup(s: seq<Byte>, name: seq<Byte>): Option<nat> {
    var e := Find(s, 0, name);
    if e.Some? then Some(Inum(Entry(s, e.value))) else None
  }

  predicate Free(s: seq<Byte>, e: nat) {
    ENTRY * e + ENTRY <= |s| && Inum(Entry(s, e)) == 0
  }

  /** The first free entry from e on, or the place behind the last entry. */
  function FreeSlot(s: seq<Byte>, e: nat): (r: nat)
    requires ENTRY * e <= |s| && DirFile(s)
    ensures e <= r && ENTRY * r <= |s| && (ENTRY * r < |s| ==> Free(s, r))
    ensures forall d :: e <= d < r ==> !Free(s, d)
    decreases |s| - ENTRY * e
  {
    if ENTRY * e == |s| || Free(s, e) then e else FreeSlot(s, e + 1)
  }

  /** No name stands in two entries in use. */
  ghost predicate Distinct(s: seq<Byte>) {
    forall d, e, name :: 0 <= d < e && ENTRY * e + ENTRY <= |s| ==> !(Names(s, d, name) && Names(s, e, name))
  }

  // ----- The map, read off the bytes -----

  /** The 16 bytes of entry e are the number, low byte first, and the name, with a NUL behind it if it
      is shorter than DIRSIZ. */
  predicate Says(s: seq<Byte>, e: nat, inum: nat, name: seq<Byte>) {
    && 16 * e + 16 <= |s| && s[16 * e] as nat + 256 * s[16 * e + 1] as nat == inum && |name| <= DIRSIZ
    && (forall j :: 0 <= j < |name| ==> s[16 * e + 2 + j] == name[j] != 0)
    && (|name| < DIRSIZ ==> s[16 * e + 2 + |name|] == 0)
  }

  lemma CutIs(t: seq<Byte>, name: seq<Byte>)
    requires |t| == DIRSIZ
    ensures NameOf(t) == name <==>
            && |name| <= DIRSIZ && (forall j :: 0 <= j < |name| ==> t[j] == name[j] != 0)
            && (|name| < DIRSIZ ==> t[|name|] == 0)
  {
    var c := NameOf(t);
    hide Cut;
    if && |name| <= DIRSIZ && (forall j :: 0 <= j < |name| ==> t[j] == name[j] != 0)
       && (|name| < DIRSIZ ==> t[|name|] == 0) {
      assert |c| == |name|;
      assert c == name;
    }
  }

  lemma EntrySays(s: seq<Byte>, e: nat, name: seq<Byte>)
    requires ENTRY * e + ENTRY <= |s|
    ensures Says(s, e, Inum(Entry(s, e)), name) <==> NameOf(Entry(s, e)[2..]) == name
  {
    var t := Entry(s, e)[2..];
    CutIs(t, name);
    assert forall j :: 0 <= j < DIRSIZ ==> t[j] == s[16 * e + 2 + j];
  }

  /** No entry in use before entry e spells the name. */
  ghost predicate UnusedBefore(s: seq<Byte>, e: nat, name: seq<Byte>) {
    forall d: nat, i: nat :: d < e && Says(s, d, i, name) ==> i == 0
  }

  /** A directory maps a name to the number in the first entry in use that spells the name. */
  lemma LookupBytes(s: seq<Byte>, name: seq<Byte>, inum: nat)
    ensures Lookup(s, name) == Some(inum) <==>
            inum != 0 && exists e: nat :: Says(s, e, inum, name) && UnusedBefore(s, e, name)
  {
    hide Says, NameOf;
    var r := Find(s, 0, name);
    forall e: nat, i: nat
      ensures Says(s, e, i, name) && i != 0 <==>
              ENTRY * e + ENTRY <= |s| && Names(s, e, name) && i == Inum(Entry(s, e))
    {
      if Says(s, e, i, name) { SaysInum(s, e, i, name); }
      if ENTRY * e + ENTRY <= |s| { EntrySays(s, e, name); }
    }
    if r.Some? {
      var i := Inum(Entry(s, r.value));
      assert Says(s, r.value, i, name) && UnusedBefore(s, r.value, name);
    }
  }

  lemma SaysInum(s: seq<Byte>, e: nat, inum: nat, name: seq<Byte>)
    requires Says(s, e, inum, name)
    ensures ENTRY * e + ENTRY <= |s| && inum == Inum(Entry(s, e))
  {
  }

  // ----- What dirlink does to the map -----

  lemma EntrySpliced(s: seq<Byte>, r: nat, de: seq<Byte>, e: nat)
    requires DirFile(s) && ENTRY * r <= |s| && |de| == ENTRY
    ensures var t := Splice(s, ENTRY * r, de);
            && DirFile(t) && ENTRY * r + ENTRY <= |t|
            && (ENTRY * e + ENTRY <= |t| ==> (e == r || ENTRY * e + ENTRY <= |s|)
                                              && Entry(t, e) == if e == r then de else Entry(s, e))
            && (ENTRY * e + ENTRY <= |s| ==> ENTRY * e + ENTRY <= |t|)
  {
  }

  lemma LinkedMap(s: seq<Byte>, r: nat, inum: nat, name: seq<Byte>, n: seq<Byte>)
    requires DirFile(s) && ENTRY * r <= |s| && (ENTRY * r < |s| ==> Free(s, r)) && 0 < inum < 0x1_0000
    requires Lookup(s, NameOf(name)) == None
    ensures var t := Splice(s, ENTRY * r, MakeEntry(inum, name));
            DirFile(t) && Lookup(t, n) == if n == NameOf(name) then Some(inum) else Lookup(s, n)
  {
    var t := Splice(s, ENTRY * r, MakeEntry(inum, name));
    hide Splice, MakeEntry, NameOf, Entry, Inum, DirFile, Names, Free, Find;
    SlotInside(s, r, inum, name);
    var b := Find(s, 0, n);
    FindFacts(s, n);
    FindFacts(s, NameOf(name));
    forall e: nat | ENTRY * e + ENTRY <= |t|
      ensures e == r || ENTRY * e + ENTRY <= |s|
      ensures Names(t, e, n) <==> if e == r then n == NameOf(name) else Names(s, e, n)
    {
      NamesAfter(s, r, inum, name, n, e);
    }
    if n == NameOf(name) {
      FindIs(t, n, r);
      NamesAfter(s, r, inum, name, n, r);
    } else if b.Some? {
      FindIs(t, n, b.value);
      NamesAfter(s, r, inum, name, n, b.value);
    } else {
      FindNone(t, n);
    }
  }

  lemma FindFacts(s: seq<Byte>, n: seq<Byte>)
    ensures var b := Find(s, 0, n);
            && (b.Some? ==> ENTRY * b.value + ENTRY <= |s| && Names(s, b.value, n))
            && (forall d: nat :: ENTRY * d + ENTRY <= |s| && (b.Some? ==> d < b.value) ==> !Names(s, d, n))
  {
  }

  lemma FindIs(s: seq<Byte>, n: seq<Byte>, e: nat)
    requires ENTRY * e + ENTRY <= |s| && Names(s, e, n) && forall d: nat :: d < e ==> !Names(s, d, n)
    ensures Find(s, 0, n) == Some(e)
  {
    hide Names;
    var b := Find(s, 0, n);
    assert b.Some? && b.value <= e;
  }

  lemma FindNone(s: seq<Byte>, n: seq<Byte>)
    requires forall d: nat :: ENTRY * d + ENTRY <= |s| ==> !Names(s, d, n)
    ensures Find(s, 0, n) == None
  {
    hide Names;
  }

  lemma SlotInside(s: seq<Byte>, r: nat, inum: nat, name: seq<Byte>)
    requires DirFile(s) && ENTRY * r <= |s| && inum < 0x1_0000 && (ENTRY * r < |s| ==> Free(s, r))
    ensures var t := Splice(s, ENTRY * r, MakeEntry(inum, name));
            DirFile(t) && ENTRY * r + ENTRY <= |t| && |s| <= |t| &&
            forall n :: ENTRY * r + ENTRY <= |s| ==> !Names(s, r, n)
  {
    EntrySpliced(s, r, MakeEntry(inum, name), r);
  }

  lemma NamesAfter(s: seq<Byte>, r: nat, inum: nat, name: seq<Byte>, n: seq<Byte>, e: nat)
    requires DirFile(s) && ENTRY * r <= |s| && 0 < inum < 0x1_0000
    ensures var t := Splice(s, ENTRY * r, MakeEntry(inum, name));
            ENTRY * e + ENTRY <= |t| ==>
              && (e == r || ENTRY * e + ENTRY <= |s|)
              && (Names(t, e, n) <==> if e == r then n == NameOf(name) else Names(s, e, n))
              && Inum(Entry(t, e)) == if e == r then inum else Inum(Entry(s, e))
  {
    EntryParts(inum, name);
    EntrySpliced(s, r, MakeEntry(inum, name), e);
    hide Splice, MakeEntry, NameOf;
  }

  /** And no name gets a second entry. */
  lemma LinkedDistinct(s: seq<Byte>, r: nat, inum: nat, name: seq<Byte>)
    requires DirFile(s) && ENTRY * r <= |s| && (ENTRY * r < |s| ==> Free(s, r)) && 0 < inum < 0x1_0000
    requires Lookup(s, NameOf(name)) == None && Distinct(s)
    ensures Distinct(Splice(s, ENTRY * r, MakeEntry(inum, name)))
  {
    var t, de := Splice(s, ENTRY * r, MakeEntry(inum, name)), MakeEntry(inum, name);
    EntryParts(inum, name);
    assert Find(s, 0, NameOf(name)) == None;
    forall d, e, n | 0 <= d < e && ENTRY * e + ENTRY <= |t|
      ensures !(Names(t, d, n) && Names(t, e, n))
    {
      EntrySpliced(s, r, de, d);
      EntrySpliced(s, r, de, e);
      if d == r {
        assert !Names(s, e, NameOf(name));
        assert Names(t, e, n) <==> Names(s, e, n);
      } else {
        assert Names(t, d, n) <==> Names(s, d, n);
        if e == r {
          assert !Names(s, d, NameOf(name));
        } else {
          assert Names(t, e, n) <==> Names(s, e, n);
        }
      }
    }
  }

  /** dp is a directory of fs whose bytes are s. */
  ghost predicate DirOf(fs: FileSystem, dp: nat, s: seq<Byte>)
    reads fs
  {
    && fs.Valid() && dp < fs.sb.ninodes && FileOk(fs.sb, fs.Now(), dp) && fs.core[dp].typ != T_DEV
    && Contents(fs.Now(), dp) == s && DirFile(s)
  }

  /** readi of one entry; the directory is whole entries, so the read is never short. */
  method ReadEntry(fs: FileSystem, dp: nat, e: nat, ghost s: seq<Byte>) returns (de: seq<Byte>)
    requires DirOf(fs, dp, s) && ENTRY * e < |s|
    modifies fs`blocks, fs`core, fs`udsk, fs`owner
    ensures DirOf(fs, dp, s) && fs.Now() == old(fs.Now()) && fs.udsk == old(fs.udsk)
    ensures ENTRY * e + ENTRY <= |s| && de == Entry(s, e)
  {
    hide Own, Contents;
    SizeOk(fs.sb, fs.Now(), dp);
    ContentsSize(fs, dp, s);
    var n: int;
    n, de := fs.Readi(dp, ENTRY * e, ENTRY);
  }

  lemma ContentsSize(fs: FileSystem, dp: nat, s: seq<Byte>)
    requires DirOf(fs, dp, s)
    ensures dp < |fs.core| && |s| == fs.core[dp].size <= MAXFILE * BSIZE
  {
    hide Own;
  }

  /** dirlookup in directory dp: the inode number and the offset of the entry. */
  method DirLookup(fs: FileSystem, dp: nat, name: seq<Byte>, ghost s: seq<Byte>) returns (r: Option<(nat, nat)>)
    requires DirOf(fs, dp, s)
    modifies fs`blocks, fs`core, fs`udsk, fs`owner
    ensures DirOf(fs, dp, s) && fs.Now() == old(fs.Now()) && fs.udsk == old(fs.udsk)
    ensures Lookup(s, NameOf(name)) == (if r.None? then None else Some(r.value.0))
    ensures r.Some? ==> Find(s, 0, NameOf(name)) == Some(r.value.1 / ENTRY) && r.value.1 % ENTRY == 0
  {
    hide DirOf, Find;
    ContentsSize(fs, dp, s);
    var off := 0;
    ghost var e := 0;
    while off < fs.core[dp].size
      invariant DirOf(fs, dp, s) && fs.Now() == old(fs.Now()) && fs.udsk == old(fs.udsk) && off == ENTRY * e <= |s|
      invariant Find(s, e, NameOf(name)) == Find(s, 0, NameOf(name)) && dp < |fs.core| && fs.core[dp].size == |s|
      decreases |s| - off
    {
      FindStep(s, e, NameOf(name));
      var de := ReadEntry(fs, dp, off / ENTRY, s);
      if Inum(de) != 0 {
        var same := NameCmp(name, de[2..]);
        if same {
          return Some((Inum(de), off));
        }
      }
      off := off + ENTRY;
      e := e + 1;
    }
    FindStep(s, e, NameOf(name));
    return None;
  }

  /** The second loop of dirlink: the offset of the first free entry, or the end. */
  method FreeOffset(fs: FileSystem, dp: nat, ghost s: seq<Byte>) returns (off: nat)
    requires DirOf(fs, dp, s)
    modifies fs`blocks, fs`core, fs`udsk, fs`owner
    ensures DirOf(fs, dp, s) && fs.Now() == old(fs.Now()) && fs.udsk == old(fs.udsk)
    ensures DirFile(s) && off == ENTRY * FreeSlot(s, 0)
  {
    hide DirOf, FreeSlot, DirFile;
    DirWhole(fs, dp, s);
    ContentsSize(fs, dp, s);
    off := 0;
    ghost var e := 0;
    while off < fs.core[dp].size
      invariant DirOf(fs, dp, s) && fs.Now() == old(fs.Now()) && fs.udsk == old(fs.udsk) && off == ENTRY * e <= |s|
      invariant FreeSlot(s, e) == FreeSlot(s, 0) && dp < |fs.core| && fs.core[dp].size == |s|
      decreases |s| - off
    {
      SlotStep(s, e);
      var de := ReadEntry(fs, dp, off / ENTRY, s);
      if Inum(de) == 0 {
        break;
      }
      off := off + ENTRY;
      e := e + 1;
    }
    SlotStep(s, e);
  }

  lemma DirWhole(fs: FileSystem, dp: nat, s: seq<Byte>)
    requires DirOf(fs, dp, s)
    ensures DirFile(s)
  {
  }

  lemma SlotFacts(s: seq<Byte>)
    requires DirFile(s)
    ensures var r := FreeSlot(s, 0); ENTRY * r <= |s| && (ENTRY * r < |s| ==> Free(s, r))
  {
  }

  lemma SlotStep(s: seq<Byte>, e: nat)
    requires DirFile(s) && ENTRY * e <= |s|
    ensures ENTRY * e == |s| || ENTRY * e + ENTRY <= |s|
    ensures FreeSlot(s, e) == if ENTRY * e == |s| || Free(s, e) then e else FreeSlot(s, e + 1)
  {
  }

  /** 0, -1, and the panics of dirlink for a directory of maximal size, of balloc for a full disk, and,
      past the quota, of the disk driver. */
  datatype LinkResult = Linked | Exists | Panics

  /** writei of n bytes at off is in range. */
  ghost predicate Room(sb: Super, im: Img, dp: nat, off: nat, n: nat) {
    Shape(sb, im) && dp < sb.ninodes && WriteFits(im.core[dp].size, off, n)
  }

  /** And within the quota. */
  ghost predicate Paid(sb: Super, im: Img, udsk: nat, mdsk: nat, dp: nat, off: nat, n: nat) {
    Room(sb, im, dp, off, n) && udsk + Demand(im, dp, off / BSIZE, EndBlock(off, n)) <= mdsk
  }

  /** Every block of the directory below its size is there. */
  ghost predicate Whole(fs: FileSystem, dp: nat)
    reads fs
  {
    Shape(fs.sb, fs.Now()) && dp < fs.sb.ninodes && FileOk(fs.sb, fs.Now(), dp)
  }

  /** All files but dp are as in im. */
  ghost predicate OthersAre(fs: FileSystem, im: Img, dp: nat)
    reads fs
  {
    Shape(fs.sb, im) && Shape(fs.sb, fs.Now()) && OtherFiles(fs.sb, im, fs.Now(), dp)
  }

  ghost predicate NoBlocks(fs: FileSystem)
    reads fs
  {
    Shape(fs.sb, fs.Now()) && fs.Full()
  }

  /** writei of one entry, and the panic of dirlink if it does not write all of it. */
  method WriteEntry(fs: FileSystem, dp: nat, off: nat, de: seq<Byte>, ghost s: seq<Byte>) returns (ok: bool)
    requires DirOf(fs, dp, s) && off % ENTRY == 0 && off <= |s| && |de| == ENTRY
    modifies fs`blocks, fs`core, fs`udsk, fs`owner
    ensures ok ==> old(Room(fs.sb, fs.Now(), dp, off, ENTRY))
    ensures ok ==> (Whole(fs, dp) <==> old(Paid(fs.sb, fs.Now(), fs.udsk, fs.mdsk, dp, off, ENTRY)))
    ensures ok && Whole(fs, dp) ==> DirOf(fs, dp, Splice(s, off, de)) && OthersAre(fs, old(fs.Now()), dp)
    ensures !ok ==> NoBlocks(fs) || !old(Paid(fs.sb, fs.Now(), fs.udsk, fs.mdsk, dp, off, ENTRY))
  {
    hide Own, Contents, Demand, FileOk, OtherFiles, Mapped;
    ContentsSize(fs, dp, s);
    var n: int;
    n, ok := fs.Writei(dp, off, de);
    if ok && n != ENTRY {
      ok := false;
    }
    SpliceWhole(s, off, de);
  }

  lemma SpliceWhole(s: seq<Byte>, off: nat, de: seq<Byte>)
    requires DirFile(s) && off % ENTRY == 0 && off <= |s| && |de| == ENTRY
    ensures DirFile(Splice(s, off, de))
  {
  }

  /** dirlink: within the quota the directory, now t, maps one more name, and all other names and files
      are as before; past it dirlink reports the same, and leaves the directory with a block missing. */
  method DirLink(fs: FileSystem, dp: nat, name: seq<Byte>, inum: nat, ghost s: seq<Byte>)
      returns (r: LinkResult, ghost t: seq<Byte>)
    requires DirOf(fs, dp, s) && DirFile(s) && 0 < inum < 0x1_0000
    modifies fs`blocks, fs`core, fs`udsk, fs`owner
    ensures r == Exists <==> Lookup(s, NameOf(name)).Some?
    ensures r == Exists ==> fs.Now() == old(fs.Now()) && DirOf(fs, dp, s)
    ensures r == Linked ==> old(Room(fs.sb, fs.Now(), dp, ENTRY * FreeSlot(s, 0), ENTRY))
    ensures r == Linked ==>
              (Whole(fs, dp) <==> old(Paid(fs.sb, fs.Now(), fs.udsk, fs.mdsk, dp, ENTRY * FreeSlot(s, 0), ENTRY)))
    ensures r == Linked && Whole(fs, dp) ==> DirOf(fs, dp, t) && OthersAre(fs, old(fs.Now()), dp)
    ensures r == Linked ==> forall n :: Lookup(t, n) == if n == NameOf(name) then Some(inum) else Lookup(s, n)
    ensures r == Linked && Distinct(s) ==> Distinct(t)
    ensures r == Panics ==>
              NoBlocks(fs) || !old(Paid(fs.sb, fs.Now(), fs.udsk, fs.mdsk, dp, ENTRY * FreeSlot(s, 0), ENTRY))
  {
    hide DirOf, Room, Paid, Whole, OthersAre, NoBlocks, Lookup, Distinct, FreeSlot, NameOf;
    t := s;
    var found := DirLookup(fs, dp, name, s);
    if found.Some? {
      return Exists, s;
    }
    var off := FreeOffset(fs, dp, s);
    SlotFacts(s);
    var de := MakeEntry(inum, name);
    var ok := WriteEntry(fs, dp, off, de, s);
    if !ok {
      return Panics, s;
    }
    t := Splice(s, off, de);
    forall nm ensures Lookup(t, nm) == if nm == NameOf(name) then Some(inum) else Lookup(s, nm) {
      LinkedMap(s, FreeSlot(s, 0), inum, name, nm);
    }
    if Distinct(s) { LinkedDistinct(s, FreeSlot(s, 0), inum, name); }
    return Linked, t;
  }

  lemma FindStep(s: seq<Byte>, e: nat, name: seq<Byte>)
    ensures Find(s, e, name) ==
              if ENTRY * e + ENTRY > |s| then None else if Names(s, e, name) then Some(e) else Find(s, e + 1, name)
  {
  }
}
