/**
 The user stack that exec builds (exec.c), written through the page table by copyout (vm.c).  The
 page table is the map from page to frame that Paging and Vm prove the two-level tables to be;
 frames are not shared, and a page without the user flag is not written.  Addresses are 32 bits wide:
 an argument longer than the image makes the stack pointer wrap around into the kernel's part.
 */
module ExecStack {
  import opened Common
  import Paging
  import Vm

  const MAXARG := 32

  type Byte = x | 0 <= x < 256
  type Word = x | 0 <= x < 0x1_0000_0000

  datatype Entry = Entry(frame: nat, user: bool)

  /** Page tables and frames as exec finds them: all pages below sz are there, each frame is mapped once. */
  ghost predicate Mapped(pt: map<nat, Entry>, frames: map<nat, seq<Byte>>, sz: nat) {
    && sz % PGSIZE == 0
    && (forall p :: 0 <= p < sz / PGSIZE ==> p in pt)
    && (forall p :: p in pt ==> pt[p].frame in frames && |frames[pt[p].frame]| == PGSIZE)
    && (forall p, q :: p in pt && q in pt && pt[p].frame == pt[q].frame ==> p == q)
  }

  /** The user part of the two-level page table at dir. */
  ghost function TableOf(ram: seq<Paging.Page>, dir: nat): map<nat, Entry> {
    map v | 0 <= v < Paging.USERPAGES && Paging.Look(ram, dir, v) != 0 ::
      Entry(Paging.FrameOf(Paging.Look(ram, dir, v)), Paging.User(Paging.Look(ram, dir, v)))
  }

  /** An address space of Vm whose pages below sz are all there is one that exec can work on, whatever
      the frames hold. */
  lemma TableMapped(ram: seq<Paging.Page>, head: nat, owner: map<nat, Paging.Role>, free: seq<nat>, dir: nat,
                    frames: map<nat, seq<Byte>>, sz: nat)
    requires Paging.MemInv(ram, head, owner, free) && Paging.IsDir(owner, dir)
    requires sz % PGSIZE == 0 && sz <= Paging.KERNBASE
    requires forall v :: 0 <= v < sz / PGSIZE ==> Paging.Look(ram, dir, v) != 0
    requires forall f :: f in owner && owner[f].Data? ==> f in frames && |frames[f]| == PGSIZE
    ensures Mapped(TableOf(ram, dir), frames, sz)
  {
    hide Paging.Look, Paging.Tables, Paging.FreeList;
    var pt := TableOf(ram, dir);
    forall v | v in pt ensures pt[v].frame in owner && owner[pt[v].frame] == Paging.Data(dir, v) {
    }
  }

  /** The byte at a virtual address. */
  ghost function At(pt: map<nat, Entry>, frames: map<nat, seq<Byte>>, va: nat): int {
    if va / PGSIZE in pt && pt[va / PGSIZE].frame in frames && |frames[pt[va / PGSIZE].frame]| == PGSIZE
    then frames[pt[va / PGSIZE].frame][va % PGSIZE] else -1
  }

  /** The page below the stack is not the user's, all others are. */
  ghost predicate Guarded(pt: map<nat, Entry>, sz: nat) {
    && sz >= 2 * PGSIZE
    && forall p :: 0 <= p < sz / PGSIZE && p in pt ==> (pt[p].user <==> p != sz / PGSIZE - 2)
  }

  ghost predicate Holds(pt: map<nat, Entry>, frames: map<nat, seq<Byte>>, va: nat, s: seq<Byte>) {
    forall k :: 0 <= k < |s| ==> At(pt, frames, va + k) == s[k]
  }

  /** Memory is as before except for s at va. */
  ghost predicate Stored(pt: map<nat, Entry>, frames0: map<nat, seq<Byte>>, frames: map<nat, seq<Byte>>, va: nat,
                         s: seq<Byte>) {
    forall a: nat :: At(pt, frames, a) == if va <= a < va + |s| then s[a - va] as int else At(pt, frames0, a)
  }

  /** One memmove of copyout, inside page p. */
  lemma StoreInPage(pt: map<nat, Entry>, frames: map<nat, seq<Byte>>, sz: nat, p: nat, o: nat, s: seq<Byte>)
    requires Mapped(pt, frames, sz) && p in pt && o + |s| <= PGSIZE
    ensures var f := pt[p].frame;
            var frames' := frames[f := frames[f][..o] + s + frames[f][o + |s|..]];
            Mapped(pt, frames', sz) && Stored(pt, frames, frames', p * PGSIZE + o, s)
  {
    var f := pt[p].frame;
    var page := frames[f][..o] + s + frames[f][o + |s|..];
    var frames' := frames[f := page];
    forall a: nat
      ensures At(pt, frames', a) ==
              if p * PGSIZE + o <= a < p * PGSIZE + o + |s| then s[a - (p * PGSIZE + o)] as int else At(pt, frames, a)
    {
      var q, r := a / PGSIZE, a % PGSIZE;
      assert a == q * PGSIZE + r;
      if q == p {
        assert page[r] == if o <= r < o + |s| then s[r - o] else frames[f][r];
      } else {
        assert q in pt ==> pt[q].frame != f;
      }
    }
  }

  lemma StoredAppend(pt: map<nat, Entry>, a: map<nat, seq<Byte>>, b: map<nat, seq<Byte>>, c: map<nat, seq<Byte>>,
                     va: nat, s: seq<Byte>, t: seq<Byte>)
    requires Stored(pt, a, b, va, s) && Stored(pt, b, c, va + |s|, t)
    ensures Stored(pt, a, c, va, s + t)
  {
    forall x: nat
      ensures At(pt, c, x) == if va <= x < va + |s + t| then (s + t)[x - va] as int else At(pt, a, x)
    {
    }
  }

  // ----- The kernel's part of the address space -----

  /** How a copy to user memory ends; Fault is the use of the null pointer that walkpgdir returns for an
      address without a page table. */
  datatype Outcome = Done | Refused | Fault

  /** Pages above KERNBASE that setupkvm maps, none of them for the user. */
  predicate KernelPage(p: nat) {
    || Paging.USERPAGES <= p < Paging.USERPAGES + Vm.PHYSTOP / PGSIZE
    || Vm.DEVSPACE / PGSIZE <= p < Paging.PAGES
  }

  /** The pages between physical memory and the devices. */
  predicate Hole(p: nat) {
    Paging.USERPAGES + Vm.PHYSTOP / PGSIZE <= p < Vm.DEVSPACE / PGSIZE
  }

  /** What the page table of the kernel says of a page above KERNBASE: it is there, and not the user's, or
      it lies in the hole, together with every page that would share its page table. */
  lemma KernelPart(kdata: nat, p: nat)
    requires Vm.EXTMEM < kdata < Vm.PHYSTOP && kdata % PGSIZE == 0 && Paging.USERPAGES <= p < Paging.PAGES
    ensures KernelPage(p) <==> !Hole(p)
    ensures KernelPage(p) ==> Paging.Present(Vm.Kpte(kdata, 4, p)) && !Paging.User(Vm.Kpte(kdata, 4, p))
    ensures Hole(p) ==>
              forall v: nat :: v / Paging.NENTRIES == p / Paging.NENTRIES ==> Hole(v) && Vm.Kpte(kdata, 4, v) == 0
  {
    Vm.KernelLayout(kdata, p);
    NotUser(p, 0);
    NotUser(p, Paging.PTE_W);
    if p >= Paging.USERPAGES { NotUser(p - Paging.USERPAGES, 0); NotUser(p - Paging.USERPAGES, Paging.PTE_W); }
    if Hole(p) {
      forall v: nat | v / Paging.NENTRIES == p / Paging.NENTRIES
        ensures Hole(v) && Vm.Kpte(kdata, 4, v) == 0
      {
        assert Hole(v);
        Vm.KernelLayout(kdata, v);
      }
    }
  }

  lemma NotUser(frame: nat, perm: nat)
    requires perm == 0 || perm == Paging.PTE_W
    ensures Paging.Present(Paging.MakePte(frame, perm)) && !Paging.User(Paging.MakePte(frame, perm))
  {
    var w := Paging.MakePte(frame, perm);
    assert w == frame * PGSIZE + w % PGSIZE;
  }

  class AddressSpace {
    var pt: map<nat, Entry>
    var frames: map<nat, seq<Byte>>

    /** uva2ka: the frame of a user page.  Above KERNBASE the page table is the kernel's. */
    method Uva2ka(p: nat) returns (r: Outcome, frame: nat)
      requires p < Paging.USERPAGES ==> p in pt
      ensures r.Done? <==> p < Paging.USERPAGES && pt[p].user
      ensures r.Done? ==> frame == pt[p].frame
      ensures p < Paging.USERPAGES ==> !r.Fault?
      ensures p >= Paging.USERPAGES ==> (r.Fault? <==> Hole(p))
    {
      frame := 0;
      if p >= Paging.USERPAGES {
        r := if Hole(p) then Fault else Refused;
      } else if pt[p].user {
        r, frame := Done, pt[p].frame;
      } else {
        r := Refused;
      }
    }

    /** copyout: s at va, page by page, as far as the pages are the user's. */
    method CopyOut(va0: nat, s: seq<Byte>, ghost sz: nat) returns (r: Outcome)
      requires Mapped(pt, frames, sz) && sz <= Paging.KERNBASE
      requires va0 + |s| <= sz || (Paging.KERNBASE <= va0 < 0x1_0000_0000 && s != [])
      modifies this`frames
      ensures Mapped(pt, frames, sz)
      ensures va0 + |s| <= sz ==> !r.Fault? && (r.Done? <==> forall a :: va0 <= a < va0 + |s| ==> pt[a / PGSIZE].user)
      ensures va0 >= Paging.KERNBASE && s != [] ==>
                frames == old(frames) && r == if Hole(va0 / PGSIZE) then Fault else Refused
      ensures r.Done? ==> Stored(pt, old(frames), frames, va0, s)
    {
      StoredNothing(pt, frames, va0, s);
      hide Mapped, Stored;
      var va: nat, len: nat, i: nat := va0, |s|, 0;
      while len > 0
        invariant i + len == |s| && va == va0 + i && Mapped(pt, frames, sz)
        invariant va0 + |s| > sz ==> i == 0 && frames == old(frames)
        invariant forall a :: va0 <= a < va ==> a / PGSIZE in pt && pt[a / PGSIZE].user
        invariant Stored(pt, old(frames), frames, va0, s[..i])
        decreases len
      {
        var p := va / PGSIZE;
        if va < sz { InRange(pt, frames, sz, va); }
        var f;
        r, f := Uva2ka(p);
        if !r.Done? {
          return;
        }
        var o := va - p * PGSIZE;
        var n := PGSIZE - o;
        if n > len {
          n := len;
        }
        ghost var before := frames;
        StoreInPage(pt, frames, sz, p, o, s[i..i + n]);
        frames := frames[f := frames[f][..o] + s[i..i + n] + frames[f][o + n..]];
        StoredAppend(pt, old(frames), before, frames, va0, s[..i], s[i..i + n]);
        assert s[..i] + s[i..i + n] == s[..i + n];
        SamePage(va, p, n);
        len, i, va := len - n, i + n, va + n;
      }
      assert s[..i] == s;
      r := Done;
    }

    /** clearpteu, on the page below the stack. */
    method Clearpteu(p: nat, ghost sz: nat)
      requires p in pt && Mapped(pt, frames, sz)
      modifies this`pt
      ensures pt == old(pt)[p := old(pt)[p].(user := false)] && Mapped(pt, frames, sz)
    {
      pt := pt[p := pt[p].(user := false)];
    }

    /** One round of exec's argument loop; the stack pointer is an unsigned 32-bit number. */
    method PushString(sz: nat, args: seq<seq<Byte>>, argc: nat, top: nat) returns (r: Outcome, sp: nat)
      requires Mapped(pt, frames, sz) && Guarded(pt, sz) && sz <= Paging.KERNBASE && argc < |args| && Short(args)
      requires sz - PGSIZE <= top == Sp(args, sz, argc) <= sz && Strings(pt, frames, args, sz, argc)
      modifies this`frames
      ensures Mapped(pt, frames, sz) && sp == Wrapped(Place(args, sz, argc))
      ensures r.Done? <==> Place(args, sz, argc) >= sz - PGSIZE
      ensures r.Fault? <==> Place(args, sz, argc) < 0 && Hole(sp / PGSIZE)
      ensures r.Done? ==> Strings(pt, frames, args, sz, argc + 1)
    {
      hide Mapped, Holds, Stored, Guarded, Strings;
      SpDown(args, sz, argc);
      SpShort(pt, sz, args, argc);
      sp := (top + 0x1_0000_0000 - (|args[argc]| + 1)) % 0x1_0000_0000 / 4 * 4;
      WrapsTo(top, |args[argc]| + 1);
      ghost var before := frames;
      r := CopyOut(sp, args[argc] + [0], sz);
      if Place(args, sz, argc) >= 0 {
        AtGuard(pt, frames, sz, sp, top, |args[argc]| + 1);
      }
      if r.Done? {
        StringsKept(pt, before, frames, args, sz, argc, sp);
      }
    }

    /** exec's stack: sz is the size of the image with the guard page and the stack page on top.  The
        arguments are strings of a user process, so they are shorter than its memory can be. */
    method BuildStack(sz: nat, args: seq<seq<Byte>>) returns (r: Outcome, sp: nat)
      requires Mapped(pt, frames, sz) && 2 * PGSIZE <= sz <= Paging.KERNBASE && Short(args)
      requires forall p :: 0 <= p < sz / PGSIZE && p in pt ==> pt[p].user
      modifies this`pt, this`frames
      ensures r.Done? <==> Fits(args, sz)
      ensures r.Fault? <==> exists i :: 0 <= i < |args| && FallsInHole(args, sz, i)
      ensures r.Done? ==> sp == Final(args, sz) && OnStack(pt, frames, args, sz, sp)
    {
      hide Mapped, Holds, Stored, Strings, OnStack, Bytes, Guarded, Sp, Hole;
      GuardSet(pt, frames, sz);
      Clearpteu(sz / PGSIZE - 2, sz);
      var ustack := new Word[3 + MAXARG + 1](i => 0);
      sp := sz;
      var argc := 0;
      NoStrings(pt, frames, args, sz);
      while argc < |args|
        invariant argc <= |args| && argc <= MAXARG && Mapped(pt, frames, sz) && Guarded(pt, sz)
        invariant sz - PGSIZE <= sp == Sp(args, sz, argc) <= sz
        invariant forall j :: 0 <= j < argc ==> ustack[3 + j] == Place(args, sz, j)
        invariant Strings(pt, frames, args, sz, argc)
      {
        if argc >= MAXARG {
          NoFaultBehind(args, sz, argc);
          return Refused, 0;
        }
        SpDown(args, sz, argc);
        r, sp := PushString(sz, args, argc, sp);
        if !r.Done? {
          StopsAt(args, sz, argc);
          return r, 0;
        }
        ustack[3 + argc] := sp;
        argc := argc + 1;
      }
      ustack[3 + argc] := 0;
      ustack[0] := 0xffff_ffff;
      ustack[1] := argc;
      ustack[2] := sp - (argc + 1) * 4;
      NoFaultBehind(args, sz, argc);
      r, sp := PushWords(sz, args, sp, ustack[..3 + argc + 1]);
    }

    /** The copy of ustack. */
    method PushWords(sz: nat, args: seq<seq<Byte>>, top: nat, ws: seq<Word>) returns (r: Outcome, sp: nat)
      requires Mapped(pt, frames, sz) && Guarded(pt, sz) && Strings(pt, frames, args, sz, |args|)
      requires 2 * PGSIZE <= sz <= Paging.KERNBASE && |args| <= MAXARG
      requires sz - PGSIZE <= top == Sp(args, sz, |args|) <= sz && Vector(args, sz, ws)
      modifies this`frames
      ensures sp == Final(args, sz) && !r.Fault? && (r.Done? <==> sp >= sz - PGSIZE)
      ensures r.Done? ==> OnStack(pt, frames, args, sz, sp)
    {
      hide Mapped, Guarded, Holds, Stored, Strings, OnStack, Bytes, Vector, Sp;
      VectorSize(pt, frames, args, sz, ws);
      sp := top - |ws| * 4;
      ghost var before := frames;
      r := CopyOut(sp, Bytes(ws), sz);
      FinalAligned(args, sz);
      AtGuard(pt, frames, sz, sp, top, |ws| * 4);
      if r.Done? {
        Finished(pt, before, frames, args, sz, sp, ws);
      }
    }
  }

  // ----- The layout -----

  /** Where the stack pointer is after i argument strings. */
  function Sp(args: seq<seq<Byte>>, sz: nat, i: nat): int
    requires i <= |args|
  {
    if i == 0 then sz
    else
      var x := Sp(args, sz, i - 1) - (|args[i - 1]| + 1);
      x - x % 4
  }

  /** Where string i is. */
  function Place(args: seq<seq<Byte>>, sz: nat, i: nat): int
    requires i < |args|
  {
    Sp(args, sz, i + 1)
  }

  /** Where it ends up: below the strings there are argc + 4 words. */
  function Final(args: seq<seq<Byte>>, sz: nat): int {
    Sp(args, sz, |args|) - (3 + |args| + 1) * 4
  }

  /** The arguments fit into the stack page. */
  predicate Fits(args: seq<seq<Byte>>, sz: nat) {
    |args| <= MAXARG && Final(args, sz) >= sz - PGSIZE
  }

  /** Strings of user processes end below KERNBASE. */
  predicate Short(args: seq<seq<Byte>>) {
    forall i :: 0 <= i < |args| ==> |args[i]| < Paging.KERNBASE
  }

  /** A stack pointer as an unsigned 32-bit number. */
  function Wrapped(x: int): nat
    requires -0x1_0000_0000 <= x
  {
    if x < 0 then x + 0x1_0000_0000 else x
  }

  /** The strings before i are in place, and string i makes the stack pointer wrap around into the hole. */
  predicate FallsInHole(args: seq<seq<Byte>>, sz: nat, i: nat)
    requires i < |args|
  {
    && i < MAXARG && Sp(args, sz, i) >= sz - PGSIZE
    && -0x1_0000_0000 <= Place(args, sz, i) < 0 && Hole(Wrapped(Place(args, sz, i)) / PGSIZE)
  }

  lemma SpShort(pt: map<nat, Entry>, sz: nat, args: seq<seq<Byte>>, i: nat)
    requires i < |args| && Short(args) && Guarded(pt, sz) && Sp(args, sz, i) >= sz - PGSIZE
    ensures Place(args, sz, i) >= -Paging.KERNBASE && sz >= 2 * PGSIZE && Place(args, sz, i) % 4 == 0
  {
    SpDown(args, sz, i);
  }

  /** x & ~3 after a subtraction that may wrap around. */
  lemma WrapsTo(top: nat, n: nat)
    requires top <= Paging.KERNBASE && n <= Paging.KERNBASE
    ensures var x := top - n;
            (top + 0x1_0000_0000 - n) % 0x1_0000_0000 / 4 * 4 == Wrapped(x - x % 4)
  {
    var x := top - n;
    if x < 0 {
      assert (x + 0x1_0000_0000) % 0x1_0000_0000 == x + 0x1_0000_0000;
    } else {
      assert (x + 0x1_0000_0000) % 0x1_0000_0000 == x;
    }
  }

  /** An argument of 64 MB for a small program does it. */
  lemma LongArgument(arg: seq<Byte>)
    requires |arg| == 0x400_0000
    ensures Short([arg]) && FallsInHole([arg], 2 * PGSIZE, 0)
  {
    assert Sp([arg], 2 * PGSIZE, 0) == 2 * PGSIZE;
    assert Place([arg], 2 * PGSIZE, 0) == 2 * PGSIZE - 0x400_0004;
  }

  /** Strings behind one that is not in place do not matter, nor do those that are in place. */
  lemma StopsAt(args: seq<seq<Byte>>, sz: nat, argc: nat)
    requires argc < |args| && Place(args, sz, argc) < sz - PGSIZE && Sp(args, sz, argc) >= sz - PGSIZE && sz >= PGSIZE
    ensures (exists i :: 0 <= i < |args| && FallsInHole(args, sz, i)) <==> FallsInHole(args, sz, argc)
    ensures !Fits(args, sz)
  {
    hide Sp, Hole;
    forall i | 0 <= i < |args| && FallsInHole(args, sz, i)
      ensures i == argc
    {
      if i > argc { SpAbove(args, sz, argc + 1, i); }
      if i < argc { SpAbove(args, sz, i + 1, argc); }
    }
    SpAbove(args, sz, argc + 1, |args|);
  }

  lemma NoFaultBehind(args: seq<seq<Byte>>, sz: nat, argc: nat)
    requires argc <= |args| && Sp(args, sz, argc) >= sz - PGSIZE && sz >= PGSIZE && (argc == MAXARG || argc == |args|)
    ensures !exists i :: 0 <= i < |args| && FallsInHole(args, sz, i)
  {
    hide Sp, Hole;
    forall i | 0 <= i < |args|
      ensures !FallsInHole(args, sz, i)
    {
      if i < argc { SpAbove(args, sz, i + 1, argc); }
    }
  }

  function Bytes(ws: seq<Word>): (r: seq<Byte>)
    ensures |r| == 4 * |ws|
  {
    if ws == [] then [] else Bytes(ws[..|ws| - 1]) + WordBytes(ws[|ws| - 1])
  }

  function WordBytes(w: Word): (r: seq<Byte>)
    ensures |r| == 4
  {
    [w % 256, w / 256 % 256, w / 65536 % 256, w / 16777216]
  }

  /** The word at a virtual address. */
  ghost function WordAt(pt: map<nat, Entry>, frames: map<nat, seq<Byte>>, va: nat): int {
    At(pt, frames, va) + 256 * At(pt, frames, va + 1) + 65536 * At(pt, frames, va + 2) +
    16777216 * At(pt, frames, va + 3)
  }

  /** The first n strings are in place. */
  ghost predicate Strings(pt: map<nat, Entry>, frames: map<nat, seq<Byte>>, args: seq<seq<Byte>>, sz: nat, n: nat) {
    && n <= |args|
    && forall j :: 0 <= j < n ==> Place(args, sz, j) >= 0 && Holds(pt, frames, Place(args, sz, j), args[j] + [0])
  }

  /** What a program finds: a return address, argc, argv, the argv array, and the strings, in one page. */
  ghost predicate OnStack(pt: map<nat, Entry>, frames: map<nat, seq<Byte>>, args: seq<seq<Byte>>, sz: nat, sp: nat) {
    var argc := |args|;
    && sz - PGSIZE <= sp && sp % 4 == 0 && sp + 4 * (argc + 4) == Sp(args, sz, argc)
    && WordAt(pt, frames, sp) == 0xffff_ffff
    && WordAt(pt, frames, sp + 4) == argc
    && WordAt(pt, frames, sp + 8) == sp + 12
    && (forall i :: 0 <= i < argc ==> WordAt(pt, frames, sp + 12 + 4 * i) == Place(args, sz, i))
    && WordAt(pt, frames, sp + 12 + 4 * argc) == 0
    && Strings(pt, frames, args, sz, argc)
    && (forall i :: 0 <= i < argc ==> Sp(args, sz, argc) <= Place(args, sz, i) && Place(args, sz, i) % 4 == 0
                                      && Place(args, sz, i) + |args[i]| + 1 <= Sp(args, sz, i) <= sz)
  }

  lemma StoredNothing(pt: map<nat, Entry>, frames: map<nat, seq<Byte>>, va: nat, s: seq<Byte>)
    ensures Stored(pt, frames, frames, va, s[..0])
  {
  }

  lemma InRange(pt: map<nat, Entry>, frames: map<nat, seq<Byte>>, sz: nat, va: nat)
    requires Mapped(pt, frames, sz) && va < sz
    ensures va / PGSIZE in pt && pt[va / PGSIZE].frame in frames && |frames[pt[va / PGSIZE].frame]| == PGSIZE
  {
    assert va / PGSIZE < sz / PGSIZE;
  }

  lemma SamePage(va: nat, p: nat, n: nat)
    requires p == va / PGSIZE && va - p * PGSIZE + n <= PGSIZE
    ensures forall a :: va <= a < va + n ==> a / PGSIZE == p
  {
  }

  /** Each string goes below the one before; all of them above where the stack ends up. */
  lemma {:induction false} SpDown(args: seq<seq<Byte>>, sz: nat, i: nat)
    requires i < |args|
    ensures Sp(args, sz, i + 1) + |args[i]| + 1 <= Sp(args, sz, i) < Sp(args, sz, i + 1) + |args[i]| + 1 + 4
    ensures Sp(args, sz, i + 1) % 4 == 0 && Final(args, sz) + 4 * (|args| + 4) <= Sp(args, sz, i + 1)
    decreases |args| - i
  {
    if i + 1 < |args| { SpDown(args, sz, i + 1); }
  }

  /** copyout of n bytes at sp, which end just below top, is refused exactly when sp is below the stack page. */
  lemma AtGuard(pt: map<nat, Entry>, frames: map<nat, seq<Byte>>, sz: nat, sp: nat, top: nat, n: nat)
    requires Guarded(pt, sz) && Mapped(pt, frames, sz)
    requires sz - PGSIZE <= top <= sz && n > 0 && sp % 4 == 0 && sp + n <= top < sp + n + 4
    ensures (forall a :: sp <= a < sp + n ==> pt[a / PGSIZE].user) <==> sp >= sz - PGSIZE
  {
    var g := sz / PGSIZE - 2;
    assert sz == (g + 2) * PGSIZE;
    if sp >= sz - PGSIZE {
      forall a | sp <= a < sp + n ensures pt[a / PGSIZE].user { assert a / PGSIZE == g + 1; }
    } else {
      var a := if sp >= sz - 2 * PGSIZE then sp else sz - PGSIZE - 4;
      assert a / PGSIZE == g && sp <= a < sp + n && !pt[g].user;
    }
  }

  /** What ustack holds in the end. */
  ghost predicate Vector(args: seq<seq<Byte>>, sz: nat, ws: seq<Word>) {
    && |ws| == |args| + 4
    && ws[0] == 0xffff_ffff && ws[1] == |args| && ws[2] == Sp(args, sz, |args|) - (|args| + 1) * 4
    && ws[3 + |args|] == 0
    && forall j :: 0 <= j < |args| ==> ws[3 + j] == Place(args, sz, j)
  }

  lemma VectorSize(pt: map<nat, Entry>, frames: map<nat, seq<Byte>>, args: seq<seq<Byte>>, sz: nat, ws: seq<Word>)
    requires Vector(args, sz, ws) && Mapped(pt, frames, sz) && Guarded(pt, sz)
    ensures |ws| == |args| + 4 && |Bytes(ws)| == |ws| * 4 && sz % PGSIZE == 0 && sz >= PGSIZE
  {
  }

  lemma GuardSet(pt: map<nat, Entry>, frames: map<nat, seq<Byte>>, sz: nat)
    requires Mapped(pt, frames, sz) && sz >= 2 * PGSIZE && forall p :: 0 <= p < sz / PGSIZE && p in pt ==> pt[p].user
    ensures var g := sz / PGSIZE - 2; g in pt && Guarded(pt[g := pt[g].(user := false)], sz)
  {
  }

  lemma NoStrings(pt: map<nat, Entry>, frames: map<nat, seq<Byte>>, args: seq<seq<Byte>>, sz: nat)
    ensures Strings(pt, frames, args, sz, 0) && Sp(args, sz, 0) == sz
  {
  }

  lemma FinalAligned(args: seq<seq<Byte>>, sz: nat)
    requires sz % PGSIZE == 0
    ensures Sp(args, sz, |args|) % 4 == 0 && Sp(args, sz, |args|) <= sz
  {
    if |args| > 0 { SpDown(args, sz, |args| - 1); }
    SpAbove(args, sz, 0, |args|);
  }

  lemma {:induction false} ByteOf(ws: seq<Word>, i: nat, k: nat)
    requires i < |ws| && k < 4
    ensures |Bytes(ws)| == 4 * |ws| && |WordBytes(ws[i])| == 4 && Bytes(ws)[4 * i + k] == WordBytes(ws[i])[k]
  {
    var n := |ws| - 1;
    hide WordBytes;
    if i < n { ByteOf(ws[..n], i, k); }
  }

  lemma WordWhole(w: Word)
    ensures var b := WordBytes(w);
            |b| == 4 && b[0] as int + 256 * b[1] as int + 65536 * b[2] as int + 16777216 * b[3] as int == w
  {
    var q: nat, r: nat := w / 256, w / 65536;
    assert w == w % 256 + 256 * q && q == q % 256 + 256 * r && r == r % 256 + 256 * (w / 16777216);
  }

  lemma WordHeld(pt: map<nat, Entry>, frames: map<nat, seq<Byte>>, va: nat, ws: seq<Word>, i: nat)
    requires Holds(pt, frames, va, Bytes(ws)) && i < |ws|
    ensures WordAt(pt, frames, va + 4 * i) == ws[i]
  {
    hide Bytes, WordBytes, Holds, At;
    WordWhole(ws[i]);
    var b := Bytes(ws);
    ByteOf(ws, i, 0);
    ByteOf(ws, i, 1);
    ByteOf(ws, i, 2);
    ByteOf(ws, i, 3);
    HeldAt(pt, frames, va, b, 4 * i);
    HeldAt(pt, frames, va, b, 4 * i + 1);
    HeldAt(pt, frames, va, b, 4 * i + 2);
    HeldAt(pt, frames, va, b, 4 * i + 3);
  }

  lemma HeldAt(pt: map<nat, Entry>, frames: map<nat, seq<Byte>>, va: nat, s: seq<Byte>, j: nat)
    requires Holds(pt, frames, va, s) && j < |s|
    ensures At(pt, frames, va + j) == s[j]
  {
  }

  lemma Finished(pt: map<nat, Entry>, a: map<nat, seq<Byte>>, b: map<nat, seq<Byte>>, args: seq<seq<Byte>>, sz: nat,
                 sp: nat, ws: seq<Word>)
    requires Strings(pt, a, args, sz, |args|) && sz % PGSIZE == 0 && sz >= PGSIZE &&
             sz - PGSIZE <= sp == Final(args, sz)
    requires Vector(args, sz, ws) && Stored(pt, a, b, sp, Bytes(ws))
    ensures OnStack(pt, b, args, sz, sp)
  {
    hide Stored, Holds, Bytes, WordAt, Sp;
    var argc := |args|;
    FinalAligned(args, sz);
    HoldsNew(pt, a, b, sp, Bytes(ws));
    WordHeld(pt, b, sp, ws, 0);
    WordHeld(pt, b, sp, ws, 1);
    WordHeld(pt, b, sp, ws, 2);
    WordHeld(pt, b, sp, ws, 3 + argc);
    forall i | 0 <= i < argc
      ensures WordAt(pt, b, sp + 12 + 4 * i) == Place(args, sz, i)
      ensures Sp(args, sz, argc) <= Place(args, sz, i) && Place(args, sz, i) % 4 == 0
      ensures Place(args, sz, i) + |args[i]| + 1 <= Sp(args, sz, i) <= sz
      ensures Holds(pt, b, Place(args, sz, i), args[i] + [0])
    {
      WordHeld(pt, b, sp, ws, 3 + i);
      SpDown(args, sz, i);
      SpAbove(args, sz, i + 1, argc);
      SpAbove(args, sz, 0, i);
      SpStart(args, sz);
      HoldsKept(pt, a, b, sp, Bytes(ws), Place(args, sz, i), args[i] + [0]);
    }
  }

  lemma SpStart(args: seq<seq<Byte>>, sz: nat)
    ensures Sp(args, sz, 0) == sz
  {
  }

  lemma HoldsKept(pt: map<nat, Entry>, a: map<nat, seq<Byte>>, b: map<nat, seq<Byte>>, va: nat, s: seq<Byte>,
                  wa: nat, t: seq<Byte>)
    requires Stored(pt, a, b, va, s) && Holds(pt, a, wa, t) && va + |s| <= wa
    ensures Holds(pt, b, wa, t)
  {
  }

  lemma HoldsNew(pt: map<nat, Entry>, a: map<nat, seq<Byte>>, b: map<nat, seq<Byte>>, va: nat, s: seq<Byte>)
    requires Stored(pt, a, b, va, s)
    ensures Holds(pt, b, va, s)
  {
  }

  lemma {:induction false} SpAbove(args: seq<seq<Byte>>, sz: nat, i: nat, j: nat)
    requires i <= j <= |args|
    ensures Sp(args, sz, j) <= Sp(args, sz, i)
    decreases j - i
  {
    if i < j {
      SpDown(args, sz, j - 1);
      SpAbove(args, sz, i, j - 1);
    }
  }

  lemma StringsKept(pt: map<nat, Entry>, a: map<nat, seq<Byte>>, b: map<nat, seq<Byte>>, args: seq<seq<Byte>>, sz: nat,
                    n: nat, sp: nat)
    requires n < |args| && Strings(pt, a, args, sz, n) && sp == Sp(args, sz, n + 1) &&
             Stored(pt, a, b, sp, args[n] + [0])
    ensures Strings(pt, b, args, sz, n + 1)
  {
    hide Holds, Stored, Sp;
    SpDown(args, sz, n);
    HoldsNew(pt, a, b, sp, args[n] + [0]);
    forall j | 0 <= j < n
      ensures Holds(pt, b, Place(args, sz, j), args[j] + [0])
    {
      SpAbove(args, sz, j + 1, n);
      HoldsKept(pt, a, b, sp, args[n] + [0], Place(args, sz, j), args[j] + [0]);
    }
  }
}
