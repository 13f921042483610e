/**
 Path names (skipelem and namex of fs.c, sys_chdir, the directories fork hands on), and their
 confinement to a container's root directory.  A path is the characters of a C string before its
 NUL; a name as skipelem leaves it is its first DIRSIZ characters.
 */
module Paths {
  import opened Common

  const ROOTINO := 1

  type Inum = nat

  datatype Node = Dir(entries: map<string, Inum>) | File

  /** The inodes and what the directories among them list. */
  type Fs = map<Inum, Node>

  // ----- Splitting a path -----

  /** The fields of a path between slashes, empty ones left out; cur is the field so far. */
  function Fields(path: string, cur: string): seq<string> {
    if path == "" then Field(cur)
    else if path[0] == '/' then Field(cur) + Fields(path[1..], "")
    else Fields(path[1..], cur + [path[0]])
  }

  function Field(cur: string): seq<string> {
    if cur == "" then [] else [cur]
  }

  function Short(name: string): string {
    if |name| < DIRSIZ then name else name[..DIRSIZ]
  }

  function Names(path: string): seq<string> {
    Shorts(Fields(path, ""))
  }

  function Shorts(fields: seq<string>): seq<string> {
    if fields == [] then [] else [Short(fields[0])] + Shorts(fields[1..])
  }

  lemma {:induction false} FieldsSlash(path: string, i: nat)
    requires i <= |path| && forall j :: 0 <= j < i ==> path[j] == '/'
    ensures Fields(path, "") == Fields(path[i..], "")
    decreases i
  {
    if i > 0 {
      FieldsSlash(path[1..], i - 1);
      assert path[1..][i - 1..] == path[i..];
    } else {
      assert path[0..] == path;
    }
  }

  lemma {:induction false} FieldsWord(path: string, cur: string, i: nat)
    requires i <= |path| && (forall j :: 0 <= j < i ==> path[j] != '/')
    requires (i < |path| ==> path[i] == '/') && cur + path[..i] != ""
    ensures Fields(path, cur) == [cur + path[..i]] + Fields(path[i..], "")
    decreases i
  {
    if i == 0 {
      assert cur + path[..0] == cur && path[0..] == path;
    } else {
      FieldsWord(path[1..], cur + [path[0]], i - 1);
      assert cur + [path[0]] + path[1..][..i - 1] == cur + path[..i];
      assert path[1..][i - 1..] == path[i..];
    }
  }

  predicate Slashes(path: string, i: nat, j: nat) {
    i <= j <= |path| && forall k :: i <= k < j ==> path[k] == '/'
  }

  predicate NoSlash(path: string, i: nat, j: nat) {
    i <= j <= |path| && forall k :: i <= k < j ==> path[k] != '/'
  }

  /** Slashes up to s, a field up to e, slashes up to i. */
  lemma NextName(path: string, s: nat, e: nat, i: nat)
    requires Slashes(path, 0, s) && s < e && NoSlash(path, s, e) && (e < |path| ==> path[e] == '/')
    requires Slashes(path, e, i) && (i < |path| ==> path[i] != '/')
    ensures Names(path) == [Short(path[s..e])] + Names(path[i..]) && (Names(path[i..]) == [] ==> path[i..] == "")
  {
    hide Fields, Short;
    FieldsSlash(path, s);
    var word := path[s..];
    assert forall j :: 0 <= j < e - s ==> word[j] == path[s + j];
    FieldsWord(word, "", e - s);
    assert word[..e - s] == path[s..e] && word[e - s..] == path[e..] && "" + path[s..e] == path[s..e];
    FieldsSlash(path[e..], i - e);
    assert path[e..][i - e..] == path[i..];
    StartsField(path[i..]);
  }

  lemma NoName(path: string)
    requires Slashes(path, 0, |path|)
    ensures Names(path) == []
  {
    FieldsSlash(path, |path|);
  }

  /** skipelem: the next name and the path behind it, or none. */
  method SkipElem(path: string) returns (rest: Option<string>, name: string)
    ensures rest.None? <==> Names(path) == []
    ensures rest.Some? ==> Names(path) == [name] + Names(rest.value) && |rest.value| < |path|
    ensures rest.Some? && Names(rest.value) == [] ==> rest.value == ""
  {
    hide Names;
    var i := 0;
    while i < |path| && path[i] == '/'
      invariant Slashes(path, 0, i)
    {
      i := i + 1;
    }
    if i == |path| {
      NoName(path);
      return None, "";
    }
    var s := i;
    while i < |path| && path[i] != '/'
      invariant NoSlash(path, s, i)
    {
      i := i + 1;
    }
    var len := i - s;
    if len >= DIRSIZ {
      name := path[s..s + DIRSIZ];
      assert path[s..i][..DIRSIZ] == name;
    } else {
      name := path[s..i];
    }
    ghost var e := i;
    while i < |path| && path[i] == '/'
      invariant Slashes(path, e, i)
    {
      i := i + 1;
    }
    NextName(path, s, e, i);
    rest := Some(path[i..]);
  }

  lemma StartsField(path: string)
    requires path != "" ==> path[0] != '/'
    ensures Names(path) == [] ==> path == ""
  {
    if path != "" {
      assert "" + [path[0]] == [path[0]];
      SomeField(path[1..], [path[0]]);
    }
  }

  lemma {:induction false} SomeField(path: string, cur: string)
    requires cur != ""
    ensures Fields(path, cur) != []
  {
    if path != "" && path[0] != '/' { SomeField(path[1..], cur + [path[0]]); }
  }

  // ----- Walking -----

  /** One step of namex: an entry that leads to the root directory leads nowhere, except for the root container. */
  function Step(fs: Fs, rootdir: Inum, ip: Inum, name: string): Option<Inum> {
    if ip !in fs || !fs[ip].Dir? || name !in fs[ip].entries then None
    else
      var next := fs[ip].entries[name];
      Some(if rootdir == ROOTINO || next != ROOTINO then next else ip)
  }

  function Walk(fs: Fs, rootdir: Inum, ip: Inum, names: seq<string>): Option<Inum>
    decreases |names|
  {
    if names == [] then Some(ip)
    else
      var next := Step(fs, rootdir, ip, names[0]);
      if next.None? then None else Walk(fs, rootdir, next.value, names[1..])
  }

  /** Where a path starts: at the container's root directory or at the working directory. */
  function Origin(rootdir: Inum, cwd: Inum, path: string): Inum {
    if path != "" && path[0] == '/' then rootdir else cwd
  }

  /** What namei gives. */
  function Resolve(fs: Fs, rootdir: Inum, cwd: Inum, path: string): Option<Inum> {
    Walk(fs, rootdir, Origin(rootdir, cwd, path), Names(path))
  }

  /** What namei or nameiparent gives from ip on: nameiparent gives the directory of the last name, which
      need not exist, and that name. */
  function From(fs: Fs, rootdir: Inum, ip: Inum, names: seq<string>, parent: bool): Option<(Inum, string)> {
    if !parent then
      var r := Walk(fs, rootdir, ip, names);
      if r.Some? then Some((r.value, "")) else None
    else if names == [] then None
    else
      var dir := Walk(fs, rootdir, ip, names[..|names| - 1]);
      if dir.Some? && dir.value in fs && fs[dir.value].Dir? then Some((dir.value, names[|names| - 1])) else None
  }

  // ----- What a path leads to, said without walking -----

  /** Directory d lists name, and a process of a container with root directory rootdir that looks it up
      there goes on at e: at what d lists, or, if that is the root directory and not its own, at d. */
  predicate Leads(fs: Fs, rootdir: Inum, d: Inum, name: string, e: Inum) {
    && d in fs && fs[d].Dir? && name in fs[d].entries
    && if fs[d].entries[name] == ROOTINO && rootdir != ROOTINO then e == d else e == fs[d].entries[name]
  }

  /** A chain of inodes from ds[0], each leading to the next by its name. */
  ghost predicate Chain(fs: Fs, rootdir: Inum, ds: seq<Inum>, names: seq<string>) {
    |ds| == |names| + 1 && forall k :: 0 <= k < |names| ==> Leads(fs, rootdir, ds[k], names[k], ds[k + 1])
  }

  /** There is a chain of the names from d to e. */
  ghost predicate Reaches(fs: Fs, rootdir: Inum, d: Inum, names: seq<string>, e: Inum) {
    exists ds :: Chain(fs, rootdir, ds, names) && ds[0] == d && ds[|names|] == e
  }

  lemma {:induction false} ChainOf(fs: Fs, rootdir: Inum, ip: Inum, names: seq<string>) returns (ds: seq<Inum>)
    requires Walk(fs, rootdir, ip, names).Some?
    ensures Chain(fs, rootdir, ds, names) && ds[0] == ip && ds[|names|] == Walk(fs, rootdir, ip, names).value
    decreases |names|
  {
    if names == [] {
      ds := [ip];
    } else {
      var next := Step(fs, rootdir, ip, names[0]).value;
      var rest := ChainOf(fs, rootdir, next, names[1..]);
      ds := [ip] + rest;
      forall k | 0 <= k < |names| ensures Leads(fs, rootdir, ds[k], names[k], ds[k + 1]) {
        if k > 0 { assert Leads(fs, rootdir, rest[k - 1], names[1..][k - 1], rest[k]); }
      }
    }
  }

  lemma {:induction false} ChainWalked(fs: Fs, rootdir: Inum, ds: seq<Inum>, names: seq<string>)
    requires Chain(fs, rootdir, ds, names)
    ensures Walk(fs, rootdir, ds[0], names) == Some(ds[|names|])
    decreases |names|
  {
    if names != [] {
      assert Leads(fs, rootdir, ds[0], names[0], ds[1]);
      var rest := ds[1..];
      forall k | 0 <= k < |names| - 1 ensures Leads(fs, rootdir, rest[k], names[1..][k], rest[k + 1]) {
        assert Leads(fs, rootdir, ds[k + 1], names[k + 1], ds[k + 2]);
      }
      ChainWalked(fs, rootdir, rest, names[1..]);
    }
  }

  /** The walk ends at e if and only if a chain of the names leads there. */
  lemma WalksChain(fs: Fs, rootdir: Inum, ip: Inum, names: seq<string>, e: Inum)
    ensures Walk(fs, rootdir, ip, names) == Some(e) <==> Reaches(fs, rootdir, ip, names, e)
  {
    hide Walk;
    if Walk(fs, rootdir, ip, names) == Some(e) {
      var ds := ChainOf(fs, rootdir, ip, names);
      assert Chain(fs, rootdir, ds, names) && ds[0] == ip && ds[|names|] == e;
    }
    if Reaches(fs, rootdir, ip, names, e) {
      var ds :| Chain(fs, rootdir, ds, names) && ds[0] == ip && ds[|names|] == e;
      ChainWalked(fs, rootdir, ds, names);
    }
  }

  /** What namei and nameiparent are to find from d: the end of the chain of all names; the end of the
      chain of all but the last name, which must be a directory, and that name. */
  ghost predicate Finds(fs: Fs, rootdir: Inum, d: Inum, names: seq<string>, parent: bool, e: Inum, name: string) {
    if parent then
      && names != [] && name == names[|names| - 1] && Reaches(fs, rootdir, d, names[..|names| - 1], e)
      && e in fs && fs[e].Dir?
    else Reaches(fs, rootdir, d, names, e) && name == ""
  }

  lemma FromFinds(fs: Fs, rootdir: Inum, ip: Inum, names: seq<string>, parent: bool, e: Inum, name: string)
    ensures From(fs, rootdir, ip, names, parent) == Some((e, name)) <==> Finds(fs, rootdir, ip, names, parent, e, name)
  {
    hide Walk, Reaches;
    if parent {
      if names != [] { WalksChain(fs, rootdir, ip, names[..|names| - 1], e); }
    } else {
      WalksChain(fs, rootdir, ip, names, e);
    }
  }

  /** The names of a path are its fields between slashes: n names, with slashes between them, and any
      number before and behind. */
  function Joined(fields: seq<string>, gaps: seq<nat>): string
    requires |gaps| == |fields| + 1
  {
    if fields == [] then Slash(gaps[0]) else Slash(gaps[0]) + (fields[0] + Joined(fields[1..], gaps[1..]))
  }

  function Slash(n: nat): (s: string)
    ensures |s| == n && forall i :: 0 <= i < n ==> s[i] == '/'
  {
    seq(n, _ => '/')
  }

  predicate Separated(fields: seq<string>, gaps: seq<nat>) {
    && |gaps| == |fields| + 1
    && (forall i :: 0 <= i < |fields| ==> fields[i] != "" && forall j :: 0 <= j < |fields[i]| ==> fields[i][j] != '/')
    && (forall i :: 0 < i < |fields| ==> gaps[i] > 0)
  }

  lemma {:induction false} JoinedFields(fields: seq<string>, gaps: seq<nat>)
    requires Separated(fields, gaps)
    ensures Fields(Joined(fields, gaps), "") == fields
    decreases |fields|
  {
    var path := Joined(fields, gaps);
    FieldsSlash(path, gaps[0]);
    if fields == [] {
      assert path[gaps[0]..] == "";
    } else {
      var rest := Joined(fields[1..], gaps[1..]);
      var word := fields[0] + rest;
      assert path[gaps[0]..] == word;
      assert rest != "" ==> rest[0] == '/' by {
        if fields[1..] != [] { assert gaps[1] > 0; }
      }
      FieldsWord(word, "", |fields[0]|);
      assert word[..|fields[0]|] == fields[0] && "" + fields[0] == fields[0] && word[|fields[0]|..] == rest;
      assert Separated(fields[1..], gaps[1..]);
      JoinedFields(fields[1..], gaps[1..]);
    }
  }

  lemma {:induction false} ShortsAt(fields: seq<string>, i: nat)
    requires i < |fields|
    ensures |Shorts(fields)| == |fields|
    ensures Shorts(fields)[i] == if |fields[i]| <= DIRSIZ then fields[i] else fields[i][..DIRSIZ]
  {
    if |fields| > 1 { ShortsAt(fields[1..], if i > 0 then i - 1 else 0); }
  }

  /** So the names of a path are its fields, each cut to DIRSIZ characters. */
  lemma NamesExactly(fields: seq<string>, gaps: seq<nat>, i: nat)
    requires Separated(fields, gaps)
    ensures |Names(Joined(fields, gaps))| == |fields|
    ensures i < |fields| ==>
              Names(Joined(fields, gaps))[i] == if |fields[i]| <= DIRSIZ then fields[i] else fields[i][..DIRSIZ]
  {
    JoinedFields(fields, gaps);
    if fields != [] { ShortsAt(fields, if i < |fields| then i else 0); }
  }

  lemma FromStep(fs: Fs, rootdir: Inum, ip: Inum, names: seq<string>, parent: bool)
    requires names != [] && !(parent && |names| == 1)
    ensures var next := Step(fs, rootdir, ip, names[0]);
            From(fs, rootdir, ip, names, parent) ==
              if next.None? then None else From(fs, rootdir, next.value, names[1..], parent)
  {
    if parent {
      var n := |names| - 1;
      assert names[..n][1..] == names[1..][..n - 1] && names[1..][n - 1] == names[n];
    }
  }

  /** namex, for namei and for nameiparent, in a process of a container. */
  method Namex(fs: Fs, rootdir: Inum, cwd: Inum, path0: string, parent: bool) returns (r: Option<(Inum, string)>)
    ensures r == From(fs, rootdir, Origin(rootdir, cwd, path0), Names(path0), parent)
    ensures forall e, name :: r == Some((e, name)) <==>
              Finds(fs, rootdir, if path0 != "" && path0[0] == '/' then rootdir else cwd, Names(path0), parent, e, name)
  {
    Found(fs, rootdir, cwd, path0, parent);
    hide Finds;
    var ip: Inum := if path0 != "" && path0[0] == '/' then rootdir else cwd;
    var path := path0;
    while true
      invariant From(fs, rootdir, ip, Names(path), parent) ==
                  From(fs, rootdir, Origin(rootdir, cwd, path0), Names(path0), parent)
      decreases |path|
    {
      hide Names;
      ghost var names := Names(path);
      var rest, name := SkipElem(path);
      if rest.None? {
        break;
      }
      path := rest.value;
      assert names[0] == name && names[1..] == Names(path);
      if ip !in fs || !fs[ip].Dir? {
        NotDir(fs, rootdir, ip, names, parent);
        return None;
      }
      if parent && path == "" {
        NoNames();
        assert names == [name];
        return Some((ip, name));
      }
      FromStep(fs, rootdir, ip, names, parent);
      if name !in fs[ip].entries {
        return None;
      }
      var next := fs[ip].entries[name];
      if rootdir == ROOTINO || next != ROOTINO {
        ip := next;
      }
    }
    if parent {
      return None;
    }
    return Some((ip, ""));
  }

  lemma Found(fs: Fs, rootdir: Inum, cwd: Inum, path: string, parent: bool)
    ensures var r := From(fs, rootdir, Origin(rootdir, cwd, path), Names(path), parent);
            forall e, name :: r == Some((e, name)) <==>
              Finds(fs, rootdir, if path != "" && path[0] == '/' then rootdir else cwd, Names(path), parent, e, name)
  {
    hide Finds, From, Names;
    var r := From(fs, rootdir, Origin(rootdir, cwd, path), Names(path), parent);
    forall e, name
      ensures r == Some((e, name)) <==>
        Finds(fs, rootdir, if path != "" && path[0] == '/' then rootdir else cwd, Names(path), parent, e, name)
    {
      FromFinds(fs, rootdir, Origin(rootdir, cwd, path), Names(path), parent, e, name);
    }
  }

  lemma NoNames()
    ensures Names("") == []
  {
  }

  lemma NotDir(fs: Fs, rootdir: Inum, ip: Inum, names: seq<string>, parent: bool)
    requires names != [] && (ip !in fs || !fs[ip].Dir?)
    ensures From(fs, rootdir, ip, names, parent) == None
  {
  }

  // ----- Processes -----

  /** A process: its container's root directory and its working directory. */
  datatype Proc = Proc(rootdir: Inum, cwd: Inum)

  type State = map<nat, Proc>

  /** The file system may be another one at each step. */
  datatype Event =
    | ChDir(p: nat, fs: Fs, path: string)
    | Fork(p: nat, np: nat)                    // fork(0): same container, same working directory
    | Cfork(p: nat, np: nat, rootdir: Inum)    // fork into a container: start at its root directory

  predicate IsDir(fs: Fs, d: Inum) {
    d in fs && fs[d].Dir?
  }

  predicate Enabled(s: State, e: Event) {
    e.p in s && (e.ChDir? || e.np !in s)
  }

  function Apply(s: State, e: Event): State
    requires Enabled(s, e)
  {
    match e
    case ChDir(p, fs, path) =>
      var r := Resolve(fs, s[p].rootdir, s[p].cwd, path);
      if r.Some? && IsDir(fs, r.value) then s[p := s[p].(cwd := r.value)] else s
    case Fork(p, np) => s[np := s[p]]
    case Cfork(p, np, rootdir) => s[np := Proc(rootdir, rootdir)]
  }

  /** What the steps do, said without walking: chdir goes where the path leads, if that is a directory, and
      nowhere else; a child starts where its parent is, or at the root of the container it is put into. */
  lemma StepLaw(s: State, e: Event, q: nat, d: Inum)
    requires Enabled(s, e)
    ensures e.ChDir? ==>
              var start := if e.path != "" && e.path[0] == '/' then s[e.p].rootdir else s[e.p].cwd;
              var found := Reaches(e.fs, s[e.p].rootdir, start, Names(e.path), d) && IsDir(e.fs, d);
              && Apply(s, e).Keys == s.Keys && (found ==> Apply(s, e)[e.p].cwd == d)
              && (Apply(s, e)[e.p].cwd == d && d != s[e.p].cwd ==> found)
              && Apply(s, e)[e.p].rootdir == s[e.p].rootdir
    ensures e.Fork? ==> e.np in Apply(s, e) && Apply(s, e)[e.np] == s[e.p]
    ensures e.Cfork? ==> e.np in Apply(s, e) && Apply(s, e)[e.np] == Proc(e.rootdir, e.rootdir)
    ensures q in s && (e.ChDir? ==> q != e.p) ==> q in Apply(s, e) && Apply(s, e)[q] == s[q]
  {
    if e.ChDir? {
      hide Names, Walk, Reaches;
      WalksChain(e.fs, s[e.p].rootdir, Origin(s[e.p].rootdir, s[e.p].cwd, e.path), Names(e.path), d);
    }
  }

  ghost predicate Runs(s: State, es: seq<Event>)
    decreases |es|
  {
    es == [] || (Enabled(s, es[0]) && Runs(Apply(s, es[0]), es[1..]))
  }

  ghost function After(s: State, es: seq<Event>): State
    requires Runs(s, es)
    decreases |es|
  {
    if es == [] then s else After(Apply(s, es[0]), es[1..])
  }

  // ----- The root directory is out of reach -----

  ghost predicate Inside(s: State) {
    forall p :: p in s && s[p].rootdir != ROOTINO ==> s[p].cwd != ROOTINO
  }

  lemma {:induction false} WalkInside(fs: Fs, rootdir: Inum, ip: Inum, names: seq<string>)
    requires rootdir != ROOTINO && ip != ROOTINO
    ensures Walk(fs, rootdir, ip, names) != Some(ROOTINO)
    decreases |names|
  {
    if names != [] {
      var next := Step(fs, rootdir, ip, names[0]);
      if next.Some? { WalkInside(fs, rootdir, next.value, names[1..]); }
    }
  }

  lemma {:induction false} RunInside(s: State, es: seq<Event>)
    requires Inside(s) && Runs(s, es)
    ensures Inside(After(s, es))
    decreases |es|
  {
    if es != [] {
      var e := es[0];
      if e.ChDir? {
        var p := s[e.p];
        if p.rootdir != ROOTINO { WalkInside(e.fs, p.rootdir, Origin(p.rootdir, p.cwd, e.path), Names(e.path)); }
      }
      RunInside(Apply(s, e), es[1..]);
    }
  }

  /** However a confined process and its descendants change directory, no path, in any file system, leads
      any of them to the root directory, as an object or as the directory to change. */
  lemma Confined(s: State, es: seq<Event>, p: nat, fs: Fs, path: string, parent: bool)
    requires Inside(s) && Runs(s, es) && p in After(s, es) && After(s, es)[p].rootdir != ROOTINO
    ensures var q := After(s, es)[p];
            var r := From(fs, q.rootdir, Origin(q.rootdir, q.cwd, path), Names(path), parent);
            q.cwd != ROOTINO && (r.Some? ==> r.value.0 != ROOTINO)
  {
    hide Runs, After, Names;
    RunInside(s, es);
    var q, names := After(s, es)[p], Names(path);
    WalkInside(fs, q.rootdir, Origin(q.rootdir, q.cwd, path), names);
    if names != [] { WalkInside(fs, q.rootdir, Origin(q.rootdir, q.cwd, path), names[..|names| - 1]); }
  }

  // ----- In a tree of directories, the walk stays below the container's root directory -----

  /** Each directory lists itself as ".", its parent as "..", and otherwise only its children. */
  ghost predicate TreeFs(fs: Fs, up: map<Inum, Inum>) {
    && ROOTINO !in up
    && forall d, name :: IsDir(fs, d) && name in fs[d].entries ==> Proper(fs, up, d, name, fs[d].entries[name])
  }

  predicate Proper(fs: Fs, up: map<Inum, Inum>, d: Inum, name: string, e: Inum) {
    if name == "." then e == d
    else if name == ".." then (if d == ROOTINO then e == ROOTINO else d in up && e == up[d])
    else IsDir(fs, e) ==> e in up && up[e] == d
  }

  function Climb(up: map<Inum, Inum>, d: Inum, n: nat): Option<Inum>
    decreases n
  {
    if n == 0 then Some(d) else if d in up then Climb(up, up[d], n - 1) else None
  }

  ghost predicate Below(up: map<Inum, Inum>, top: Inum, d: Inum) {
    exists n :: Climb(up, d, n) == Some(top)
  }

  lemma StepBelow(fs: Fs, up: map<Inum, Inum>, rootdir: Inum, ip: Inum, name: string)
    requires TreeFs(fs, up) && rootdir in up && up[rootdir] == ROOTINO && Below(up, rootdir, ip)
    requires Step(fs, rootdir, ip, name).Some? && IsDir(fs, Step(fs, rootdir, ip, name).value)
    ensures Below(up, rootdir, Step(fs, rootdir, ip, name).value)
  {
    var n: nat :| Climb(up, ip, n) == Some(rootdir);
    var e := fs[ip].entries[name];
    assert Proper(fs, up, ip, name, e);
    if e != ROOTINO {
      if name == ".." {
        assert n > 0;
        assert Climb(up, e, n - 1) == Some(rootdir);
      } else if name != "." {
        assert Climb(up, e, n + 1) == Some(rootdir);
      }
    }
  }

  /** Every directory the walk comes to lies below the container's root directory. */
  lemma {:induction false} WalkBelow(fs: Fs, up: map<Inum, Inum>, rootdir: Inum, ip: Inum, names: seq<string>, k: nat)
    requires TreeFs(fs, up) && rootdir in up && up[rootdir] == ROOTINO && Below(up, rootdir, ip) && k <= |names|
    ensures var d := Walk(fs, rootdir, ip, names[..k]); d.Some? && IsDir(fs, d.value) ==> Below(up, rootdir, d.value)
    decreases k
  {
    if k > 0 {
      hide TreeFs, Below;
      var next := Step(fs, rootdir, ip, names[0]);
      assert names[..k][1..] == names[1..][..k - 1];
      if next.Some? {
        if IsDir(fs, next.value) {
          StepBelow(fs, up, rootdir, ip, names[0]);
          WalkBelow(fs, up, rootdir, next.value, names[1..], k - 1);
        } else if k > 1 {
          assert Walk(fs, rootdir, next.value, names[1..][..k - 1]) == None;
        }
      }
    }
  }

  /** Containers start in children of the root directory, and their processes are below them. */
  ghost predicate Sheltered(s: State, up: map<Inum, Inum>) {
    forall p :: p in s && s[p].rootdir != ROOTINO ==>
      s[p].rootdir in up && up[s[p].rootdir] == ROOTINO && Below(up, s[p].rootdir, s[p].cwd)
  }

  ghost predicate Trees(es: seq<Event>, up: map<Inum, Inum>) {
    forall i :: 0 <= i < |es| ==>
      && (es[i].ChDir? ==> TreeFs(es[i].fs, up))
      && (es[i].Cfork? && es[i].rootdir != ROOTINO ==> es[i].rootdir in up && up[es[i].rootdir] == ROOTINO)
  }

  lemma {:induction false} RunSheltered(s: State, es: seq<Event>, up: map<Inum, Inum>)
    requires Sheltered(s, up) && Runs(s, es) && Trees(es, up)
    ensures Sheltered(After(s, es), up)
    decreases |es|
  {
    if es != [] {
      var e, t := es[0], Apply(s, es[0]);
      assert Sheltered(t, up) by {
        hide TreeFs, Climb, Names, Walk;
        match e
        case ChDir(p, fs, path) => ChDirBelow(s[p], fs, path, up);
        case Fork(_, _) =>
        case Cfork(_, np, r) => if r != ROOTINO { Top(up, r); }
      }
      assert Trees(es[1..], up);
      hide Trees, Sheltered, Apply, Enabled;
      RunSheltered(t, es[1..], up);
    }
  }

  lemma Top(up: map<Inum, Inum>, r: Inum)
    ensures Below(up, r, r)
  {
    assert Climb(up, r, 0) == Some(r);
  }

  lemma ChDirBelow(p: Proc, fs: Fs, path: string, up: map<Inum, Inum>)
    requires TreeFs(fs, up)
    requires p.rootdir != ROOTINO ==> p.rootdir in up && up[p.rootdir] == ROOTINO && Below(up, p.rootdir, p.cwd)
    ensures var r := Resolve(fs, p.rootdir, p.cwd, path);
            p.rootdir != ROOTINO && r.Some? && IsDir(fs, r.value) ==> Below(up, p.rootdir, r.value)
  {
    hide TreeFs, Below, Names;
    if p.rootdir != ROOTINO {
      var names := Names(path);
      Top(up, p.rootdir);
      WalkBelow(fs, up, p.rootdir, Origin(p.rootdir, p.cwd, path), names, |names|);
      assert names[..|names|] == names;
    }
  }

  /** Over a whole run, a confined process resolves paths only through directories of its container's subtree. */
  lemma StaysBelow(s: State, es: seq<Event>, up: map<Inum, Inum>, p: nat, fs: Fs, path: string, k: nat)
    requires Sheltered(s, up) && Runs(s, es) && Trees(es, up) && TreeFs(fs, up)
    requires p in After(s, es) && After(s, es)[p].rootdir != ROOTINO && k <= |Names(path)|
    ensures var q := After(s, es)[p];
            var d := Walk(fs, q.rootdir, Origin(q.rootdir, q.cwd, path), Names(path)[..k]);
            d.Some? && IsDir(fs, d.value) ==> Below(up, q.rootdir, d.value)
  {
    hide Runs, After, Trees, TreeFs, Below, Names;
    RunSheltered(s, es, up);
    var q := After(s, es)[p];
    Top(up, q.rootdir);
    WalkBelow(fs, up, q.rootdir, Origin(q.rootdir, q.cwd, path), Names(path), k);
  }
}
