/** The errno values the file layer answers with, and the two-way result. */
module Errors {
  datatype Errno =
    | EPERM | ENOENT | EIO | ENXIO | EBADF | EAGAIN | ENOMEM | EACCES | EFAULT | EBUSY | EEXIST
    | EXDEV | ENOTDIR | EISDIR | EINVAL | EMFILE | ESPIPE | EPIPE | ERANGE | ENAMETOOLONG
    | ENOTEMPTY | ELOOP | EMLINK | ENOSPC | EROFS | ENOTSUP
    | Unspecified  // not an errno: the C program's behaviour is undefined here

  datatype Result<+T> = Ok(value: T) | Err(errno: Errno)

  /** What the host may refuse a call with. EEXIST is no refusal: the host says it only of a
      name that is there (core/hostfs_nt.c:261). */
  type HostErrno = e: Errno | e != Unspecified && e != EEXIST witness EIO

  /** A failure that tells of no name in the way, and is the C program's own. */
  predicate Refused<T>(r: Result<T>) {
    r.Err? && r.errno != Unspecified && r.errno != EEXIST
  }
}

/** The host store as objects with parent pointers. */
module Trees {
  import opened Errors
  import opened Paths

  type NodeId = nat

  datatype Object =
    | Directory(entries: map<string, NodeId>, parent: NodeId)
    | Symlink(target: string)
    | Plain(special: bool)

  type Objects = map<NodeId, Object>

  predicate IsDir(objs: Objects, n: NodeId) {
    n in objs && objs[n].Directory?
  }

  predicate IsLink(objs: Objects, n: NodeId) {
    n in objs && objs[n].Symlink?
  }

  function Lookup(objs: Objects, n: NodeId, name: string): Result<NodeId> {
    if !IsDir(objs, n) then Err(ENOTDIR)
    else if name !in objs[n].entries || objs[n].entries[name] !in objs then Err(ENOENT)
    else Ok(objs[n].entries[name])
  }

  /** One host open per component, each under the directory before it. */
  function Descend(objs: Objects, n: NodeId, cs: seq<string>): Result<NodeId>
    decreases |cs|
  {
    if cs == [] then Ok(n)
    else match Lookup(objs, n, cs[0])
      case Err(e) => Err(e)
      case Ok(c) => Descend(objs, c, cs[1..])
  }

  lemma {:induction false} DescendConcat(objs: Objects, n: NodeId, a: seq<string>, b: seq<string>)
    ensures Descend(objs, n, a + b) ==
            match Descend(objs, n, a) case Err(e) => Err(e) case Ok(d) => Descend(objs, d, b)
    decreases |a|
  {
    if a == [] {
      assert a + b == b;
    } else {
      assert (a + b)[0] == a[0] && (a + b)[1..] == a[1..] + b;
      match Lookup(objs, n, a[0])
      case Err(_) =>
      case Ok(c) => DescendConcat(objs, c, a[1..], b);
    }
  }

  lemma DescendSnoc(objs: Objects, n: NodeId, cs: seq<string>, name: string)
    ensures Descend(objs, n, cs + [name]) ==
            match Descend(objs, n, cs) case Err(e) => Err(e) case Ok(d) => Lookup(objs, d, name)
  {
    DescendConcat(objs, n, cs, [name]);
    match Descend(objs, n, cs)
    case Err(_) =>
    case Ok(d) =>
      match Lookup(objs, d, name)
      case Err(_) =>
      case Ok(c) => assert Descend(objs, c, [name][1..]) == Ok(c);
  }

  /** The directory at the end of a descent, which must itself be one. */
  function HostDir(objs: Objects, n: NodeId, cs: seq<string>): Result<NodeId>
    decreases |cs|
  {
    if !IsDir(objs, n) then Err(ENOTDIR)
    else if cs == [] then Ok(n)
    else match Lookup(objs, n, cs[0])
      case Err(e) => Err(e)
      case Ok(c) => HostDir(objs, c, cs[1..])
  }

  /** Looking a name up in the directory at the end of `cs` descends one further. */
  lemma {:induction false} HostDirThenLookup(objs: Objects, n: NodeId, cs: seq<string>, name: string)
    ensures Descend(objs, n, cs + [name]) ==
            match HostDir(objs, n, cs) case Err(e) => Err(e) case Ok(d) => Lookup(objs, d, name)
    decreases |cs|
  {
    var all := cs + [name];
    if cs == [] {
      assert all[1..] == [];
    } else {
      assert all[0] == cs[0] && all[1..] == cs[1..] + [name];
      match Lookup(objs, n, cs[0])
      case Err(_) =>
      case Ok(c) => HostDirThenLookup(objs, c, cs[1..], name);
    }
  }

  lemma {:induction false} HostDirIsDir(objs: Objects, n: NodeId, cs: seq<string>)
    ensures var r := HostDir(objs, n, cs); r.Ok? ==> IsDir(objs, r.value)
    decreases |cs|
  {
    if cs != [] && Lookup(objs, n, cs[0]).Ok? {
      HostDirIsDir(objs, Lookup(objs, n, cs[0]).value, cs[1..]);
    }
  }

  lemma DescendNowhere(objs: Objects, n: NodeId, cs: seq<string>)
    requires cs == []
    ensures Descend(objs, n, cs) == Ok(n)
  {
  }

  lemma {:induction false} HostDirDescends(objs: Objects, n: NodeId, cs: seq<string>)
    ensures HostDir(objs, n, cs) ==
            match Descend(objs, n, cs)
            case Err(e) => Err(e)
            case Ok(d) => if IsDir(objs, d) then Ok(d) else Err(ENOTDIR)
    decreases |cs|
  {
    if cs != [] && Lookup(objs, n, cs[0]).Ok? {
      HostDirDescends(objs, Lookup(objs, n, cs[0]).value, cs[1..]);
    }
  }

  // ---- trees ----

  /** An entry has a component's name; a directory is listed once, by its parent. */
  ghost predicate EdgeOk(objs: Objects, d: NodeId, a: string) {
    Lookup(objs, d, a).Ok? ==>
      var c := Lookup(objs, d, a).value;
      && IsName(a)
      && (IsDir(objs, c) ==>
            && objs[c].parent == d && c != d
            && forall b {:trigger Lookup(objs, d, b)} :: Lookup(objs, d, b) == Ok(c) ==> b == a)
  }

  /** A directory lists existing objects only, and is listed unless it is a top. */
  ghost predicate NodeOk(objs: Objects, m: NodeId) {
    IsDir(objs, m) ==>
      && (forall a :: a in objs[m].entries ==> objs[m].entries[a] in objs)
      && (objs[m].parent != m ==> exists a :: Lookup(objs, objs[m].parent, a) == Ok(m))
  }

  ghost predicate Linked(objs: Objects) {
    && (forall d: NodeId, a: string {:trigger Lookup(objs, d, a)} {:trigger EdgeOk(objs, d, a)} :: EdgeOk(objs, d, a))
    && (forall m: NodeId {:trigger NodeOk(objs, m)} :: NodeOk(objs, m))
  }

  /** Following parent pointers always ends, at a top directory that is its own parent. */
  ghost predicate Ranked(objs: Objects, depth: map<NodeId, nat>) {
    forall d {:trigger objs[d].parent} {:trigger d in depth} :: IsDir(objs, d) ==>
      && d in depth
      && IsDir(objs, objs[d].parent)
      && objs[d].parent in depth
      && (objs[d].parent != d ==> depth[objs[d].parent] < depth[d])
  }

  ghost predicate IsTree(objs: Objects) {
    Linked(objs) && exists depth :: Ranked(objs, depth)
  }

  lemma {:induction false} DescendDeeper(objs: Objects, depth: map<NodeId, nat>, n: NodeId, cs: seq<string>, d: NodeId)
    requires Linked(objs) && Ranked(objs, depth)
    requires Descend(objs, n, cs) == Ok(d) && IsDir(objs, d) && IsDir(objs, n)
    ensures if cs == [] then n == d else depth[n] < depth[d]
    decreases |cs|
  {
    if cs != [] {
      var c := Lookup(objs, n, cs[0]).value;
      assert IsDir(objs, c) by {
        if cs[1..] != [] { assert Lookup(objs, c, cs[1..][0]).Ok?; }
      }
      DescendDeeper(objs, depth, c, cs[1..], d);
    }
  }

  lemma DescendParent(objs: Objects, n: NodeId, cs: seq<string>, d: NodeId)
    requires Linked(objs) && cs != []
    requires Descend(objs, n, cs) == Ok(d)
    ensures var p := Descend(objs, n, cs[..|cs| - 1]);
            && p.Ok? && IsDir(objs, p.value)
            && Lookup(objs, p.value, cs[|cs| - 1]) == Ok(d)
            && (IsDir(objs, d) ==> objs[d].parent == p.value && p.value != d)
  {
    DescendSnoc(objs, n, cs[..|cs| - 1], cs[|cs| - 1]);
    assert cs[..|cs| - 1] + [cs[|cs| - 1]] == cs;
  }

  /** In a tree a directory is reached from above by one list of names only. */
  lemma {:induction false} DescendUnique(objs: Objects, n: NodeId, a: seq<string>, b: seq<string>, d: NodeId)
    requires IsTree(objs) && IsDir(objs, n) && IsDir(objs, d)
    requires Descend(objs, n, a) == Ok(d) && Descend(objs, n, b) == Ok(d)
    ensures a == b
    decreases |a|
  {
    var depth :| Ranked(objs, depth);
    DescendDeeper(objs, depth, n, a, d);
    DescendDeeper(objs, depth, n, b, d);
    if a != [] && b != [] {
      DescendParent(objs, n, a, d);
      DescendParent(objs, n, b, d);
      DescendUnique(objs, n, a[..|a| - 1], b[..|b| - 1], objs[d].parent);
      assert a == a[..|a| - 1] + [a[|a| - 1]];
      assert b == b[..|b| - 1] + [b[|b| - 1]];
    }
  }
}
