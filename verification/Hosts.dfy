/** The host store beneath the VFS (core/hostfs.h) as an object: its tree, the
    handles that are open, and a script of refusals it may answer with. */
module Hosts {
  import opened Errors
  import opened Paths
  import opened Trees
  import opened TreeEdits
  import Resolution

  /** An open host object; 0 is none. */
  type Handle = nat

  datatype OpenFlags = OpenFlags(dir: bool, nodir: bool, create: bool, excl: bool, reparse: bool)

  const PLAIN := OpenFlags(false, false, false, false, false)

  /** One answer of the host to come: it works, or it refuses with an errno of its own. */
  datatype Answer = Works | Refuses(errno: HostErrno)

  /** A successful open; `reparse` is the positive return HFS_REPARSE. */
  datatype Opened = Opened(h: Handle, reparse: bool)

  predicate IsReparse(objs: Objects, n: NodeId) {
    n in objs && (objs[n].Symlink? || objs[n] == Plain(true))
  }

  /** Opening an existing object `n` (hfs_openat's contract): the object, or the
      reparse point itself, or the refusal of the wrong kind. */
  function OpenExisting(objs: Objects, n: NodeId, f: OpenFlags): Result<bool> {
    if f.create && f.excl then Err(EEXIST)
    else if IsReparse(objs, n) then Ok(!f.reparse)
    else if f.dir && !IsDir(objs, n) then Err(ENOTDIR)
    else if f.nodir && IsDir(objs, n) then Err(EISDIR)
    else Ok(false)
  }

  /** hfs_rename's answer: where the target lies is not its concern. */
  function MoveAnswer(objs: Objects, od: NodeId, on: string, nd: NodeId, nn: string, noreplace: bool): Result<()> {
    match Lookup(objs, od, on)
    case Err(e) => Err(e)
    case Ok(_) =>
      if noreplace && Lookup(objs, nd, nn).Ok? then Err(EEXIST)
      else if !Movable(objs, od, on, nd, nn) then Err(EACCES)
      else Ok(())
  }

  /** What the creating half of an open comes to: an open file, or a link's target to create through. */
  datatype Tried = Got(h: Handle) | Follow(target: string)

  datatype CreateAim = CreateNew | CreateOpen(n: NodeId) | CreateThrough(target: string)

  /** O_CREAT on `name` in the directory `d`. */
  function CreateAnswer(objs: Objects, d: NodeId, name: string, wantDir: bool, excl: bool): Result<CreateAim> {
    if wantDir then Err(EINVAL)
    else match Lookup(objs, d, name)
      case Err(e) => if e == ENOENT then Ok(CreateNew) else Err(e)
      case Ok(n) =>
        if excl then Err(EEXIST)
        else if IsLink(objs, n) then
          var t := objs[n].target;
          if Resolution.Usable(t) then Ok(CreateThrough(t)) else Err(ENOENT)
        else if IsReparse(objs, n) then Err(ENXIO)
        else if IsDir(objs, n) then Err(EISDIR)
        else Ok(CreateOpen(n))
  }

  /** The creating half of an open came to what it was to come to. */
  ghost predicate Tries(a: Result<CreateAim>, r: Result<Tried>, made: bool, live: map<Handle, NodeId>) {
    match a
    case Err(errno) => r == Err(errno)
    case Ok(CreateNew) => made
    case Ok(CreateOpen(n)) => r.Ok? && r.value.Got? && !made && r.value.h in live && live[r.value.h] == n
    case Ok(CreateThrough(t)) => r == Ok(Follow(t))
  }

  /** hfs_link's answer. */
  function TieAnswer(objs: Objects, d: NodeId, name: string, n: NodeId): Result<()> {
    if n !in objs then Err(ENOENT)
    else if IsDir(objs, n) then Err(EPERM)
    else match Lookup(objs, d, name)
      case Ok(_) => Err(EEXIST)
      case Err(e) => if e != ENOENT then Err(e) else Ok(())
  }

  /** hfs_unlink's answer: the name goes if it is of the kind asked for, a directory only when empty. */
  function RemoveAnswer(objs: Objects, d: NodeId, name: string, isDir: bool): Result<()> {
    match Lookup(objs, d, name)
    case Err(e) => Err(e)
    case Ok(n) =>
      if isDir && !IsDir(objs, n) then Err(ENOTDIR)
      else if !isDir && IsDir(objs, n) then Err(EISDIR)
      else if isDir && !EmptyDir(objs, n) then Err(ENOTEMPTY)
      else Ok(())
  }

  class Host {
    var objs: Objects
    var live: map<Handle, NodeId>
    var nextHandle: Handle
    var nextNode: NodeId
    var script: seq<Answer>

    ghost predicate Valid()
      reads this
    {
      && 0 < nextHandle
      && (forall h :: h in live ==> 0 < h < nextHandle)
      && (forall n :: n in objs ==> n < nextNode)
    }

    /** The host refuses nothing from here on. */
    ghost predicate Quiet()
      reads this
    {
      forall i :: 0 <= i < |script| ==> script[i].Works?
    }

    method Ask() returns (a: Answer)
      modifies this`script
      ensures old(Quiet()) ==> a.Works? && Quiet()
    {
      if script == [] {
        a := Works;
      } else {
        a := script[0];
        script := script[1..];
      }
    }

    method NewHandle(n: NodeId) returns (h: Handle)
      requires Valid()
      modifies this`live, this`nextHandle
      ensures Valid() && h != 0 && h !in old(live) && live == old(live)[h := n]
    {
      h := nextHandle;
      nextHandle := nextHandle + 1;
      live := live[h := n];
    }

    method OpenAt(dir: Handle, name: string, f: OpenFlags) returns (r: Result<Opened>)
      requires Valid() && dir in live && IsName(name)
      modifies this
      ensures Valid()
      ensures r.Err? ==> live == old(live) && objs == old(objs)
      ensures r != Err(Unspecified) && (r.Err? && !(f.create && f.excl) ==> Refused(r))
      ensures r.Ok? ==>
                && r.value.h != 0 && r.value.h !in old(live) && r.value.h in live
                && live == old(live)[r.value.h := live[r.value.h]]
                && live[r.value.h] in objs
      ensures r.Ok? ==>
                var n := live[r.value.h];
                || (objs == old(objs) && Lookup(objs, old(live)[dir], name) == Ok(n)
                    && OpenExisting(objs, n, f) == Ok(r.value.reparse))
                || (f.create && n !in old(objs) && !r.value.reparse
                    && Accepts(old(objs), Make(old(live)[dir], name, n, Plain(false)))
                    && objs == Create(old(objs), old(live)[dir], name, n, Plain(false)))
      ensures old(Quiet()) ==> Quiet()
      ensures r.Ok? ==> !(f.dir && f.nodir)
      ensures old(Quiet()) && r.Err? ==>
                if f.dir && f.nodir then r == Err(EINVAL)
                else match Lookup(objs, old(live)[dir], name)
                  case Err(e) => r == Err(e) && !(e == ENOENT && f.create)
                  case Ok(n) => OpenExisting(objs, n, f) == Err(r.errno)
    {
      var a := Ask();
      if a.Refuses? { return Err(a.errno); }
      if f.dir && f.nodir { return Err(EINVAL); }
      match Lookup(objs, live[dir], name)
      case Err(e) =>
        if e != ENOENT || !f.create { return Err(e); }
        var n := nextNode;
        nextNode := nextNode + 1;
        objs := Create(objs, live[dir], name, n, Plain(false));
        var h := NewHandle(n);
        return Ok(Opened(h, false));
      case Ok(n) =>
        match OpenExisting(objs, n, f)
        case Err(e) => return Err(e);
        case Ok(reparse) =>
          var h := NewHandle(n);
          return Ok(Opened(h, reparse));
    }

    /** Closing needs an open handle: a handle is closed at most once. */
    method Close(h: Handle)
      requires Valid() && h in live
      modifies this`live
      ensures Valid() && live == old(live) - {h}
    {
      live := live - {h};
    }

    /** hfs_open_root: seat a mount on a host directory. */
    method OpenRoot(n: NodeId) returns (r: Result<Handle>)
      requires Valid()
      modifies this`live, this`nextHandle, this`script
      ensures Valid()
      ensures r.Err? ==> Refused(r)
      ensures r.Err? ==> live == old(live)
      ensures r.Ok? ==> r.value != 0 && r.value !in old(live) && live == old(live)[r.value := n]
    {
      var a := Ask();
      if a.Refuses? { return Err(a.errno); }
      var h := NewHandle(n);
      return Ok(h);
    }

    /** A second handle on the object behind `h`, insisting on a directory if asked. */
    method Reopen(h: Handle, dir: bool) returns (r: Result<Handle>)
      requires Valid() && h in live
      modifies this`live, this`nextHandle, this`script
      ensures Valid()
      ensures r.Err? ==> Refused(r)
      ensures r.Err? ==> live == old(live)
      ensures r.Ok? ==> r.value != 0 && r.value !in old(live) && live == old(live)[r.value := old(live)[h]]
      ensures r.Ok? && dir ==> IsDir(objs, live[h])
      ensures old(Quiet()) ==> Quiet() && (r.Err? ==> dir && !IsDir(objs, live[h]) && r == Err(ENOTDIR))
    {
      var a := Ask();
      if a.Refuses? { return Err(a.errno); }
      if dir && !IsDir(objs, live[h]) { return Err(ENOTDIR); }
      var g := NewHandle(live[h]);
      return Ok(g);
    }

    /** Stat an open object: which object it is. */
    method Stat(h: Handle) returns (r: Result<NodeId>)
      requires Valid() && h in live
      modifies this`script
      ensures Valid()
      ensures r.Err? ==> Refused(r)
      ensures r.Ok? ==> r == Ok(live[h])
      ensures old(Quiet()) ==> Quiet() && r.Ok?
    {
      var a := Ask();
      if a.Refuses? { return Err(a.errno); }
      return Ok(live[h]);
    }

    /** Stat one component without keeping it open: an open of the object itself, then a close. */
    method StatAt(dir: Handle, name: string) returns (r: Result<NodeId>)
      requires Valid() && dir in live && IsName(name)
      modifies this
      ensures Valid() && live == old(live) && objs == old(objs)
      ensures r.Err? ==> Refused(r)
      ensures r.Ok? ==> r == Lookup(objs, live[dir], name)
      ensures old(Quiet()) ==> Quiet() && r == Lookup(objs, live[dir], name)
    {
      var o := OpenAt(dir, name, PLAIN.(reparse := true));
      if o.Err? { return Err(o.errno); }
      r := Ok(live[o.value.h]);
      Close(o.value.h);
      assert live == old(live);
    }

    /** The target of an open link. */
    method ReadLink(h: Handle) returns (r: Result<string>)
      requires Valid() && h in live
      modifies this`script
      ensures Valid()
      ensures r.Err? ==> Refused(r)
      ensures r.Ok? ==> IsLink(objs, live[h]) && r.value == objs[live[h]].target
      ensures old(Quiet()) ==> Quiet() && (IsLink(objs, live[h]) ==> r.Ok?)
    {
      var a := Ask();
      if a.Refuses? { return Err(a.errno); }
      if !IsLink(objs, live[h]) { return Err(EINVAL); }
      return Ok(objs[live[h]].target);
    }

    /** Open an existing `name` under `dir` and let `dir` go. */
    method OpenThenClose(dir: Handle, name: string, f: OpenFlags) returns (r: Result<Opened>)
      requires Valid() && dir in live && IsName(name) && !f.create && !(f.dir && f.nodir)
      modifies this
      ensures Valid() && objs == old(objs)
      ensures r.Err? ==> live == old(live) - {dir}
      ensures r.Err? ==> Refused(r)
      ensures r.Ok? ==>
                && r.value.h != 0 && r.value.h !in old(live) && r.value.h in live
                && live == (old(live) - {dir})[r.value.h := live[r.value.h]]
                && Lookup(objs, old(live)[dir], name) == Ok(live[r.value.h])
                && OpenExisting(objs, live[r.value.h], f) == Ok(r.value.reparse)
      ensures old(Quiet()) ==> Quiet()
      ensures old(Quiet()) && r.Err? ==>
                match Lookup(objs, old(live)[dir], name)
                case Err(e) => r == Err(e)
                case Ok(n) => OpenExisting(objs, n, f) == Err(r.errno)
    {
      r := OpenAt(dir, name, f);
      Close(dir);
    }

    /** The creating half of `vfs_open` under an open parent, which it lets go: a
        file opened or made, or the target of a link to create through. */
    method CreateThenClose(dir: Handle, name: string, wantDir: bool, excl: bool) returns (r: Result<Tried>, ghost made: bool)
      requires Valid() && dir in live && IsName(name)
      modifies this
      ensures Valid()
      ensures r.Ok? && r.value.Got? ==>
                && r.value.h != 0 && r.value.h !in old(live) && r.value.h in live
                && live == (old(live) - {dir})[r.value.h := live[r.value.h]]
      ensures !(r.Ok? && r.value.Got?) ==> live == old(live) - {dir}
      ensures made ==> r.Ok? && r.value.Got?
                       && Accepts(old(objs), Make(old(live)[dir], name, live[r.value.h], Plain(false)))
                       && objs == Apply(old(objs), Make(old(live)[dir], name, live[r.value.h], Plain(false)))
      ensures !made ==> objs == old(objs)
      ensures old(Quiet()) ==> Quiet()
      ensures r != Err(Unspecified)
      ensures r.Ok? || old(Quiet()) ==>
                Tries(CreateAnswer(old(objs), old(live)[dir], name, wantDir, excl), r, made, live)
    {
      made := false;
      var o := OpenAt(dir, name, PLAIN.(create := true, nodir := true, dir := wantDir, excl := excl));
      Close(dir);
      if o.Err? { return Err(o.errno), made; }
      var h := o.value.h;
      if o.value.reparse {
        if excl { r := Err(EEXIST); }
        else if !IsLink(objs, live[h]) { r := Err(ENXIO); }
        else {
          var t := ReadLink(h);
          r := if t.Err? || !Resolution.Usable(t.value) then Err(ENOENT) else Ok(Follow(t.value));
        }
        Close(h);
        assert live == old(live) - {dir};
        return;
      }
      if IsDir(objs, live[h]) {
        Close(h);
        return Err(EISDIR), made;
      }
      made := objs != old(objs);
      return Ok(Got(h)), made;
    }

    /** Stat `name` under `dir` and let `dir` go. */
    method StatThenClose(dir: Handle, name: string) returns (r: Result<NodeId>)
      requires Valid() && dir in live && IsName(name)
      modifies this
      ensures Valid() && live == old(live) - {dir} && objs == old(objs)
      ensures r.Err? ==> Refused(r)
      ensures r.Ok? ==> r == Lookup(objs, old(live)[dir], name)
      ensures old(Quiet()) ==> Quiet() && r == Lookup(objs, old(live)[dir], name)
    {
      r := StatAt(dir, name);
      Close(dir);
    }

    /** Open the link `name` under `dir`, let `dir` go, read the link and let it go. */
    method LinkThenClose(dir: Handle, name: string) returns (r: Result<string>)
      requires Valid() && dir in live && IsName(name)
      modifies this
      ensures Valid() && live == old(live) - {dir} && objs == old(objs)
      ensures r.Err? ==> Refused(r)
      ensures var n := Lookup(objs, old(live)[dir], name);
              && (r.Ok? ==> n.Ok? && IsLink(objs, n.value) && r.value == objs[n.value].target)
              && (old(Quiet()) && n.Ok? && IsLink(objs, n.value) ==> r.Ok?)
      ensures old(Quiet()) ==> Quiet()
    {
      var l := OpenAt(dir, name, PLAIN.(reparse := true));
      Close(dir);
      if l.Err? { return Err(l.errno); }
      r := ReadLink(l.value.h);
      Close(l.value.h);
      assert live == old(live) - {dir};
    }

    // ---- the edits ----

    /** hfs_mkdir, hfs_symlink and hfs_mknod: a new object under an unused name. */
    method MakeAt(dir: Handle, name: string, o: Object) returns (r: Result<NodeId>)
      requires Valid() && dir in live && IsName(name)
      requires o.Directory? ==> o == Directory(map[], live[dir])
      modifies this
      ensures Valid() && live == old(live)
      ensures r != Err(Unspecified)
      ensures r.Err? ==> objs == old(objs)
      ensures r.Ok? ==> Accepts(old(objs), Make(live[dir], name, r.value, o))
                        && objs == Create(old(objs), live[dir], name, r.value, o)
      ensures old(Quiet()) ==> Quiet()
      ensures old(Quiet()) && r.Err? ==>
                match Lookup(objs, live[dir], name) case Ok(_) => r == Err(EEXIST) case Err(e) => r == Err(e) && e != ENOENT
    {
      var a := Ask();
      if a.Refuses? { return Err(a.errno); }
      match Lookup(objs, live[dir], name)
      case Ok(_) => return Err(EEXIST);
      case Err(e) =>
        if e != ENOENT { return Err(e); }
        r := Ok(nextNode);
        objs := Create(objs, live[dir], name, nextNode, o);
        nextNode := nextNode + 1;
    }

    /** hfs_unlink: a file, or an empty directory, loses a name. */
    method UnlinkAt(dir: Handle, name: string, isDir: bool) returns (r: Result<()>)
      requires Valid() && dir in live
      modifies this
      ensures Valid() && live == old(live)
      ensures r != Err(Unspecified)
      ensures r.Err? ==> objs == old(objs)
      ensures r.Ok? ==> Accepts(old(objs), Unmake(live[dir], name)) && objs == Remove(old(objs), live[dir], name)
                        && IsDir(old(objs), old(objs)[live[dir]].entries[name]) == isDir
      ensures old(Quiet()) ==> Quiet()
      ensures r.Ok? || old(Quiet()) ==> r == RemoveAnswer(old(objs), live[dir], name, isDir)
    {
      var a := Ask();
      if a.Refuses? { return Err(a.errno); }
      match Lookup(objs, live[dir], name)
      case Err(e) => return Err(e);
      case Ok(n) =>
        if isDir && !IsDir(objs, n) { return Err(ENOTDIR); }
        if !isDir && IsDir(objs, n) { return Err(EISDIR); }
        if isDir && objs[n].entries != map[] { return Err(ENOTEMPTY); }
        objs := Remove(objs, live[dir], name);
        return Ok(());
    }

    /** hfs_link: a further name for an open object that is not a directory. */
    method LinkAt(h: Handle, dir: Handle, name: string) returns (r: Result<()>)
      requires Valid() && h in live && dir in live && IsName(name)
      modifies this
      ensures Valid() && live == old(live)
      ensures r != Err(Unspecified)
      ensures r.Err? ==> objs == old(objs)
      ensures r.Ok? ==> Accepts(old(objs), Tie(live[dir], name, live[h])) && objs == Apply(old(objs), Tie(live[dir], name, live[h]))
      ensures old(Quiet()) ==> Quiet()
      ensures r.Ok? || old(Quiet()) ==> r == TieAnswer(old(objs), live[dir], name, live[h])
    {
      var a := Ask();
      if a.Refuses? { return Err(a.errno); }
      var n := live[h];
      if n !in objs { return Err(ENOENT); }
      if IsDir(objs, n) { return Err(EPERM); }
      match Lookup(objs, live[dir], name)
      case Ok(_) => return Err(EEXIST);
      case Err(e) =>
        if e != ENOENT { return Err(e); }
        objs := AddEntry(objs, live[dir], name, n);
        return Ok(());
    }

    /** Open the file `oname` of `od` and let `od` go; give the file the name `nname` in `nd`; let both go. */
    method LinkThenCloseAll(od: Handle, oname: string, nd: Handle, nname: string) returns (r: Result<()>, ghost n: NodeId)
      requires Valid() && od in live && nd in live && od != nd && IsName(oname) && IsName(nname)
      modifies this
      ensures Valid() && live == old(live) - {od} - {nd}
      ensures r != Err(Unspecified)
      ensures r.Err? ==> objs == old(objs)
      ensures r.Ok? ==> Accepts(old(objs), Tie(old(live)[nd], nname, n)) && objs == Apply(old(objs), Tie(old(live)[nd], nname, n))
                        && Lookup(old(objs), old(live)[od], oname) == Ok(n)
      ensures old(Quiet()) ==> Quiet()
      ensures r.Ok? || old(Quiet()) ==>
                var x := Lookup(old(objs), old(live)[od], oname);
                r == if x.Err? then Err(x.errno) else TieAnswer(old(objs), old(live)[nd], nname, x.value)
    {
      n := 0;
      var o := OpenThenClose(od, oname, PLAIN.(reparse := true));
      if o.Err? {
        Close(nd);
        return Err(o.errno), n;
      }
      n := live[o.value.h];
      r := LinkAt(o.value.h, nd, nname);
      Close(o.value.h);
      Close(nd);
      assert live == old(live) - {od} - {nd};
    }

    /** hfs_rename. Where the target lies is not this call's concern. */
    method RenameAt(od: Handle, on: string, nd: Handle, nn: string, noreplace: bool) returns (r: Result<()>)
      requires Valid() && od in live && nd in live && IsName(nn)
      modifies this
      ensures Valid() && live == old(live)
      ensures r != Err(Unspecified)
      ensures r.Err? ==> objs == old(objs)
      ensures r.Ok? ==> Accepts(old(objs), Relocate(live[od], on, live[nd], nn))
                        && objs == Move(old(objs), live[od], on, live[nd], nn)
                        && (noreplace ==> Lookup(old(objs), live[nd], nn).Err?)
      ensures old(Quiet()) ==> Quiet()
      ensures r.Ok? || old(Quiet()) ==>
                r == MoveAnswer(old(objs), live[od], on, live[nd], nn, noreplace)
    {
      var a := Ask();
      if a.Refuses? { return Err(a.errno); }
      match Lookup(objs, live[od], on)
      case Err(e) => return Err(e);
      case Ok(_) =>
        if noreplace && Lookup(objs, live[nd], nn).Ok? { return Err(EEXIST); }
        if !Movable(objs, live[od], on, live[nd], nn) { return Err(EACCES); }
        objs := Move(objs, live[od], on, live[nd], nn);
        return Ok(());
    }

    /** Rename between two open directories and let both go; `seen` turns the
        host's EACCES on a directory in the way into ENOTEMPTY. */
    method RenameThenClose(od: Handle, on: string, nd: Handle, nn: string, noreplace: bool, seen: bool) returns (r: Result<()>)
      requires Valid() && od in live && nd in live && od != nd && IsName(nn)
      modifies this
      ensures Valid() && live == old(live) - {od} - {nd}
      ensures r != Err(Unspecified)
      ensures r.Err? ==> objs == old(objs)
      ensures r.Ok? ==> Accepts(old(objs), Relocate(old(live)[od], on, old(live)[nd], nn))
                        && objs == Apply(old(objs), Relocate(old(live)[od], on, old(live)[nd], nn))
      ensures old(Quiet()) ==> Quiet()
      ensures r.Ok? || old(Quiet()) ==>
                var m := MoveAnswer(old(objs), old(live)[od], on, old(live)[nd], nn, noreplace);
                r == if m == Err(EACCES) && seen then Err(ENOTEMPTY) else m
    {
      r := RenameAt(od, on, nd, nn, noreplace);
      if r == Err(EACCES) && seen { r := Err(ENOTEMPTY); }
      Close(od);
      Close(nd);
    }
  }
}
