/** What the operations of the VFS answer on a host that refuses nothing, read off the tree alone:
    directories, entries and links, with what each path leads to. */
module Outcomes {
  import opened Basics
  import opened Errors
  import opened Paths
  import opened Trees
  import opened TreeEdits
  import opened Spaces
  import opened Resolution
  import opened Hosts
  import opened Walks
  import opened Naming
  import opened Openings
  import opened Renames
  import opened VfsOps

  /** The parent of the last name is wanted; an existing object is; or a link itself. */
  const FOR_NAME := Want(true, false, true, false)
  const FOR_OBJECT := Want(true, false, false, false)
  const FOR_LINK := Want(false, false, false, false)
  const FOR_DIR := Want(true, true, false, false)

  predicate OfHostMount(mounts: seq<Mount>, pl: Place) {
    pl.seat < |mounts| && mounts[pl.seat].HostMount?
  }

  /** A file system is mounted on the name. */
  ghost predicate Covered(sp: Space, pl: Place, name: string)
    requires ValidSeats(sp.seats)
  {
    exists k: nat :: SeatedAt(sp, pl, name, k)
  }

  // ---- what a walk found, as the tree has it ----

  lemma {:induction false} ParentIsDir(sp: Space, cur: Place, cs: seq<string>, budget: nat, want: Want)
    requires ValidSeats(sp.seats) && cur.seat < |sp.seats| && want.parentOnly
    ensures var r := Resolve(sp, cur, cs, budget, want); r.Ok? ==> IsDir(sp.objs, r.value.place.node)
    decreases budget, |cs|
  {
    hide Enter, Up, Components;
    var m := Next(sp, cur, cs, budget, want);
    if m.Go? { ParentIsDir(sp, m.cur, m.cs, m.budget, if want.strict && m.slash then want.(mustDir := true) else want); }
  }

  /** What a walk for a name found: the directory, its mount, and the name in it. */
  lemma NameKnown(sp: Space, w: Result<Loc>, f: Found)
    requires IsSpace(sp) && w.Ok? && LocFits(sp.seats, w.value, true) && Agrees(sp, w, Ok(f)) && IsDir(sp.objs, f.place.node)
    ensures NodeAt(sp, Components(w.value.abs)) == Ok(f.place.node) && w.value.mount == f.place.seat && w.value.last == f.last
    ensures var cs := Components(Join(w.value.abs, w.value.last));
            && (Seated(sp.seats, cs) <==> Covered(sp, f.place, f.last))
            && (!Covered(sp, f.place, f.last) ==> NodeAt(sp, cs) == Lookup(sp.objs, f.place.node, f.last))
  {
    var abs, last := w.value.abs, w.value.last;
    JoinAppends(abs, last);
    BestUnique(sp.seats, Components(abs), w.value.mount);
    CoveredSo(sp, Components(abs), f.place, last);
  }

  lemma CoveredSo(sp: Space, cs: seq<string>, pl: Place, name: string)
    requires IsSpace(sp) && At(sp, cs) == Ok(pl) && IsDir(sp.objs, pl.node)
    ensures Seated(sp.seats, cs + [name]) <==> Covered(sp, pl, name)
    ensures !Covered(sp, pl, name) ==> NodeAt(sp, cs + [name]) == Lookup(sp.objs, pl.node, name)
  {
    forall k: nat ensures SeatedAt(sp, pl, name, k) <==> k < |sp.seats| && Point(sp.seats, k) == cs + [name] {
      SeatedIffPoint(sp, cs, pl, name, k);
    }
    if Covered(sp, pl, name) {
      var k: nat :| SeatedAt(sp, pl, name, k);
      assert Point(sp.seats, k) == cs + [name];
    } else {
      assert forall k :: 0 <= k < |sp.seats| ==> Point(sp.seats, k) != cs + [name];
      ChildLookup(sp, cs, name);
    }
  }

  lemma {:induction false} DescendIn(objs: Objects, n: NodeId, cs: seq<string>)
    requires n in objs
    ensures Descend(objs, n, cs).Ok? ==> Descend(objs, n, cs).value in objs
    decreases |cs|
  {
    if cs != [] && Lookup(objs, n, cs[0]).Ok? { DescendIn(objs, Lookup(objs, n, cs[0]).value, cs[1..]); }
  }

  /** What a walk for an object found. */
  lemma ObjectKnown(sp: Space, w: Result<Loc>, f: Found)
    requires IsSpace(sp) && w.Ok? && LocFits(sp.seats, w.value, false) && Agrees(sp, w, Ok(f))
    ensures NodeAt(sp, Components(w.value.abs)) == Ok(f.place.node) && w.value.mount == f.place.seat < |sp.seats|
    ensures Point(sp.seats, w.value.mount) == Components(w.value.abs) ==> IsDir(sp.objs, f.place.node)
    ensures f.place.node in sp.objs
  {
    BestUnique(sp.seats, Components(w.value.abs), w.value.mount);
    DescendIn(sp.objs, sp.seats[w.value.mount].root, Components(w.value.abs)[|Point(sp.seats, w.value.mount)|..]);
    if Point(sp.seats, w.value.mount) == Components(w.value.abs) { SeatIsDir(sp, w.value.mount); }
  }

  /** The path can be walked: it starts at the root, or where every directory on the way is there. */
  ghost predicate Begins(sp: Space, dir: string, path: string)
    requires ValidSeats(sp.seats)
  {
    (path != "" && path[0] == '/') || DirChain(sp, Components(dir))
  }

  function DirOf(cwd: string, b: Origin): string {
    if b.Dir? then b.path else cwd
  }

  /** The walk for a name or an object, as the tree has it. */
  ghost predicate Finds(sp: Space, w: Result<Loc>, f: Result<Found>, parent: bool)
    requires ValidSeats(sp.seats)
  {
    && (w.Err? ==> f == Err(w.errno))
    && (w.Ok? ==> f.Ok? && LocFits(sp.seats, w.value, parent) && Agrees(sp, w, f) && (parent ==> IsDir(sp.objs, f.value.place.node)))
  }

  lemma WalkFinds(sp: Space, cwd: string, b: Origin, path: string, flags: WalkFlags)
    requires IsSpace(sp) && GoodPath(cwd) && OriginFits(b) && Begins(sp, DirOf(cwd, b), path)
    ensures var w := PathAnswer(sp, cwd, b, path, flags);
            w != Err(ENAMETOOLONG) ==>
              Finds(sp, w, Leads(sp, DirOf(cwd, b), path, Want(!flags.nofollow, flags.mustdir, flags.parent, false)), flags.parent)
  {
    hide PathAnswer, Resolve, Spelled, Canonical, LocFits;
    PathLeads(sp, cwd, b, path, flags);
    PathFits(sp, cwd, b, path, flags);
    TopChain(sp);
    var dir, want := DirOf(cwd, b), Want(!flags.nofollow, flags.mustdir, flags.parent, false);
    if path != "" {
      var start := if path[0] == '/' then [] else Components(dir);
      ChainFront(sp, start);
      if flags.parent { ParentIsDir(sp, At(sp, start).value, Spelled(path, true), 40, want); }
    }
  }

  // ---- mkdir, symlink, mknod ----

  /** A new object under a name in a host directory. */
  ghost function Made(sp: Space, mounts: seq<Mount>, f: Result<Found>, what: NewObject): Result<()> {
    if what == NewLink("") then Err(ENOENT)
    else match f
      case Err(e) => Err(e)
      case Ok(x) =>
        if !OfHostMount(mounts, x.place) then Err(EACCES)
        else if what.NewLink? && |what.target| >= 4096 then Err(ENAMETOOLONG)
        else if Lookup(sp.objs, x.place.node, x.last).Ok? then Err(EEXIST)
        else Ok(())
  }

  /** The object made: a link to its target, an empty directory beneath its own, a special file. */
  predicate AsAsked(o: Object, what: NewObject, d: NodeId) {
    && (what.NewLink? ==> o.Symlink? && o.target == what.target)
    && (what.NewDir? ==> o.Directory? && o.entries == map[] && o.parent == d)
    && (what.NewSpecial? ==> o.Plain? && o.special)
  }

  lemma MakeByTree(sp: Space, mounts: seq<Mount>, w: Result<Loc>, f: Result<Found>, what: NewObject)
    requires IsSpace(sp) && Finds(sp, w, f, true)
    ensures MakeAnswer(sp, mounts, w, what) == Made(sp, mounts, f, what)
  {
    hide Agrees, LocFits, Covered, NodeAt, Components, IsSpace, Join;
    if w.Ok? { NameKnown(sp, w, f.value); }
  }

  // ---- link ----

  /** The further name for the object, or why there is none. */
  ghost function Tied(sp: Space, mounts: seq<Mount>, f: Result<Found>, g: Result<Found>): Result<Edit> {
    match f
    case Err(e) => Err(e)
    case Ok(x) =>
      if !OfHostMount(mounts, x.place) || IsDir(sp.objs, x.place.node) then Err(EPERM)
      else match g
        case Err(e) => Err(e)
        case Ok(y) =>
          if !OfHostMount(mounts, y.place) then Err(EACCES)
          else if y.place.seat != x.place.seat then Err(EXDEV)
          else if Lookup(sp.objs, y.place.node, y.last).Ok? then Err(EEXIST)
          else Ok(Tie(y.place.node, y.last, x.place.node))
  }

  lemma LinkByTree(sp: Space, mounts: seq<Mount>, w: Result<Loc>, f: Result<Found>, nw: Result<Loc>, g: Result<Found>)
    requires IsSpace(sp) && |sp.seats| == |mounts| && Finds(sp, w, f, false) && Finds(sp, nw, g, true)
    ensures LinkAnswer(sp, mounts, w, nw) == Tied(sp, mounts, f, g)
  {
    hide Agrees, LocFits, Covered, NodeAt, Components, IsSpace, Join, Point;
    if w.Ok? { ObjectKnown(sp, w, f.value); }
    if nw.Ok? { NameKnown(sp, nw, g.value); }
  }

  // ---- unlink and rmdir ----

  /** The removal of a name. */
  ghost function Gone(sp: Space, mounts: seq<Mount>, f: Result<Found>, path: string, rmdir: bool): Result<()>
    requires ValidSeats(sp.seats)
  {
    match f
    case Err(e) =>
      if e != EEXIST then Err(e)
      else if !rmdir then Err(EISDIR)
      else if path == "." || (|path| >= 2 && path[|path| - 2..] == "/.") then Err(EINVAL)
      else Err(EBUSY)
    case Ok(x) =>
      if !OfHostMount(mounts, x.place) then Err(EACCES)
      else if Covered(sp, x.place, x.last) then Err(EBUSY)
      else match Lookup(sp.objs, x.place.node, x.last)
        case Err(e) => Err(e)
        case Ok(n) =>
          if IsDir(sp.objs, n) != rmdir then Err(if rmdir then ENOTDIR else EISDIR)
          else if rmdir && !EmptyDir(sp.objs, n) then Err(ENOTEMPTY)
          else Ok(())
  }

  lemma UnlinkByTree(sp: Space, mounts: seq<Mount>, w: Result<Loc>, f: Result<Found>, path: string, rmdir: bool)
    requires IsSpace(sp) && Finds(sp, w, f, true) && !Unfit(mounts, w)
    ensures UnlinkAnswer(sp, mounts, w, path, rmdir) == Gone(sp, mounts, f, path, rmdir)
  {
    hide Agrees, LocFits, Covered, NodeAt, Components, IsSpace, Join, Seated, Fits;
    if w.Ok? { NameKnown(sp, w, f.value); }
    DotText(path);
    hide EndsInDot;
  }

  lemma DotText(path: string)
    ensures EndsInDot(path) <==> path == "." || (|path| >= 2 && path[|path| - 2..] == "/.")
  {
    if |path| >= 2 { assert path[|path| - 2..] == [path[|path| - 2], path[|path| - 1]]; }
  }

  // ---- rename ----

  /** One name moved to another. */
  ghost function Renamed(sp: Space, mounts: seq<Mount>, f: Result<Found>, g: Result<Found>, noreplace: bool): Result<()>
    requires ValidSeats(sp.seats)
  {
    match (f, g)
    case (Err(e), _) => Err(if e == EEXIST then EBUSY else e)
    case (_, Err(e)) => Err(if e == EEXIST then EBUSY else e)
    case (Ok(x), Ok(y)) =>
      if !OfHostMount(mounts, x.place) || !OfHostMount(mounts, y.place) then Err(EACCES)
      else if x.place.seat != y.place.seat then Err(EXDEV)
      else if Covered(sp, x.place, x.last) || Covered(sp, y.place, y.last) then Err(EBUSY)
      else Replaced(sp.objs, x.place.node, x.last, y.place.node, y.last, noreplace)
  }

  /** The entry `on` of `od` moved over `nn` in `nd`: a file goes over a file, a directory over an
      empty directory, and no directory to or beneath itself. */
  ghost function Replaced(objs: Objects, od: NodeId, on: string, nd: NodeId, nn: string, noreplace: bool): Result<()> {
    match Lookup(objs, od, on)
    case Err(e) => Err(e)
    case Ok(x) =>
      var v := Lookup(objs, nd, nn);
      if od == nd && on == nn then Ok(())
      else if IsDir(objs, x) && Beneath(objs, x, nd) then Err(EINVAL)
      else if v.Err? then Ok(())
      else if noreplace then Err(EEXIST)
      else if IsDir(objs, x) && !IsDir(objs, v.value) then Err(ENOTDIR)
      else if !IsDir(objs, x) && IsDir(objs, v.value) then Err(EISDIR)
      else if IsDir(objs, x) && !EmptyDir(objs, v.value) then Err(ENOTEMPTY)
      else Ok(())
  }

  lemma RenameByTree(sp: Space, mounts: seq<Mount>, ow: Result<Loc>, f: Result<Found>, nw: Result<Loc>, g: Result<Found>,
                     noreplace: bool)
    requires IsSpace(sp) && Finds(sp, ow, f, true) && Finds(sp, nw, g, true) && !UnfitPair(mounts, ow, nw)
    ensures RenameAnswer(sp, mounts, ow, nw, noreplace) == Renamed(sp, mounts, f, g, noreplace)
  {
    hide LocFits, Covered, NodeAt, Components, IsSpace, Join, Seated, Fits, DecideNames, OpenedAnswer, Replaced, Seen;
    SeatsOfSpace(sp);
    if ow.Ok? && nw.Ok? {
      NameKnown(sp, ow, f.value);
      NameKnown(sp, nw, g.value);
      var o, n, x, y := ow.value, nw.value, f.value, g.value;
      if OnHost(mounts, o) && OnHost(mounts, n) && o.mount == n.mount && Fits(o.abs, o.last) && Fits(n.abs, n.last)
         && !Covered(sp, x.place, x.last) && !Covered(sp, y.place, y.last) {
        SpotsReplace(sp, o, n, x.place, y.place, noreplace);
      }
    }
  }

  lemma SeatsOfSpace(sp: Space)
    requires IsSpace(sp)
    ensures ValidSeats(sp.seats) && IsTree(sp.objs)
  {
  }

  /** Both names in the tree: what the checks on them and the host come to. */
  lemma SpotsReplace(sp: Space, o: Loc, n: Loc, a: Place, b: Place, noreplace: bool)
    requires IsSpace(sp) && LocFits(sp.seats, o, true) && LocFits(sp.seats, n, true)
    requires At(sp, Components(o.abs)) == Ok(a) && At(sp, Components(n.abs)) == Ok(b) && a.seat == b.seat
    requires IsDir(sp.objs, a.node) && IsDir(sp.objs, b.node) && !Covered(sp, a, o.last) && !Covered(sp, b, n.last)
    requires NodeAt(sp, Components(Join(o.abs, o.last))) == Lookup(sp.objs, a.node, o.last)
    requires NodeAt(sp, Components(Join(n.abs, n.last))) == Lookup(sp.objs, b.node, n.last)
    ensures var ocand, ncand := Join(o.abs, o.last), Join(n.abs, n.last);
            var x, v := Lookup(sp.objs, a.node, o.last), Lookup(sp.objs, b.node, n.last);
            var r := Replaced(sp.objs, a.node, o.last, b.node, n.last, noreplace);
            if x.Err? then r == Err(x.errno)
            else
              match DecideNames(sp.objs, ocand, ncand, x.value, v, noreplace)
              case Err(e) => r == Err(e)
              case Ok(go) => r == if go then OpenedAnswer(sp, o, n, noreplace, Seen(sp, n)) else Ok(())
  {
    var x := Lookup(sp.objs, a.node, o.last);
    if x.Ok? {
      SameName(sp, o, n, a, b);
      if Join(o.abs, o.last) != Join(n.abs, n.last) {
        if IsDir(sp.objs, x.value) { InsideBeneath(sp, o, n, a, b, x.value); }
        assert Parents(sp, o, n) == Ok((a.node, b.node));
        hide Covered, At, NodeAt, Components, LocFits, Join, Inside, Beneath;
        MoveDecides(sp.objs, a.node, o.last, b.node, n.last, noreplace);
        hide IsSpace, Movable;
      }
    }
  }

  /** Two canonical names are one exactly when they are one entry of one directory. */
  lemma SameName(sp: Space, o: Loc, n: Loc, a: Place, b: Place)
    requires IsSpace(sp) && LocFits(sp.seats, o, true) && LocFits(sp.seats, n, true)
    requires At(sp, Components(o.abs)) == Ok(a) && At(sp, Components(n.abs)) == Ok(b) && a.seat == b.seat
    requires IsDir(sp.objs, a.node) && IsDir(sp.objs, b.node)
    ensures Join(o.abs, o.last) == Join(n.abs, n.last) <==> a.node == b.node && o.last == n.last
  {
    JoinAppends(o.abs, o.last);
    JoinAppends(n.abs, n.last);
    var ocs, ncs := Components(o.abs), Components(n.abs);
    if Join(o.abs, o.last) == Join(n.abs, n.last) {
      assert ocs == (ocs + [o.last])[..|ocs|] && ncs == (ncs + [n.last])[..|ncs|];
      assert (ocs + [o.last])[|ocs|] == o.last && (ncs + [n.last])[|ncs|] == n.last;
    }
    if a.node == b.node && o.last == n.last {
      PlaceUnique(sp, ocs, ncs, a);
      RenderBack(o.abs);
      RenderBack(n.abs);
    }
  }

  lemma RenderBack(abs: string)
    requires Canonical(abs)
    ensures abs == Render(Components(abs))
  {
  }

  lemma InsideBeneath(sp: Space, o: Loc, n: Loc, a: Place, b: Place, x: NodeId)
    requires IsSpace(sp) && LocFits(sp.seats, o, true) && LocFits(sp.seats, n, true)
    requires At(sp, Components(o.abs)) == Ok(a) && At(sp, Components(n.abs)) == Ok(b) && a.seat == b.seat
    requires IsDir(sp.objs, a.node) && IsDir(sp.objs, b.node) && !Covered(sp, a, o.last)
    requires Lookup(sp.objs, a.node, o.last) == Ok(x) && IsDir(sp.objs, x) && Join(o.abs, o.last) != Join(n.abs, n.last)
    ensures Inside(Join(o.abs, o.last), Join(n.abs, n.last)) <==> Beneath(sp.objs, x, b.node)
  {
    JoinAppends(o.abs, o.last);
    Uncovered(sp, Components(o.abs), a, o.last);
    ChildLookup(sp, Components(o.abs), o.last);
    hide IsSpace, At, Beneath, Inside, Join, Components, Covered, Lookup, ValidSeats;
    PrefixTestExact(sp, Join(o.abs, o.last), n.abs, n.last, b.seat, x, b.node);
  }

  lemma Uncovered(sp: Space, cs: seq<string>, pl: Place, name: string)
    requires IsSpace(sp) && At(sp, cs) == Ok(pl) && IsDir(sp.objs, pl.node) && !Covered(sp, pl, name)
    ensures forall k :: 0 <= k < |sp.seats| ==> Point(sp.seats, k) != cs + [name]
  {
    forall k | 0 <= k < |sp.seats| ensures Point(sp.seats, k) != cs + [name] {
      SeatedIffPoint(sp, cs, pl, name, k);
      assert !SeatedAt(sp, pl, name, k);
    }
  }

  /** In a tree the host takes a move exactly when a file goes over a file, or a directory over an
      empty one, or nothing is there. */
  lemma MoveDecides(objs: Objects, od: NodeId, on: string, nd: NodeId, nn: string, noreplace: bool)
    requires IsTree(objs) && IsDir(objs, od) && IsDir(objs, nd) && !(od == nd && on == nn) && Lookup(objs, od, on).Ok?
    ensures var x, v := Lookup(objs, od, on).value, Lookup(objs, nd, nn);
            MoveAnswer(objs, od, on, nd, nn, noreplace) ==
              if v.Err? then Ok(())
              else if noreplace then Err(EEXIST)
              else if IsDir(objs, x) == IsDir(objs, v.value) && (IsDir(objs, x) ==> EmptyDir(objs, v.value)) then Ok(())
              else Err(EACCES)
  {
    assert EdgeOk(objs, od, on) && EdgeOk(objs, nd, nn) && NodeOk(objs, nd);
  }

  /** A rename of two names in host directories of one mount, with nothing mounted on either,
      succeeds if and only if the old name exists and the names are one, or no directory goes to
      or beneath itself and what is in the way is nothing, or without RENAME_NOREPLACE a file for
      a file or an empty directory for a directory. */
  lemma RenameSucceeds(sp: Space, mounts: seq<Mount>, x: Found, y: Found, noreplace: bool)
    requires ValidSeats(sp.seats) && OfHostMount(mounts, x.place) && x.place.seat == y.place.seat
    requires !Covered(sp, x.place, x.last) && !Covered(sp, y.place, y.last)
    ensures var was, there := Lookup(sp.objs, x.place.node, x.last), Lookup(sp.objs, y.place.node, y.last);
            Renamed(sp, mounts, Ok(x), Ok(y), noreplace).Ok? <==>
              && was.Ok?
              && (|| (x.place.node == y.place.node && x.last == y.last)
                  || (&& !(IsDir(sp.objs, was.value) && Beneath(sp.objs, was.value, y.place.node))
                      && (there.Ok? ==> !noreplace && IsDir(sp.objs, was.value) == IsDir(sp.objs, there.value))
                      && (there.Ok? && IsDir(sp.objs, there.value) ==> EmptyDir(sp.objs, there.value))))
  {
    hide Beneath, EmptyDir, Lookup, Covered;
  }

  // ---- open ----

  /** A FIFO, a socket or a device node of the host. */
  predicate IsSpecial(objs: Objects, n: NodeId) {
    n in objs && objs[n].Plain? && objs[n].special
  }

  /** An object of the host can be opened: a directory for reading only, a link as itself only, and
      what is asked of it has to be permitted. */
  predicate Openable(objs: Objects, n: NodeId, m: OpenMode, permits: Permits) {
    && !IsSpecial(objs, n) && (m.directory ==> IsDir(objs, n))
    && (m.opath || (&& !IsLink(objs, n) && (IsDir(objs, n) ==> m.acc == ReadOnly)
                    && permits(n, m.acc in {ReadOnly, ReadWrite}, m.acc in {WriteOnly, ReadWrite} || m.trunc)))
  }

  /** Opening what a walk found on a host mount: who may, what becomes of it, and each refusal. */
  lemma OpenOnHost(sp: Space, mounts: seq<Mount>, w: Result<Loc>, f: Found, m: OpenMode, permits: Permits)
    requires IsSpace(sp) && |sp.seats| == |mounts| && Finds(sp, w, Ok(f), false) && OfHostMount(mounts, f.place)
    ensures w.Ok?
    ensures var r, n, objs := ExistingAim(sp, mounts, w.value, m, permits), f.place.node, sp.objs;
            var may := m.opath || permits(n, m.acc in {ReadOnly, ReadWrite}, m.acc in {WriteOnly, ReadWrite} || m.trunc);
            var looped, folder := IsLink(objs, n) && !m.opath, IsDir(objs, n) && m.acc != ReadOnly && !m.opath;
            var sought := m.directory && !IsDir(objs, n) && !looped;
            && (r.Ok? <==> Openable(objs, n, m, permits))
            && (r.Ok? ==> r.value == Take(w.value.abs, n, if IsDir(objs, n) then HostFolder else if IsLink(objs, n) then LinkFile else HostFile))
            && (r == Err(EISDIR) <==> folder)
            && (r == Err(ENOTDIR) <==> sought)
            && (r == Err(EACCES) <==> !looped && !folder && !sought && !may)
            && (r == Err(ELOOP) <==> looped || (!sought && may && IsSpecial(objs, n)))
  {
    hide Agrees, LocFits, NodeAt, Components, IsSpace, Point, ValidSeats;
    ObjectKnown(sp, w, f);
  }

  /** Opening what a walk found in /proc or /dev. */
  lemma OpenInKernel(sp: Space, mounts: seq<Mount>, w: Result<Loc>, f: Found, m: OpenMode, permits: Permits)
    requires IsSpace(sp) && |sp.seats| == |mounts| && Finds(sp, w, Ok(f), false) && f.place.seat < |mounts| && !OfHostMount(mounts, f.place)
    ensures w.Ok?
    ensures var r, n, objs, dev := ExistingAim(sp, mounts, w.value, m, permits), f.place.node, sp.objs, mounts[f.place.seat].dev;
            && (r.Ok? <==> (IsLink(objs, n) ==> m.opath && !dev) && (IsDir(objs, n) ==> m.acc == ReadOnly)
                           && !(dev && m.directory && !IsDir(objs, n)))
            && (r.Ok? ==> r.value == Take(w.value.abs, n, if IsDir(objs, n) then if dev then DevDir else ProcDir
                                                          else if dev then DevFile else ProcFile))
            && (r == Err(ELOOP) <==> IsLink(objs, n) && !m.opath)
            && (r == Err(EISDIR) <==> IsDir(objs, n) && m.acc != ReadOnly)
  {
    hide Agrees, LocFits, NodeAt, Components, IsSpace, Point, ValidSeats;
    ObjectKnown(sp, w, f);
  }

  /** One round of O_CREAT under the directory of a name: a file made, one opened, a link to start
      over through, or each refusal. */
  lemma CreateByTree(sp: Space, mounts: seq<Mount>, w: Result<Loc>, f: Found, m: OpenMode)
    requires IsSpace(sp) && Finds(sp, w, Ok(f), true)
    ensures w.Ok?
    ensures var c, d, objs := CreateRound(sp, mounts, w.value, m), f.place.node, sp.objs;
            var old0 := Lookup(objs, d, f.last);
            if !OfHostMount(mounts, f.place) then c == Answered(Err(EACCES))
            else if m.directory then c == Answered(Err(EINVAL))
            else if old0.Err? then c.Answered? && c.r.Ok? && c.r.value.Fresh? && c.r.value.d == d && c.r.value.name == f.last
            else if m.excl then c == Answered(Err(EEXIST))
            else if IsLink(objs, old0.value) then
              var t := objs[old0.value].target;
              c == if t == "" || |t| >= 4096 then Answered(Err(ENOENT)) else Again(t)
            else if IsSpecial(objs, old0.value) then c == Answered(Err(ENXIO))
            else if IsDir(objs, old0.value) then c == Answered(Err(EISDIR))
            else c.Answered? && c.r.Ok? && c.r.value.Take? && c.r.value.n == old0.value && c.r.value.kind == HostFile
  {
    hide Agrees, LocFits, NodeAt, Components, IsSpace, ValidSeats, Covered, Seated, Join, CreatedPath;
    NameKnown(sp, w, f);
  }

  // ---- what is only looked at ----

  /** chdir goes to a directory that may be searched; stat and readlink tell of what the path leads
      to; chmod and its like reach any object of the host. */
  lemma LookByTree(sp: Space, mounts: seq<Mount>, w: Result<Loc>, f: Result<Found>, permits: Permits)
    requires IsSpace(sp) && |sp.seats| == |mounts| && Finds(sp, w, f, false)
    ensures w.Ok? ==> NodeAt(sp, Components(w.value.abs)) == Ok(f.value.place.node)
    ensures ChdirAnswer(sp, w, permits)
            == match f case Err(e) => Err(e) case Ok(x) => if permits(x.place.node, false, false) then Ok(()) else Err(EACCES)
    ensures forall e :: NoLink(sp, w, e) <==> f == Err(e) || (f.Ok? && e == EINVAL && !IsLink(sp.objs, f.value.place.node))
    ensures forall e :: AttrFails(sp, mounts, w, e) <==> f == Err(e) || (f.Ok? && e == EPERM && !OfHostMount(mounts, f.value.place))
  {
    hide Agrees, LocFits, NodeAt, Components, IsSpace, ValidSeats;
    if w.Ok? { ObjectKnown(sp, w, f.value); }
  }

  /** truncate works on files of the host that may be written, and says why not on anything else. */
  lemma TruncateByTree(sp: Space, mounts: seq<Mount>, w: Result<Loc>, f: Found, permits: Permits)
    requires IsSpace(sp) && |sp.seats| == |mounts| && Finds(sp, w, Ok(f), false) && !IsLink(sp.objs, f.place.node)
    ensures w.Ok?
    ensures var r, n := TruncateAnswer(ExistingAim(sp, mounts, w.value, FOR_WRITING, permits)), f.place.node;
            if IsDir(sp.objs, n) then r == Err(EISDIR)
            else if !OfHostMount(mounts, f.place) then r == Err(EINVAL)
            else if !permits(n, false, true) then r == Err(EACCES)
            else if IsSpecial(sp.objs, n) then r == Err(ELOOP)
            else r == Ok(())
  {
    hide Agrees, LocFits, NodeAt, Components, IsSpace, ValidSeats, Point;
    ObjectKnown(sp, w, f);
  }

  // ---- from the paths themselves ----

  /** mkdir, symlink and mknod, from the path. */
  lemma MakePath(sp: Space, mounts: seq<Mount>, cwd: string, b: Origin, path: string, what: NewObject)
    requires IsSpace(sp) && GoodPath(cwd) && OriginFits(b) && Begins(sp, DirOf(cwd, b), path)
    ensures var w := PathAnswer(sp, cwd, b, path, PARENT);
            w != Err(ENAMETOOLONG) ==>
              MakeAnswer(sp, mounts, w, what) == Made(sp, mounts, Leads(sp, DirOf(cwd, b), path, FOR_NAME), what)
  {
    hide PathAnswer, Leads, Finds, IsSpace, MakeAnswer, Made, Begins;
    SeatsOfSpace(sp);
    WalkFinds(sp, cwd, b, path, PARENT);
    var w := PathAnswer(sp, cwd, b, path, PARENT);
    if w != Err(ENAMETOOLONG) { MakeByTree(sp, mounts, w, Leads(sp, DirOf(cwd, b), path, FOR_NAME), what); }
  }

  /** unlink and rmdir, from the path. */
  lemma UnlinkPath(sp: Space, mounts: seq<Mount>, cwd: string, b: Origin, path: string, rmdir: bool)
    requires IsSpace(sp) && GoodPath(cwd) && OriginFits(b) && Begins(sp, DirOf(cwd, b), path)
    ensures var w := PathAnswer(sp, cwd, b, path, PARENT);
            w != Err(ENAMETOOLONG) && !Unfit(mounts, w) ==>
              UnlinkAnswer(sp, mounts, w, path, rmdir) == Gone(sp, mounts, Leads(sp, DirOf(cwd, b), path, FOR_NAME), path, rmdir)
  {
    hide PathAnswer, Leads, Finds, IsSpace, UnlinkAnswer, Gone, Unfit, Begins;
    SeatsOfSpace(sp);
    WalkFinds(sp, cwd, b, path, PARENT);
    var w := PathAnswer(sp, cwd, b, path, PARENT);
    if w != Err(ENAMETOOLONG) && !Unfit(mounts, w) {
      UnlinkByTree(sp, mounts, w, Leads(sp, DirOf(cwd, b), path, FOR_NAME), path, rmdir);
    }
  }

  /** rename, from both paths. */
  lemma RenamePaths(sp: Space, mounts: seq<Mount>, cwd: string, ob: Origin, oldpath: string, nb: Origin, newpath: string, noreplace: bool)
    requires IsSpace(sp) && GoodPath(cwd) && OriginFits(ob) && OriginFits(nb)
    requires Begins(sp, DirOf(cwd, ob), oldpath) && Begins(sp, DirOf(cwd, nb), newpath)
    ensures var ow, nw := PathAnswer(sp, cwd, ob, oldpath, PARENT), PathAnswer(sp, cwd, nb, newpath, PARENT);
            ow != Err(ENAMETOOLONG) && nw != Err(ENAMETOOLONG) && !UnfitPair(mounts, ow, nw) ==>
              RenameAnswer(sp, mounts, ow, nw, noreplace)
              == Renamed(sp, mounts, Leads(sp, DirOf(cwd, ob), oldpath, FOR_NAME), Leads(sp, DirOf(cwd, nb), newpath, FOR_NAME), noreplace)
  {
    hide PathAnswer, Leads, Finds, IsSpace, RenameAnswer, Renamed, UnfitPair, Begins;
    SeatsOfSpace(sp);
    WalkFinds(sp, cwd, ob, oldpath, PARENT);
    WalkFinds(sp, cwd, nb, newpath, PARENT);
    var ow, nw := PathAnswer(sp, cwd, ob, oldpath, PARENT), PathAnswer(sp, cwd, nb, newpath, PARENT);
    if ow != Err(ENAMETOOLONG) && nw != Err(ENAMETOOLONG) && !UnfitPair(mounts, ow, nw) {
      RenameByTree(sp, mounts, ow, Leads(sp, DirOf(cwd, ob), oldpath, FOR_NAME), nw, Leads(sp, DirOf(cwd, nb), newpath, FOR_NAME), noreplace);
    }
  }

  /** link, from both paths. */
  lemma LinkPaths(sp: Space, mounts: seq<Mount>, cwd: string, ob: Origin, oldpath: string, nb: Origin, newpath: string, follow: bool)
    requires IsSpace(sp) && |sp.seats| == |mounts| && GoodPath(cwd) && OriginFits(ob) && OriginFits(nb)
    requires Begins(sp, DirOf(cwd, ob), oldpath) && Begins(sp, DirOf(cwd, nb), newpath)
    ensures var ow, nw := PathAnswer(sp, cwd, ob, oldpath, PLAIN_WALK.(nofollow := !follow)), PathAnswer(sp, cwd, nb, newpath, PARENT);
            ow != Err(ENAMETOOLONG) && nw != Err(ENAMETOOLONG) ==>
              LinkAnswer(sp, mounts, ow, nw)
              == Tied(sp, mounts, Leads(sp, DirOf(cwd, ob), oldpath, if follow then FOR_OBJECT else FOR_LINK),
                      Leads(sp, DirOf(cwd, nb), newpath, FOR_NAME))
  {
    hide PathAnswer, Leads, Finds, IsSpace, LinkAnswer, Tied, Begins;
    SeatsOfSpace(sp);
    WalkFinds(sp, cwd, ob, oldpath, PLAIN_WALK.(nofollow := !follow));
    WalkFinds(sp, cwd, nb, newpath, PARENT);
    var ow, nw := PathAnswer(sp, cwd, ob, oldpath, PLAIN_WALK.(nofollow := !follow)), PathAnswer(sp, cwd, nb, newpath, PARENT);
    if ow != Err(ENAMETOOLONG) && nw != Err(ENAMETOOLONG) {
      LinkByTree(sp, mounts, ow, Leads(sp, DirOf(cwd, ob), oldpath, if follow then FOR_OBJECT else FOR_LINK),
                 nw, Leads(sp, DirOf(cwd, nb), newpath, FOR_NAME));
    }
  }

  /** open without O_CREAT, from the path. */
  lemma OpenPath(sp: Space, mounts: seq<Mount>, cwd: string, b: Origin, path: string, m: OpenMode, permits: Permits)
    requires IsSpace(sp) && |sp.seats| == |mounts| && GoodPath(cwd) && OriginFits(b) && Begins(sp, DirOf(cwd, b), path) && !m.create
    ensures var f := Leads(sp, DirOf(cwd, b), path, if m.nofollow then FOR_LINK else FOR_OBJECT);
            var r := OpenAim(sp, mounts, cwd, b, path, m, permits, 0);
            r != Err(ENAMETOOLONG) ==>
              && (f.Err? ==> r == Err(f.errno))
              && (r.Ok? ==> f.Ok? && r.value.Take? && r.value.n == f.value.place.node)
              && (f.Ok? && OfHostMount(mounts, f.value.place) ==> (r.Ok? <==> Openable(sp.objs, f.value.place.node, m, permits)))
  {
    hide PathAnswer, Leads, Finds, IsSpace, ExistingAim, Begins, Openable;
    SeatsOfSpace(sp);
    var flags := PLAIN_WALK.(nofollow := m.nofollow);
    var f := Leads(sp, DirOf(cwd, b), path, if m.nofollow then FOR_LINK else FOR_OBJECT);
    WalkFinds(sp, cwd, b, path, flags);
    PathFits(sp, cwd, b, path, flags);
    var w := PathAnswer(sp, cwd, b, path, flags);
    if w != Err(ENAMETOOLONG) { OpenFound(sp, mounts, w, f, m, permits); }
  }

  lemma OpenFound(sp: Space, mounts: seq<Mount>, w: Result<Loc>, f: Result<Found>, m: OpenMode, permits: Permits)
    requires IsSpace(sp) && |sp.seats| == |mounts| && Finds(sp, w, f, false)
    ensures w.Err? ==> f == Err(w.errno)
    ensures w.Ok? ==>
              && f.Ok? && w.value.mount < |mounts|
              && var r := ExistingAim(sp, mounts, w.value, m, permits);
                 && (r.Ok? ==> r.value.Take? && r.value.n == f.value.place.node)
                 && (OfHostMount(mounts, f.value.place) ==> (r.Ok? <==> Openable(sp.objs, f.value.place.node, m, permits)))
  {
    hide Agrees, LocFits, NodeAt, Components, IsSpace, ValidSeats, Point, Openable, HostOpen, SynthOpen;
    SeatsOfSpace(sp);
    if w.Ok? {
      ObjectKnown(sp, w, f.value);
      if OfHostMount(mounts, f.value.place) { OpenOnHost(sp, mounts, w, f.value, m, permits); }
    }
  }

  /** truncate, from the path: on a file of the host that may be opened for writing, and on nothing else. */
  lemma TruncatePath(sp: Space, mounts: seq<Mount>, cwd: string, b: Origin, path: string, permits: Permits)
    requires IsSpace(sp) && |sp.seats| == |mounts| && GoodPath(cwd) && OriginFits(b) && Begins(sp, DirOf(cwd, b), path)
    ensures var f := Leads(sp, DirOf(cwd, b), path, FOR_OBJECT);
            var r := TruncateAnswer(OpenAim(sp, mounts, cwd, b, path, FOR_WRITING, permits, 0));
            r != Err(ENAMETOOLONG) ==>
              && (f.Err? ==> r == Err(f.errno))
              && (f.Ok? ==> (r.Ok? <==> OfHostMount(mounts, f.value.place) && Openable(sp.objs, f.value.place.node, FOR_WRITING, permits)))
  {
    hide PathAnswer, Leads, Finds, IsSpace, ExistingAim, Begins, Openable;
    SeatsOfSpace(sp);
    var f := Leads(sp, DirOf(cwd, b), path, FOR_OBJECT);
    WalkFinds(sp, cwd, b, path, PLAIN_WALK);
    PathFits(sp, cwd, b, path, PLAIN_WALK);
    var w := PathAnswer(sp, cwd, b, path, PLAIN_WALK);
    if w != Err(ENAMETOOLONG) { TruncateFound(sp, mounts, w, f, permits); }
  }

  lemma TruncateFound(sp: Space, mounts: seq<Mount>, w: Result<Loc>, f: Result<Found>, permits: Permits)
    requires IsSpace(sp) && |sp.seats| == |mounts| && Finds(sp, w, f, false)
    ensures w.Err? ==> f == Err(w.errno)
    ensures w.Ok? ==>
              && f.Ok? && w.value.mount < |mounts|
              && (TruncateAnswer(ExistingAim(sp, mounts, w.value, FOR_WRITING, permits)).Ok? <==>
                    OfHostMount(mounts, f.value.place) && Openable(sp.objs, f.value.place.node, FOR_WRITING, permits))
  {
    hide Agrees, LocFits, NodeAt, Components, IsSpace, ValidSeats, Point, ExistingAim;
    SeatsOfSpace(sp);
    if w.Ok? {
      ObjectKnown(sp, w, f.value);
      if OfHostMount(mounts, f.value.place) {
        OpenOnHost(sp, mounts, w, f.value, FOR_WRITING, permits);
      } else {
        OpenInKernel(sp, mounts, w, f.value, FOR_WRITING, permits);
      }
    }
  }

  /** open with O_CREAT, from the path: a new file under an unused name, an existing file, or another
      start at what a link there leads to, forty times at most. */
  lemma CreatePath(sp: Space, mounts: seq<Mount>, cwd: string, b: Origin, path: string, m: OpenMode, permits: Permits, depth: nat)
    requires IsSpace(sp) && |sp.seats| == |mounts| && GoodPath(cwd) && OriginFits(b) && Begins(sp, DirOf(cwd, b), path) && m.create
    ensures var w, f := PathAnswer(sp, cwd, b, path, PARENT), Leads(sp, DirOf(cwd, b), path, FOR_NAME);
            var r := OpenAim(sp, mounts, cwd, b, path, m, permits, depth);
            if depth > 40 then r == Err(ELOOP)
            else w != Err(ENAMETOOLONG) ==>
              && (f.Err? && f.errno != EEXIST ==> r == Err(f.errno))
              && (f.Ok? ==>
                    && w.Ok? && OriginFits(Dir(w.value.abs)) && NodeAt(sp, Components(w.value.abs)) == Ok(f.value.place.node)
                    && var there, d := Lookup(sp.objs, f.value.place.node, f.value.last), f.value.place.node;
                       if !OfHostMount(mounts, f.value.place) then r == Err(EACCES)
                       else if m.directory then r == Err(EINVAL)
                       else if there.Err? then r.Ok? && r.value.Fresh? && r.value.d == d && r.value.name == f.value.last
                       else if m.excl then r == Err(EEXIST)
                       else if IsLink(sp.objs, there.value) then
                         var t := sp.objs[there.value].target;
                         r == if t == "" || |t| >= 4096 then Err(ENOENT)
                              else OpenAim(sp, mounts, cwd, Dir(w.value.abs), t, m, permits, depth + 1)
                       else if IsSpecial(sp.objs, there.value) then r == Err(ENXIO)
                       else if IsDir(sp.objs, there.value) then r == Err(EISDIR)
                       else r.Ok? && r.value.Take? && r.value.n == there.value && r.value.kind == HostFile)
  {
    hide PathAnswer, Leads, IsSpace, CreateRound, Begins, WalkAim, LocFits, Agrees, NodeAt, Canonical, Components, Lookup, IsSpecial;
    SeatsOfSpace(sp);
    var f := Leads(sp, DirOf(cwd, b), path, FOR_NAME);
    WalkFinds(sp, cwd, b, path, PARENT);
    PathFits(sp, cwd, b, path, PARENT);
    var w := PathAnswer(sp, cwd, b, path, PARENT);
    if w.Ok? && depth <= 40 {
      FoundFits(sp, w, f);
      NameKnown(sp, w, f.value);
      CreateByTree(sp, mounts, w, f.value, m);
    }
  }

  /** With O_CREAT too, a path that ends in no name of its own opens what it leads to. */
  lemma NamelessOpens(sp: Space, mounts: seq<Mount>, cwd: string, b: Origin, path: string, m: OpenMode, permits: Permits, depth: nat)
    requires ValidSeats(sp.seats) && |sp.seats| == |mounts| && GoodPath(cwd) && OriginFits(b) && m.create && depth <= 40
    requires PathAnswer(sp, cwd, b, path, PARENT) == Err(EEXIST)
    ensures OpenAim(sp, mounts, cwd, b, path, m, permits, depth)
            == OpenAim(sp, mounts, cwd, b, path, m.(create := false, nofollow := false), permits, 0)
  {
    hide PathAnswer, NodeAt, Components, Canonical;
  }

  lemma FoundFits(sp: Space, w: Result<Loc>, f: Result<Found>)
    requires ValidSeats(sp.seats) && Finds(sp, w, f, true) && w.Ok?
    ensures GoodPath(w.value.abs) && f.Ok?
  {
  }
}
