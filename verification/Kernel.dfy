/** The kernel's side of path resolution (core/vfs.c:45-422): the mount table, the
    directory chain and the walk, run against the host. */
module Kernels {
  import opened Basics
  import opened Errors
  import opened Paths
  import opened Trees
  import opened Spaces
  import opened Resolution
  import opened Hosts
  import opened Walks

  /** Asked for a directory, the host opens nothing else but a reparse point, and says which. */
  lemma OnlyDirs(objs: Objects)
    ensures forall n :: match OpenExisting(objs, n, PLAIN.(dir := true))
                        case Ok(reparse) => reparse != IsDir(objs, n)
                        case Err(e) => e == ENOTDIR && !IsDir(objs, n)
  {
  }

  class FileSystem {
    const host: Host
    var mounts: seq<Mount>
    var cwd: string

    constructor (h: Host)
      ensures host == h && mounts == [] && cwd == "/"
    {
      host := h;
      mounts := [];
      cwd := "/";
    }

    /** vfs_init: seat the root tree, then the in-kernel trees. */
    method Init(root: NodeId, proc: NodeId, dev: NodeId) returns (ok: bool)
      requires host.Valid() && host.live == map[]
      modifies this, host
      ensures ok ==> Mounted() && cwd == "/" && |mounts| == 3
      ensures ok ==> mounts[0].HostMount? && mounts[1].SynthMount? && mounts[2].SynthMount?
      ensures ok ==> mounts[0].root != 0 && host.live == map[mounts[0].root := root]
      ensures !ok ==> host.live == map[]
    {
      hide Components, Canonical, SeatsOf, ValidSeats;
      mounts, cwd := [], "/";
      var h := host.OpenRoot(root);
      if h.Err? { return false; }
      mounts := [HostMount("/", h.value), SynthMount("/proc", proc, false), SynthMount("/dev", dev, true)];
      FirstMounts();
      FirstSeats(mounts, host.live);
      return true;
    }

    /** vfs_release: every mount root is closed, once. */
    method Release()
      requires host.Valid() && RootsOpen(mounts, host.live)
      requires forall j, k :: 0 <= j < k < |mounts| && mounts[j].HostMount? && mounts[k].HostMount? ==>
                 mounts[j].root != mounts[k].root
      modifies this, host
      ensures host.Valid() && mounts == []
      ensures host.live == old(host.live) - set k | 0 <= k < |old(mounts)| && old(mounts)[k].HostMount? :: old(mounts)[k].root
    {
      var i := 0;
      while i < |mounts|
        invariant 0 <= i <= |mounts| && mounts == old(mounts) && host.Valid()
        invariant host.live == old(host.live) - set k | 0 <= k < i && mounts[k].HostMount? :: mounts[k].root
      {
        if mounts[i].HostMount? { host.Close(mounts[i].root); }
        i := i + 1;
      }
      mounts := [];
    }

    ghost function Seats(): seq<Seat>
      reads this, host
    {
      SeatsOf(mounts, host.live)
    }

    ghost function TheSpace(): Space
      reads this, host
    {
      Space(host.objs, Seats())
    }

    /** The mount table is canonical and seated on open handles. */
    ghost predicate Mounted()
      reads this, host
    {
      && host.Valid()
      && ValidSeats(Seats())
      && (forall k :: 0 <= k < |mounts| ==> Canonical(mounts[k].point))
      && RootsOpen(mounts, host.live)
    }

    /** The loop of `mount_of`: the longest mount point that hits. */
    method LongestHit(abs: string) returns (k: nat)
      requires mounts != [] && Hit(mounts[0].point, abs)
      ensures k < |mounts| && Hit(mounts[k].point, abs)
      ensures forall j :: 0 <= j < |mounts| && Hit(mounts[j].point, abs) ==> |mounts[j].point| <= |mounts[k].point|
    {
      hide Hit;
      k := 0;
      var bl := 0;
      var i := 0;
      while i < |mounts|
        invariant 0 <= i <= |mounts|
        invariant i == 0 ==> bl == 0
        invariant i > 0 ==> k < i && Hit(mounts[k].point, abs) && bl == |mounts[k].point|
        invariant forall j :: 0 <= j < i && Hit(mounts[j].point, abs) ==> |mounts[j].point| <= bl
      {
        if Hit(mounts[i].point, abs) && |mounts[i].point| >= bl {
          k, bl := i, |mounts[i].point|;
        }
        i := i + 1;
      }
    }

    /** `mount_of`: the longest mount point at or above a canonical path. */
    method MountOf(abs: string) returns (k: nat)
      requires Mounted() && Canonical(abs)
      ensures k < |mounts| && IsBest(Seats(), Components(abs), k)
      ensures Canonical(mounts[k].point) && Hit(mounts[k].point, abs)
      ensures abs != "" && (|mounts[k].point| == 1 || |mounts[k].point| <= |abs|)
      ensures Render(Components(mounts[k].point) + Components(Rel(mounts[k].point, abs))) == abs
    {
      CanonicalIsAbsolute(mounts[0].point);
      assert Hit(mounts[0].point, abs);
      hide Hit, Rel, IsBest, Components, Canonical, SeatsOf, RootsOpen;
      k := LongestHit(abs);
      LongestHitIsBest(mounts, host.live, abs, k);
      RelOfCanonical(mounts[k].point, abs);
    }

    /** Host work that leaves the open handles as they were leaves the mounts seated. */
    twostate lemma StillMounted()
      requires old(Mounted()) && host.Valid() && host.live == old(host.live) && mounts == old(mounts)
      ensures Mounted() && Seats() == old(Seats())
    {
    }

    /** The same when the open handles are those of an earlier moment with the same seats. */
    twostate lemma MountedAgain(live0: map<Handle, NodeId>)
      requires old(Mounted()) && host.Valid() && host.live == live0 && mounts == old(mounts)
      requires RootsOpen(mounts, live0) && SeatsOf(mounts, live0) == old(Seats())
      ensures Mounted() && Seats() == old(Seats())
    {
    }

    /** `mount_at`: the mount seated exactly here. */
    method MountAt(abs: string) returns (hit: bool)
      requires Mounted() && Canonical(abs)
      ensures hit <==> Seated(TheSpace().seats, Components(abs))
    {
      var i := 0;
      while i < |mounts|
        invariant 0 <= i <= |mounts|
        invariant forall j :: 0 <= j < i ==> mounts[j].point != abs
      {
        if mounts[i].point == abs {
          assert Point(Seats(), i) == Components(abs);
          return true;
        }
        i := i + 1;
      }
      forall j | 0 <= j < |mounts| ensures Point(Seats(), j) != Components(abs) {
        assert Canonical(mounts[j].point);
      }
      return false;
    }

    /** What a walk may assume of the file system and promises to leave alone. */
    twostate predicate Untouched()
      reads this, host
    {
      && host.live == old(host.live) && host.objs == old(host.objs)
      && mounts == old(mounts) && cwd == old(cwd)
      && TheSpace() == old(TheSpace())
    }

    /** What `open_host_dir` and the lookups under it mean for the tree. */
    ghost function Under(k: nat, abs: string): seq<string>
      requires k < |mounts| && Point(Seats(), k) <= Components(abs)
      reads this, host
    {
      Components(abs)[|Point(Seats(), k)|..]
    }

    /** One step of `open_host_dir`: open `comp` under `cur` and let `cur` go. `cur` is the
        directory `done` components below the mount at `top`, and what is opened, one
        component further, is never itself a mount point. */
    method OpenStep(cur: Handle, owned: bool, comp: string, ghost live0: map<Handle, NodeId>,
                    ghost seats: seq<Seat>, ghost k: nat, ghost done: seq<string>)
      returns (r: Result<Handle>)
      requires host.Valid() && cur in host.live && IsName(comp)
      requires if owned then cur !in live0 && host.live == live0[cur := host.live[cur]] else host.live == live0
      requires k < |seats| && Descend(host.objs, seats[k].root, done) == Ok(host.live[cur])
      requires forall j :: 0 <= j < |seats| ==> Point(seats, j) != Point(seats, k) + done + [comp]
      modifies host
      ensures host.Valid() && host.objs == old(host.objs)
      ensures r.Err? ==> host.live == live0
      ensures r.Ok? ==>
                && r.value != 0 && r.value !in live0 && r.value in host.live
                && host.live == live0[r.value := host.live[r.value]]
                && Lookup(host.objs, old(host.live)[cur], comp) == Ok(host.live[r.value])
                && IsDir(host.objs, host.live[r.value])
                && Descend(host.objs, seats[k].root, done + [comp]) == Ok(host.live[r.value])
      ensures r.Err? ==> Refused(r)
      ensures old(host.Quiet()) ==> host.Quiet()
      ensures old(host.Quiet()) && r.Err? ==>
                match Lookup(host.objs, old(host.live)[cur], comp)
                case Err(e) => r == Err(e)
                case Ok(n) => r == Err(ENOTDIR) && !IsDir(host.objs, n)
    {
      hide Descend, Lookup, OpenExisting, IsDir;
      DescendSnoc(host.objs, seats[k].root, done, comp);
      OnlyDirs(host.objs);
      var o := host.OpenAt(cur, comp, PLAIN.(dir := true));
      if owned { host.Close(cur); }
      if o.Err? {
        assert host.live == live0;
        return Err(o.errno);
      }
      assert host.live == live0[o.value.h := host.live[o.value.h]];
      if o.value.reparse {
        host.Close(o.value.h);
        assert host.live == live0;
        return Err(ENOTDIR);
      }
      return Ok(o.value.h);
    }

    /** The loop of `open_host_dir`: down the components of `text` from `root`.
        Every handle opened on the way is closed again. */
    method OpenChain(root: Handle, text: string, ghost seats: seq<Seat>, ghost k: nat, ghost cs: seq<string>)
      returns (r: Result<Handle>)
      requires host.Valid() && root in host.live && k < |seats| && host.live[root] == seats[k].root
      requires AllNames(cs) && text == Joined(cs) && (text == "" ==> cs == []) && NoSeat(seats, Point(seats, k), cs)
      modifies host
      ensures host.Valid() && host.objs == old(host.objs)
      ensures r.Err? ==> host.live == old(host.live)
      ensures r.Ok? ==>
                && r.value != 0 && r.value !in old(host.live) && r.value in host.live
                && host.live == old(host.live)[r.value := host.live[r.value]]
                && HostDir(host.objs, old(host.live)[root], cs) == Ok(host.live[r.value])
      ensures r.Err? ==> Refused(r)
      ensures old(host.Quiet()) ==> host.Quiet()
      ensures old(host.Quiet()) && r.Err? ==> HostDir(host.objs, old(host.live)[root], cs) == Err(r.errno)
    {
      ghost var goal := HostDir(host.objs, host.live[root], cs);
      ghost var live0 := host.live;
      var rel := text;
      var cur, owned := root, false;
      ghost var left, done: seq<string> := cs, [];
      assert Descend(host.objs, seats[k].root, done) == Ok(host.live[cur]) && Point(seats, k) + done == Point(seats, k);
      hide Descend;
      while rel != ""
        invariant host.Valid() && host.objs == old(host.objs) && cur in host.live
        invariant if owned then cur != 0 && cur !in live0 && host.live == live0[cur := host.live[cur]]
                  else host.live == live0 && cur == root
        invariant AllNames(left) && rel == Joined(left) && (rel == "" ==> left == []) && NoSeat(seats, Point(seats, k) + done, left)
        invariant Descend(host.objs, seats[k].root, done) == Ok(host.live[cur])
        invariant goal == HostDir(host.objs, host.live[cur], left)
        invariant owned ==> IsDir(host.objs, host.live[cur])
        invariant old(host.Quiet()) ==> host.Quiet()
        decreases |rel|
      {
        var n := NameLen(rel);
        var s := rel[n..];
        var comp := rel[..n];
        JoinedStep(left);
        assert IsName(left[0]);
        if n > NAME_MAX {
          assert false;  // -ENAMETOOLONG, but never on a canonical path
        }
        NoSeatStep(seats, Point(seats, k) + done, left);
        var next := OpenStep(cur, owned, comp, live0, seats, k, done);
        if next.Err? {
          return Err(next.errno);
        }
        cur, owned := next.value, true;
        assert Point(seats, k) + done + [comp] == Point(seats, k) + (done + [comp]);
        left, done := left[1..], done + [comp];
        rel := if s == "" then "" else s[1..];
        if left != [] { JoinedStep(left); }
      }
      if !owned {
        // the mount root itself: hand back a duplicate
        var d := host.Reopen(root, true);
        if d.Err? { return Err(d.errno); }
        cur := d.value;
      }
      return Ok(cur);
    }

    /** `open_host_dir`: the directory at a canonical path under host mount `k`. */
    method OpenHostDir(k: nat, abs: string) returns (r: Result<Handle>)
      requires Mounted() && Canonical(abs)
      requires k < |mounts| && mounts[k].HostMount? && Point(Seats(), k) <= Components(abs)
      requires NoSeat(Seats(), Point(Seats(), k), Under(k, abs))
      modifies host
      ensures Mounted() && host.objs == old(host.objs) && Seats() == old(Seats())
      ensures r.Err? ==> host.live == old(host.live)
      ensures r.Ok? ==>
                && r.value != 0 && r.value !in old(host.live) && r.value in host.live
                && host.live == old(host.live)[r.value := host.live[r.value]]
                && HostDir(host.objs, Seats()[k].root, Under(k, abs)) == Ok(host.live[r.value])
      ensures r.Err? ==> Refused(r)
      ensures old(host.Quiet()) ==> host.Quiet()
      ensures old(host.Quiet()) && r.Err? ==> HostDir(host.objs, Seats()[k].root, Under(k, abs)) == Err(r.errno)
    {
      ghost var seats, live0 := Seats(), host.live;
      RelOfCanonical(mounts[k].point, abs);
      r := OpenChain(mounts[k].root, Rel(mounts[k].point, abs), seats, k, Under(k, abs));
      if r.Ok? { SeatsKept(mounts, live0, r.value, host.live[r.value]); }
    }

    /** The parent directory of a path below its host mount, opened. */
    method OpenParent(k: nat, abs: string) returns (r: Result<Handle>)
      requires Mounted() && Canonical(abs) && k < |mounts| && mounts[k].HostMount?
      requires IsBest(Seats(), Components(abs), k) && Point(Seats(), k) != Components(abs)
      modifies host
      ensures Mounted() && host.objs == old(host.objs) && TheSpace() == old(TheSpace())
      ensures abs != "" && IsName(Base(abs))
      ensures r.Err? ==> host.live == old(host.live)
      ensures r.Ok? ==>
                && r.value != 0 && r.value !in old(host.live) && r.value in host.live
                && host.live == old(host.live)[r.value := host.live[r.value]]
                && IsDir(host.objs, host.live[r.value])
                && NodeAt(TheSpace(), Components(abs)) == Lookup(host.objs, host.live[r.value], Base(abs))
      ensures r.Err? ==> Refused(r)
      ensures old(host.Quiet()) ==> host.Quiet()
      ensures old(host.Quiet()) && r.Err? ==> NodeAt(TheSpace(), Components(abs)) == Err(r.errno)
    {
      hide IsBest, NodeAt, Descend, NoSeat, Lookup;
      NodeByParent(TheSpace(), abs, k);
      HostDirIsDir(host.objs, Seats()[k].root, Under(k, Parent(abs)));
      r := OpenHostDir(k, Parent(abs));
    }

    /** `stat_abs`: the object at a canonical path, found under its mount. */
    method StatAbs(abs: string) returns (r: Result<NodeId>)
      requires Mounted() && Canonical(abs)
      modifies host
      ensures Mounted() && Untouched()
      ensures r.Err? ==> Refused(r)
      ensures old(host.Quiet()) ==> host.Quiet()
      ensures r.Ok? || old(host.Quiet()) ==> r == NodeAt(TheSpace(), Components(abs))
    {
      hide IsBest, NodeAt, Descend, Lookup, Rel, Hit, Components, Canonical, IsName;
      var k := MountOf(abs);
      NodeUnder(TheSpace(), Components(abs), k);
      RelOfCanonical(mounts[k].point, abs);
      var rel := Rel(mounts[k].point, abs);
      match mounts[k]
      case SynthMount(_, tree, _) =>
        assert Components(rel) == Under(k, abs);
        DescendErrors(host.objs, tree, Components(rel));
        return Descend(host.objs, tree, Components(rel));
      case HostMount(_, root) =>
        if rel == "" {
          DescendNowhere(host.objs, host.live[root], Under(k, abs));
          r := host.Stat(root);
          return;
        }
        var d := OpenParent(k, abs);
        if d.Err? { return Err(d.errno); }
        ghost var n := host.live[d.value];
        r := host.StatThenClose(d.value, Base(abs));
        Reopened(old(host.live), d.value, n, host.live);
    }

    /** `readlink_abs`: the target of the link at a canonical path. */
    method ReadlinkAbs(abs: string) returns (r: Result<string>)
      requires Mounted() && Canonical(abs)
      modifies host
      ensures Mounted() && Untouched()
      ensures r.Err? ==> Refused(r)
      ensures old(host.Quiet()) ==> host.Quiet()
      ensures var n := NodeAt(TheSpace(), Components(abs));
              && (r.Ok? ==> n.Ok? && IsLink(host.objs, n.value) && r.value == host.objs[n.value].target)
              && (old(host.Quiet()) && r.Err? && n.Ok? && IsLink(host.objs, n.value) ==>
                    Seated(TheSpace().seats, Components(abs)))
    {
      hide IsBest, NodeAt, Descend, Lookup, Rel, Hit, Components, Canonical, IsName;
      var k := MountOf(abs);
      NodeUnder(TheSpace(), Components(abs), k);
      RelOfCanonical(mounts[k].point, abs);
      var rel := Rel(mounts[k].point, abs);
      match mounts[k]
      case SynthMount(_, tree, _) =>
        assert Components(rel) == Under(k, abs);
        DescendErrors(host.objs, tree, Components(rel));
        var n := Descend(host.objs, tree, Components(rel));
        if n.Err? { return Err(n.errno); }
        if !IsLink(host.objs, n.value) { return Err(EINVAL); }
        return Ok(host.objs[n.value].target);
      case HostMount(_, root) =>
        if rel == "" { return Err(EINVAL); }
        var d := OpenParent(k, abs);
        if d.Err? { return Err(d.errno); }
        ghost var dn := host.live[d.value];
        r := host.LinkThenClose(d.value, Base(abs));
        Reopened(old(host.live), d.value, dn, host.live);
    }

    /** The walk's answer when the host refuses nothing. */
    ghost function WalkAnswer(b: Origin, path: string, flags: WalkFlags): Result<Loc>
      requires Mounted() && GoodPath(cwd) && OriginFits(b)
      reads this, host
    {
      PathAnswer(TheSpace(), cwd, b, path, flags)
    }

    /** `walk`: resolve a path from a start directory, component by component. */
    method Walk(b: Origin, path: string, flags: WalkFlags) returns (r: Result<Loc>)
      requires Mounted() && GoodPath(cwd) && OriginFits(b)
      modifies host
      ensures Mounted() && Untouched()
      ensures old(host.Quiet()) ==> host.Quiet()
      ensures r.Ok? ==> LocFits(Seats(), r.value, flags.parent)
      ensures r != Err(Unspecified)
      ensures r == old(WalkAnswer(b, path, flags)) || (Refused(r) && !old(host.Quiet()))
    {
      assert ValidSeats(TheSpace().seats);
      RootText();
      PathDetermined(TheSpace(), cwd, b, path, flags);
      if path == "" { return Err(ENOENT); }
      if |path| >= PATH_MAX { return Err(ENAMETOOLONG); }
      hide WalkText, Canonical, LocFits, Components, SeatsOf, ValidSeats;
      WalkFits(TheSpace(), StartOf(cwd, b, path), path, 0, flags, Trailing(path));
      r := WalkFrom(StartOf(cwd, b, path), path, flags, Trailing(path), TheSpace());
    }

    /** Read the whole path, then settle what it came to. */
    method WalkFrom(start: string, path: string, flags: WalkFlags, trailing: bool, ghost sp: Space)
      returns (r: Result<Loc>)
      requires Mounted() && GoodPath(start) && |path| < PATH_MAX && sp == TheSpace() && ValidSeats(sp.seats)
      modifies host
      ensures Mounted() && Untouched()
      ensures old(host.Quiet()) ==> host.Quiet()
      ensures r == WalkText(sp, start, path, 0, flags, trailing) || (Refused(r) && !old(host.Quiet()))
    {
      hide WalkText, Components, Canonical, SeatsOf, TheSpace, Mounted, EndAnswer, ValidSeats;
      var out := WalkLoop(start, path, flags, trailing, sp);
      if out.Answer? { return out.r; }
      r := WalkEnd(out.abs, flags, trailing);
    }

    /** The loop of the walk, until it has an answer or nothing is left to read. */
    method WalkLoop(start: string, path: string, flags: WalkFlags, trailing: bool, ghost sp: Space)
      returns (out: Step)
      requires Mounted() && GoodPath(start) && |path| < PATH_MAX && sp == TheSpace() && ValidSeats(sp.seats)
      modifies host
      ensures Mounted() && Untouched()
      ensures old(host.Quiet()) ==> host.Quiet()
      ensures match out
              case Answer(r) =>
                r == WalkText(sp, start, path, 0, flags, trailing) || (Refused(r) && !old(host.Quiet()))
              case More(abs, p, nlinks) =>
                GoodPath(abs) && WalkText(sp, start, path, 0, flags, trailing) == EndAnswer(sp, abs, flags, trailing)
    {
      hide Components, Canonical, SeatsOf, TheSpace, Mounted, StepOf, SkipSlashes, EndAnswer, ValidSeats;
      ghost var goal := WalkText(sp, start, path, 0, flags, trailing);
      var abs, p, nlinks := start, path, 0;
      while true
        invariant Mounted() && Untouched()
        invariant GoodPath(abs) && |p| < PATH_MAX && 0 <= nlinks <= MAX_LINKS
        invariant old(host.Quiet()) ==> host.Quiet()
        invariant WalkText(sp, abs, p, nlinks, flags, trailing) == goal
        decreases MAX_LINKS - nlinks, |p|
      {
        p := SkipSlashes(p);
        if p == "" { return More(abs, p, nlinks); }
        StepFits(sp, abs, p, nlinks, flags, trailing);
        var step := WalkStep(abs, p, nlinks, flags, trailing);
        if step.Answer? { return step; }
        abs, p, nlinks := step.abs, step.p, step.nlinks;
      }
    }

    /** One component of the walk. A host that refuses nothing makes it `StepOf`. */
    method WalkStep(abs: string, p: string, nlinks: nat, flags: WalkFlags, trailing: bool) returns (step: Step)
      requires Mounted() && GoodPath(abs) && p != "" && p[0] != '/' && nlinks <= MAX_LINKS
      modifies host
      ensures Mounted() && Untouched()
      ensures old(host.Quiet()) ==> host.Quiet()
      ensures ValidSeats(TheSpace().seats)
      ensures step == StepOf(TheSpace(), abs, p, nlinks, flags, trailing)
              || (step.Answer? && Refused(step.r) && !old(host.Quiet()))
    {
      assert ValidSeats(TheSpace().seats) && TheSpace().objs == host.objs;
      hide NodeAt, Canonical, Components, Mounted, Seats, SeatsOf, Seated, ValidSeats, SeatOf, TheSpace;
      FirstComponent(p);
      CanonicalIsAbsolute(abs);
      var n := NameLen(p);
      if n > NAME_MAX { return Answer(Err(ENAMETOOLONG)); }
      var comp, s := p[..n], p[n..];
      var after := Advance(s);
      var last := SkipSlashes(s) == "";
      if comp == "." {
        return More(abs, after, nlinks);
      }
      if comp == ".." {
        return More(Parent(abs), after, nlinks);
      }
      if last && flags.parent {
        var r := WalkParent(abs, comp);
        return Answer(r);
      }
      if !Fits(abs, comp) { return Answer(Err(ENAMETOOLONG)); }
      assert IsName(comp);
      step := WalkOnto(abs, comp, s, last, nlinks, flags, trailing);
    }

    /** Step onto a real component: a mount, a link to follow, or an object. */
    method WalkOnto(abs: string, comp: string, s: string, last: bool, nlinks: nat, flags: WalkFlags, trailing: bool)
      returns (step: Step)
      requires Mounted() && GoodPath(abs) && IsName(comp) && Fits(abs, comp) && (s == "" || s[0] == '/')
      modifies host
      ensures Mounted() && Untouched()
      ensures old(host.Quiet()) ==> host.Quiet()
      ensures ValidSeats(TheSpace().seats)
      ensures step == Onto(TheSpace(), abs, comp, s, last, nlinks, flags, trailing)
              || (step.Answer? && Refused(step.r) && !old(host.Quiet()))
    {
      assert ValidSeats(TheSpace().seats) && TheSpace().objs == host.objs;
      hide NodeAt, Canonical, Components, Mounted, Seats, SeatsOf, Seated, ValidSeats, TheSpace;
      var cand := Join(abs, comp);
      JoinAppends(abs, comp);
      var seated := MountAt(cand);
      if seated { return More(cand, Advance(s), nlinks); }
      var st := StatAbs(cand);
      if st.Err? { return Answer(Err(st.errno)); }
      if IsLink(host.objs, st.value) && (!last || !flags.nofollow || trailing) {
        step := FollowLink(abs, cand, s, nlinks, st.value);
        return;
      }
      if !last && !IsDir(host.objs, st.value) { return Answer(Err(ENOTDIR)); }
      return More(cand, Advance(s), nlinks);
    }

    /** Read the link at `cand` and splice its target in front of the unread text. */
    method FollowLink(abs: string, cand: string, s: string, nlinks: nat, ghost n: NodeId) returns (step: Step)
      requires Mounted() && Canonical(cand) && !Seated(TheSpace().seats, Components(cand))
      requires NodeAt(TheSpace(), Components(cand)) == Ok(n) && IsLink(host.objs, n)
      modifies host
      ensures Mounted() && Untouched()
      ensures old(host.Quiet()) ==> host.Quiet()
      ensures step == Splice(abs, s, host.objs[n].target, nlinks) || (step.Answer? && Refused(step.r) && !old(host.Quiet()))
    {
      hide NodeAt, Canonical, Components, Seated, SeatsOf;
      if nlinks + 1 > MAX_LINKS { return Answer(Err(ELOOP)); }
      var target := ReadlinkAbs(cand);
      if target.Err? { return Answer(Err(target.errno)); }
      if !Usable(target.value) { return Answer(Err(ENOENT)); }
      if |target.value| + |s| + 1 >= PATH_MAX { return Answer(Err(ENAMETOOLONG)); }
      return More(if target.value[0] == '/' then "/" else abs, target.value + s, nlinks + 1);
    }

    /** The walk stops at the parent, which must exist and be a directory. */
    method WalkParent(abs: string, comp: string) returns (r: Result<Loc>)
      requires Mounted() && Canonical(abs)
      modifies host
      ensures Mounted() && Untouched()
      ensures old(host.Quiet()) ==> host.Quiet()
      ensures ValidSeats(TheSpace().seats)
      ensures r == ParentAnswer(TheSpace(), abs, comp) || (Refused(r) && !old(host.Quiet()))
    {
      hide NodeAt, Canonical, Components, IsBest;
      var k := MountOf(abs);
      BestUnique(Seats(), Components(abs), k);
      var st := StatAbs(abs);
      if st.Err? { return Err(st.errno); }
      if !IsDir(host.objs, st.value) { return Err(ENOTDIR); }
      return Ok(Loc(k, abs, comp));
    }

    /** The path is read: what it came to, and whether that will do. */
    method WalkEnd(abs: string, flags: WalkFlags, trailing: bool) returns (r: Result<Loc>)
      requires Mounted() && Canonical(abs)
      modifies host
      ensures Mounted() && Untouched()
      ensures old(host.Quiet()) ==> host.Quiet()
      ensures ValidSeats(TheSpace().seats)
      ensures r == EndAnswer(TheSpace(), abs, flags, trailing) || (Refused(r) && !old(host.Quiet()))
    {
      hide NodeAt, Canonical, Components, IsBest;
      var k := MountOf(abs);
      BestUnique(Seats(), Components(abs), k);
      if flags.parent { return Err(EEXIST); }
      if flags.mustdir || trailing {
        var st := StatAbs(abs);
        if st.Err? { return Err(st.errno); }
        if !IsDir(host.objs, st.value) { return Err(ENOTDIR); }
      }
      return Ok(Loc(k, abs, ""));
    }
  }
}
