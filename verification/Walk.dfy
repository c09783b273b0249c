/** What the kernel's walk (core/vfs.c:328-422) decides from path text, and its
    agreement with the node-level resolver. */
module Walks {
  import opened Basics
  import opened Errors
  import opened Paths
  import opened Trees
  import opened Spaces
  import opened Resolution
  import opened Hosts

  /** A host directory seated at a point, or an in-kernel tree (/proc, or /dev if `dev`). */
  datatype Mount =
    | HostMount(point: string, root: Handle)
    | SynthMount(point: string, tree: NodeId, dev: bool)

  datatype WalkFlags = WalkFlags(parent: bool, nofollow: bool, mustdir: bool)

  /** What one component of a walk comes to. */
  datatype Step = Answer(r: Result<Loc>) | More(abs: string, p: string, nlinks: nat)

  /** A resolved path; `last` is the final component when the walk stopped at its parent. */
  datatype Loc = Loc(mount: nat, abs: string, last: string)

  function SeatNode(m: Mount, live: map<Handle, NodeId>): NodeId {
    match m
    case HostMount(_, root) => if root in live then live[root] else 0
    case SynthMount(_, tree, _) => tree
  }

  function SeatsOf(mounts: seq<Mount>, live: map<Handle, NodeId>): (seats: seq<Seat>)
    ensures |seats| == |mounts|
    ensures forall k :: 0 <= k < |mounts| ==> seats[k] == Seat(Components(mounts[k].point), SeatNode(mounts[k], live))
  {
    seq(|mounts|, i requires 0 <= i < |mounts| => Seat(Components(mounts[i].point), SeatNode(mounts[i], live)))
  }

  /** A file system is seated exactly at a path. */
  ghost predicate Seated(seats: seq<Seat>, cs: seq<string>) {
    exists k :: 0 <= k < |seats| && Point(seats, k) == cs
  }

  lemma OneName(c: string)
    requires IsName(c)
    ensures Canonical("/" + c) && Components("/" + c) == [c]
  {
    ComponentsOfName(c);
    RenderRoundTrip([c]);
    assert Tail([c]) == "" + "/" + c == "/" + c;
  }

  /** The three mounts every process starts with are canonical and distinct. */
  lemma FirstMounts()
    ensures Canonical("/") && Canonical("/proc") && Canonical("/dev")
    ensures Components("/") == [] && Components("/proc") == ["proc"] && Components("/dev") == ["dev"]
  {
    hide Components, Canonical;
    RenderRoundTrip([]);
    OneName("proc");
    OneName("dev");
    assert "/" + "proc" == "/proc" && "/" + "dev" == "/dev";
  }

  lemma FirstSeats(mounts: seq<Mount>, live: map<Handle, NodeId>)
    requires |mounts| == 3
    requires mounts[0].point == "/" && mounts[1].point == "/proc" && mounts[2].point == "/dev"
    ensures ValidSeats(SeatsOf(mounts, live))
  {
    FirstMounts();
    hide Components, Canonical;
    var seats := SeatsOf(mounts, live);
    assert IsName("proc") && IsName("dev");
    assert seats[0].point == [] && seats[1].point == ["proc"] && seats[2].point == ["dev"];
    assert "proc"[0] != "dev"[0];
  }

  ghost predicate RootsOpen(mounts: seq<Mount>, live: map<Handle, NodeId>) {
    forall k :: 0 <= k < |mounts| && mounts[k].HostMount? ==> mounts[k].root in live
  }

  /** Opening a fresh handle moves no mount. */
  lemma SeatsKept(mounts: seq<Mount>, live: map<Handle, NodeId>, h: Handle, n: NodeId)
    requires RootsOpen(mounts, live) && h !in live
    ensures RootsOpen(mounts, live[h := n])
    ensures SeatsOf(mounts, live[h := n]) == SeatsOf(mounts, live)
  {
    forall k | 0 <= k < |mounts| ensures SeatNode(mounts[k], live[h := n]) == SeatNode(mounts[k], live) {
      assert mounts[k].HostMount? ==> mounts[k].root in live;
    }
  }

  /** A handle opened and let go again leaves the open handles as they were. */
  lemma Reopened(live0: map<Handle, NodeId>, h: Handle, n: NodeId, live: map<Handle, NodeId>)
    requires h !in live0 && live == live0[h := n] - {h}
    ensures live == live0
  {
  }

  predicate GoodPath(abs: string) {
    Canonical(abs) && |abs| < PATH_MAX
  }

  /** No mount point lies strictly below `at` on the way down `cs`. */
  ghost predicate NoSeat(seats: seq<Seat>, at: seq<string>, cs: seq<string>) {
    forall i, j :: 0 < i <= |cs| && 0 <= j < |seats| ==> Point(seats, j) != at + cs[..i]
  }

  /** Below the longest mount point of a path there is none on the way to it. */
  lemma BestMeansNoSeat(seats: seq<Seat>, cs: seq<string>, k: nat)
    requires IsBest(seats, cs, k)
    ensures var p := Point(seats, k);
            && NoSeat(seats, p, cs[|p|..])
            && (p != cs ==> p <= Front(cs) && NoSeat(seats, p, Front(cs)[|p|..]))
  {
    var p := Point(seats, k);
    var rest := cs[|p|..];
    forall i, j | 0 < i <= |rest| && 0 <= j < |seats|
      ensures Point(seats, j) != p + rest[..i]
    {
      assert p + rest[..i] == cs[..|p| + i];
    }
    if p != cs {
      assert p == cs[..|p|];
      var front := Front(cs)[|p|..];
      assert forall i :: 0 <= i <= |front| ==> front[..i] == rest[..i];
    }
  }

  lemma NoSeatStep(seats: seq<Seat>, at: seq<string>, cs: seq<string>)
    requires NoSeat(seats, at, cs) && cs != []
    ensures forall j :: 0 <= j < |seats| ==> Point(seats, j) != at + [cs[0]]
    ensures NoSeat(seats, at + [cs[0]], cs[1..])
  {
    assert cs[..1] == [cs[0]];
    forall i, j | 0 < i <= |cs[1..]| && 0 <= j < |seats|
      ensures Point(seats, j) != at + [cs[0]] + cs[1..][..i]
    {
      assert at + [cs[0]] + cs[1..][..i] == at + cs[..i + 1];
    }
  }

  lemma PrefixShorter(a: seq<string>, b: seq<string>)
    requires AllNames(a) && AllNames(b) && a <= b && |a| < |b|
    ensures |Render(a)| < |Render(b)|
  {
    TailSplit(a, b[|a|..]);
    assert b == a + b[|a|..];
    ComponentsOfTail(b[|a|..]);
  }

  /** Two prefixes of one path compare by text length as they do by component count. */
  lemma PrefixesCompare(cs: seq<string>, x: seq<string>, y: seq<string>)
    requires AllNames(x) && AllNames(y) && x <= cs && y <= cs
    requires |Render(x)| <= |Render(y)|
    ensures |x| <= |y|
  {
    if |y| < |x| {
      assert x == cs[..|x|] && y == cs[..|y|];
      PrefixShorter(y, x);
    }
  }

  lemma LongestHitIsBest(mounts: seq<Mount>, live: map<Handle, NodeId>, abs: string, k: nat)
    requires forall j :: 0 <= j < |mounts| ==> Canonical(mounts[j].point)
    requires Canonical(abs) && k < |mounts| && Hit(mounts[k].point, abs)
    requires forall j :: 0 <= j < |mounts| && Hit(mounts[j].point, abs) ==> |mounts[j].point| <= |mounts[k].point|
    ensures IsBest(SeatsOf(mounts, live), Components(abs), k)
  {
    var seats := SeatsOf(mounts, live);
    HitIsPrefix(mounts[k].point, abs);
    forall j | 0 <= j < |mounts| && Point(seats, j) <= Components(abs)
      ensures |Point(seats, j)| <= |Point(seats, k)|
    {
      HitIsPrefix(mounts[j].point, abs);
      PrefixesCompare(Components(abs), Point(seats, j), Point(seats, k));
    }
  }

  /** The mount point and the path relative to it make up the path. */
  lemma RelOfCanonical(point: string, abs: string)
    requires Canonical(point) && Canonical(abs) && Components(point) <= Components(abs)
    ensures abs != "" && (|point| == 1 || |point| <= |abs|)
    ensures Rel(point, abs) == Joined(Components(abs)[|Components(point)|..])
    ensures Rel(point, abs) == "" <==> Components(point) == Components(abs)
    ensures Components(Rel(point, abs)) == Components(abs)[|Components(point)|..]
    ensures Render(Components(point) + Components(Rel(point, abs))) == abs
  {
    HitIsPrefix(point, abs);
    hide Joined, Rel, Hit, Components, Render, AllNames;
    assert Components(abs) == Components(point) + Components(abs)[|Components(point)|..];
  }

  /** The object `stat_abs` finds at a path. */
  ghost function NodeAt(sp: Space, cs: seq<string>): Result<NodeId>
    requires ValidSeats(sp.seats)
  {
    match At(sp, cs)
    case Err(e) => Err(e)
    case Ok(pl) => Ok(pl.node)
  }

  lemma NodeUnder(sp: Space, cs: seq<string>, k: nat)
    requires ValidSeats(sp.seats) && IsBest(sp.seats, cs, k)
    ensures Point(sp.seats, k) <= cs
    ensures NodeAt(sp, cs) == Descend(sp.objs, sp.seats[k].root, cs[|Point(sp.seats, k)|..])
  {
    BestUnique(sp.seats, cs, k);
  }

  lemma LastUnder(cs: seq<string>, p: nat)
    requires p < |cs|
    ensures cs[p..] == Front(cs)[p..] + [Last(cs)]
  {
  }

  /** A path below its mount is a lookup in the host directory of its parent. */
  lemma NodeByParent(sp: Space, abs: string, k: nat)
    requires ValidSeats(sp.seats) && Canonical(abs) && IsBest(sp.seats, Components(abs), k)
    requires Point(sp.seats, k) != Components(abs)
    ensures abs != "" && Canonical(Parent(abs)) && IsName(Base(abs)) && |Parent(abs)| <= |abs|
    ensures Point(sp.seats, k) <= Components(Parent(abs))
    ensures var p := |Point(sp.seats, k)|;
            && NoSeat(sp.seats, Point(sp.seats, k), Components(Parent(abs))[p..])
            && NodeAt(sp, Components(abs)) ==
                 match HostDir(sp.objs, sp.seats[k].root, Components(Parent(abs))[p..])
                 case Err(e) => Err(e)
                 case Ok(d) => Lookup(sp.objs, d, Base(abs))
  {
    hide NodeAt, HostDir, Descend, NoSeat;
    var cs := Components(abs);
    CanonicalIsAbsolute(abs);
    NodeUnder(sp, cs, k);
    BestMeansNoSeat(sp.seats, cs, k);
    ParentDropsLast(abs);
    var p := |Point(sp.seats, k)|;
    assert cs != [] && IsName(cs[|cs| - 1]);
    LastUnder(cs, p);
    HostDirThenLookup(sp.objs, sp.seats[k].root, Front(cs)[p..], Last(cs));
  }

  // ---- reading the path text ----

  function SkipSlashes(t: string): (r: string)
    ensures |r| <= |t| && (r == "" || r[0] != '/')
    ensures Components(r) == Components(t)
  {
    if t == "" || t[0] != '/' then t else SkipSlashes(t[1..])
  }

  /** Past the slash that ended a component, if there was one. */
  function Advance(s: string): (r: string)
    requires s == "" || s[0] == '/'
    ensures Components(r) == Components(s) && |r| <= |s|
  {
    if s == "" then "" else s[1..]
  }

  lemma FirstComponent(p: string)
    requires p != "" && p[0] != '/'
    ensures Components(p) == [p[..NameLen(p)]] + Components(p[NameLen(p)..])
    ensures NameLen(p) > 0
  {
  }

  lemma NoneLeft(s: string)
    ensures SkipSlashes(s) == "" <==> Components(s) == []
  {
    var r := SkipSlashes(s);
    if r != "" { assert Components(r) != []; }
  }

  // ---- the walk's state against the reference ----

  /** The kernel is at the canonical path `abs` with `text` unread and `left`
      links to spend, and the reference, at the node `abs` names, would still
      answer `goal`. */
  ghost predicate Tracks(sp: Space, abs: string, text: string, left: nat, want: Want, goal: Result<Found>) {
    && IsSpace(sp)
    && var cs := Components(abs);
    && At(sp, cs).Ok?
    && (cs != [] ==> DirChain(sp, Front(cs)))
    && (Components(text) != [] ==> DirChain(sp, cs))
    && Resolve(sp, At(sp, cs).value, Components(text), left, want) == goal
  }

  lemma RootText()
    ensures GoodPath("/") && Components("/") == []
  {
    RenderRoundTrip([]);
  }

  /** Skipping slashes reads nothing. */
  lemma TrackText(sp: Space, abs: string, text: string, more: string, left: nat, want: Want, goal: Result<Found>)
    requires Tracks(sp, abs, text, left, want, goal) && Components(more) == Components(text)
    ensures Tracks(sp, abs, more, left, want, goal)
  {
  }

  lemma TrackDot(sp: Space, abs: string, text: string, more: string, left: nat, want: Want, goal: Result<Found>)
    requires Tracks(sp, abs, text, left, want, goal)
    requires Components(text) == ["."] + Components(more)
    ensures Tracks(sp, abs, more, left, want, goal)
  {
    ChainFront(sp, Components(abs));
    assert Components(text)[1..] == Components(more);
  }

  lemma TrackDotDot(sp: Space, abs: string, text: string, more: string, left: nat, want: Want, goal: Result<Found>)
    requires Canonical(abs) && Tracks(sp, abs, text, left, want, goal)
    requires Components(text) == [".."] + Components(more)
    ensures abs != "" && Tracks(sp, Parent(abs), more, left, want, goal)
  {
    var cs := Components(abs);
    CanonicalIsAbsolute(abs);
    ParentDropsLast(abs);
    ChainFront(sp, cs);
    UpIsFront(sp, cs);
    if cs != [] { ChainFront(sp, Front(cs)); }
    assert Components(text)[1..] == Components(more);
  }

  /** Stepping onto a component that is not a link to follow. */
  lemma TrackEnter(sp: Space, abs: string, comp: string, text: string, more: string, left: nat,
                   want: Want, goal: Result<Found>)
    requires Canonical(abs) && IsName(comp) && Tracks(sp, abs, text, left, want, goal)
    requires Components(text) == [comp] + Components(more)
    requires !(want.parentOnly && Components(more) == [])
    requires var n := NodeAt(sp, Components(abs) + [comp]);
             && n.Ok?
             && (Components(more) != [] ==> IsDir(sp.objs, n.value))
             && (IsLink(sp.objs, n.value) ==> Components(more) == [] && !want.followLast)
    ensures Tracks(sp, Join(abs, comp), more, left, want, goal)
  {
    var cs := Components(abs);
    JoinAppends(abs, comp);
    ChainFront(sp, cs);
    EnterIsAppend(sp, cs, comp);
    NextEnter(sp, At(sp, cs).value, comp, Components(more), left, want);
    assert Front(cs + [comp]) == cs;
    if Components(more) != [] { ChainSnoc(sp, cs, comp); }
  }

  /** Splicing a link's target in front of what remains. */
  lemma TrackLink(sp: Space, abs: string, comp: string, text: string, s: string, target: string, left: nat,
                  want: Want, goal: Result<Found>)
    requires IsName(comp) && Tracks(sp, abs, text, left, want, goal)
    requires (s == "" || s[0] == '/') && Components(text) == [comp] + Components(s)
    requires !(want.parentOnly && Components(s) == []) && !want.strict
    requires Components(s) != [] || want.followLast
    requires var n := NodeAt(sp, Components(abs) + [comp]);
             n.Ok? && IsLink(sp.objs, n.value) && sp.objs[n.value].target == target
    ensures left == 0 ==> goal == Err(ELOOP)
    ensures left > 0 && !Usable(target) ==> goal == Err(ENOENT)
    ensures left > 0 && Usable(target) ==>
              Tracks(sp, if target[0] == '/' then "/" else abs, target + s, left - 1, want, goal)
  {
    hide Resolve, Next, At;
    var cs := Components(abs);
    LinkMove(sp, cs, comp, Components(s), target, left, want);
    if left > 0 && Usable(target) {
      ComponentsConcat(target, s);
      RootIsPlace(sp, cs);
      var more := Components(target) + Components(s);
      if target[0] == '/' {
        TrackFrom(sp, "/", [], target + s, more, left - 1, want, goal);
      } else {
        TrackFrom(sp, abs, cs, target + s, more, left - 1, want, goal);
      }
    }
  }

  /** What following the link `comp` in the directory at `cs` comes to. */
  lemma LinkMove(sp: Space, cs: seq<string>, comp: string, rest: seq<string>, target: string, left: nat, want: Want)
    requires IsSpace(sp) && DirChain(sp, cs) && IsName(comp)
    requires !(want.parentOnly && rest == []) && !want.strict && (rest != [] || want.followLast)
    requires var a := At(sp, cs + [comp]);
             a.Ok? && IsLink(sp.objs, a.value.node) && sp.objs[a.value.node].target == target
    ensures At(sp, cs).Ok?
    ensures var pl := At(sp, cs).value;
            Resolve(sp, pl, [comp] + rest, left, want) ==
              if left == 0 then Err(ELOOP)
              else if !Usable(target) then Err(ENOENT)
              else Resolve(sp, if target[0] == '/' then RootPlace(sp) else pl, Components(target) + rest, left - 1, want)
  {
    hide Resolve, Enter;
    ChainFront(sp, cs);
    EnterIsAppend(sp, cs, comp);
    assert At(sp, cs).Ok? && At(sp, cs).value.seat < |sp.seats| && IsDir(sp.objs, At(sp, cs).value.node);
    hide At, DirChain, IsSpace, DirAt;
    LinkResolve(sp, At(sp, cs).value, comp, rest, target, left, want);
  }

  /** The same from a place: one link more followed. */
  lemma LinkResolve(sp: Space, pl: Place, comp: string, rest: seq<string>, target: string, left: nat, want: Want)
    requires ValidSeats(sp.seats) && pl.seat < |sp.seats| && IsDir(sp.objs, pl.node) && IsName(comp)
    requires !(want.parentOnly && rest == []) && !want.strict && (rest != [] || want.followLast)
    requires var a := Enter(sp, pl, comp);
             a.Ok? && IsLink(sp.objs, a.value.node) && sp.objs[a.value.node].target == target
    ensures Resolve(sp, pl, [comp] + rest, left, want) ==
              if left == 0 then Err(ELOOP)
              else if !Usable(target) then Err(ENOENT)
              else Resolve(sp, if target[0] == '/' then RootPlace(sp) else pl, Components(target) + rest, left - 1, want)
  {
    hide Enter, ValidSeats, Components, IsName;
    NextEnter(sp, pl, comp, rest, left, want);
    hide Next;
  }

  lemma TrackFrom(sp: Space, abs: string, cs: seq<string>, text: string, more: seq<string>, left: nat, want: Want,
                  goal: Result<Found>)
    requires IsSpace(sp) && Components(abs) == cs && Components(text) == more
    requires DirChain(sp, cs) && At(sp, cs).Ok? && Resolve(sp, At(sp, cs).value, more, left, want) == goal
    ensures Tracks(sp, abs, text, left, want, goal)
  {
    ChainFront(sp, cs);
  }

  lemma NextEnter(sp: Space, pl: Place, comp: string, rest: seq<string>, left: nat, want: Want)
    requires ValidSeats(sp.seats) && pl.seat < |sp.seats| && IsDir(sp.objs, pl.node) && IsName(comp)
    requires !(want.parentOnly && rest == [])
    ensures Next(sp, pl, [comp] + rest, left, want) ==
            match Enter(sp, pl, comp)
            case Err(e) => Stop(Err(e))
            case Ok(n) =>
              if IsLink(sp.objs, n.node) && (rest != [] || want.followLast) then
                var target := sp.objs[n.node].target;
                if left == 0 then Stop(Err(ELOOP))
                else if !Usable(target) then Stop(Err(ENOENT))
                else Go(if target[0] == '/' then RootPlace(sp) else pl, Components(target) + rest,
                        left - 1, rest == [] && EndsInSlash(target))
              else Go(n, rest, left, false)
  {
    var cs := [comp] + rest;
    assert cs[0] == comp && cs[1..] == rest;
  }

  /** The component is missing or cannot be looked up. */
  lemma TrackFail(sp: Space, abs: string, comp: string, text: string, s: string, left: nat, want: Want,
                  goal: Result<Found>, e: Errno)
    requires IsName(comp) && Tracks(sp, abs, text, left, want, goal)
    requires Components(text) == [comp] + Components(s) && !(want.parentOnly && Components(s) == [])
    requires NodeAt(sp, Components(abs) + [comp]) == Err(e)
    ensures goal == Err(e)
  {
    var cs := Components(abs);
    ChainFront(sp, cs);
    EnterIsAppend(sp, cs, comp);
    NextEnter(sp, At(sp, cs).value, comp, Components(s), left, want);
  }

  /** Something comes after a component that is neither a directory nor a link. */
  lemma TrackNotDir(sp: Space, abs: string, comp: string, text: string, s: string, left: nat, want: Want,
                    goal: Result<Found>, n: NodeId)
    requires IsName(comp) && Tracks(sp, abs, text, left, want, goal)
    requires Components(text) == [comp] + Components(s) && Components(s) != []
    requires NodeAt(sp, Components(abs) + [comp]) == Ok(n) && !IsDir(sp.objs, n) && !IsLink(sp.objs, n)
    ensures goal == Err(ENOTDIR)
  {
    var cs := Components(abs);
    ChainFront(sp, cs);
    EnterIsAppend(sp, cs, comp);
    var pl := At(sp, cs).value;
    NextEnter(sp, pl, comp, Components(s), left, want);
    hide Next, Enter, At;
    NotDirStops(sp, Enter(sp, pl, comp).value, Components(s), left, want);
  }

  lemma NotDirStops(sp: Space, pl: Place, cs: seq<string>, left: nat, want: Want)
    requires ValidSeats(sp.seats) && pl.seat < |sp.seats| && cs != [] && !IsDir(sp.objs, pl.node)
    ensures Resolve(sp, pl, cs, left, want) == Err(ENOTDIR)
  {
  }

  /** Only the last component is left and its parent was asked for. */
  lemma TrackParent(sp: Space, abs: string, comp: string, text: string, left: nat, want: Want, goal: Result<Found>)
    requires IsName(comp) && Tracks(sp, abs, text, left, want, goal)
    requires Components(text) == [comp] && want.parentOnly
    ensures DirAt(sp, Components(abs)) && DirChain(sp, Components(abs))
    ensures goal == Ok(Found(At(sp, Components(abs)).value, comp))
  {
    var cs := Components(abs);
    ChainFront(sp, cs);
    assert Next(sp, At(sp, cs).value, Components(text), left, want) == Stop(Ok(Found(At(sp, cs).value, comp)));
  }

  /** Everything is read. */
  lemma TrackEnd(sp: Space, abs: string, text: string, left: nat, want: Want, goal: Result<Found>)
    requires Tracks(sp, abs, text, left, want, goal) && Components(text) == []
    ensures At(sp, Components(abs)).Ok?
    ensures Components(abs) != [] ==> DirChain(sp, Front(Components(abs)))
    ensures var pl := At(sp, Components(abs)).value;
            goal == if want.parentOnly then Err(EEXIST)
                    else if want.mustDir && !IsDir(sp.objs, pl.node) then Err(ENOTDIR)
                    else Ok(Found(pl, ""))
  {
  }

  /** A mount seated exactly at a path is a directory there. */
  lemma MountIsDir(sp: Space, cs: seq<string>, abs: string, p: string, left: nat, want: Want, goal: Result<Found>)
    requires Tracks(sp, abs, p, left, want, goal) && Seated(sp.seats, cs)
    ensures NodeAt(sp, cs).Ok? && IsDir(sp.objs, NodeAt(sp, cs).value)
  {
    var k: nat :| k < |sp.seats| && Point(sp.seats, k) == cs;
    AtPoint(sp, k);
  }

  /** The answer the node-level resolver gives for a path read from a start directory. */
  ghost function Reference(sp: Space, start: string, path: string, want: Want): Result<Found>
    requires ValidSeats(sp.seats)
  {
    match At(sp, Components(start))
    case Err(e) => Err(e)
    case Ok(pl) => Resolve(sp, pl, Components(path), MAX_LINKS, want)
  }

  lemma TrackStart(sp: Space, start: string, path: string, want: Want)
    requires IsSpace(sp) && DirChain(sp, Components(start))
    ensures Tracks(sp, start, path, MAX_LINKS, want, Reference(sp, start, path, want))
  {
    hide Resolve, At;
    ChainFront(sp, Components(start));
  }

  predicate Trailing(path: string) {
    |path| > 1 && path[|path| - 1] == '/'
  }

  /** What a walk wants of the reference; only the caller's own path can demand a
      directory by its trailing slash. */
  function WantFor(flags: WalkFlags, trailing: bool): Want {
    Want(!flags.nofollow || trailing, flags.mustdir || trailing, flags.parent, false)
  }

  /** The walk answers as the reference does: the canonical path of the very node,
      all of whose proper prefixes are directories, or the same error. */
  ghost predicate Agrees(sp: Space, r: Result<Loc>, goal: Result<Found>)
    requires ValidSeats(sp.seats)
  {
    match r
    case Err(e) => goal == Err(e)
    case Ok(loc) =>
      var cs := Components(loc.abs);
      && At(sp, cs).Ok? && goal == Ok(Found(At(sp, cs).value, loc.last))
      && (cs != [] ==> DirChain(sp, Front(cs)))
  }

  /** A location is canonical text within the buffers, on the longest mount. */
  ghost predicate LocFits(seats: seq<Seat>, loc: Loc, parent: bool) {
    && GoodPath(loc.abs) && IsBest(seats, Components(loc.abs), loc.mount)
    && (if parent then IsName(loc.last) else loc.last == "")
  }

  /** One component of the walk, as the kernel decides it from the path text. */
  ghost function StepOf(sp: Space, abs: string, p: string, nlinks: nat, flags: WalkFlags, trailing: bool): Step
    requires ValidSeats(sp.seats) && GoodPath(abs) && p != "" && p[0] != '/' && nlinks <= MAX_LINKS
  {
    CanonicalIsAbsolute(abs);
    FirstComponent(p);
    var comp, s := p[..NameLen(p)], p[NameLen(p)..];
    var last := SkipSlashes(s) == "";
    if |comp| > NAME_MAX then Answer(Err(ENAMETOOLONG))
    else if comp == "." then More(abs, Advance(s), nlinks)
    else if comp == ".." then More(Parent(abs), Advance(s), nlinks)
    else if last && flags.parent then Answer(ParentAnswer(sp, abs, comp))
    else if !Fits(abs, comp) then Answer(Err(ENAMETOOLONG))
    else Onto(sp, abs, comp, s, last, nlinks, flags, trailing)
  }

  /** Stepping onto a real component: a mount, a link to follow, or an object. */
  ghost function Onto(sp: Space, abs: string, comp: string, s: string, last: bool, nlinks: nat, flags: WalkFlags,
                      trailing: bool): Step
    requires ValidSeats(sp.seats) && (s == "" || s[0] == '/')
  {
    var cs := Components(Join(abs, comp));
    if Seated(sp.seats, cs) then More(Join(abs, comp), Advance(s), nlinks)
    else match NodeAt(sp, cs)
      case Err(e) => Answer(Err(e))
      case Ok(n) =>
        if IsLink(sp.objs, n) && (!last || !flags.nofollow || trailing) then
          Splice(abs, s, sp.objs[n].target, nlinks)
        else if !last && !IsDir(sp.objs, n) then Answer(Err(ENOTDIR))
        else More(Join(abs, comp), Advance(s), nlinks)
  }

  /** A link's target in front of the unread text, from the root if it is absolute. */
  function Splice(abs: string, s: string, target: string, nlinks: nat): Step {
    if nlinks + 1 > MAX_LINKS then Answer(Err(ELOOP))
    else if !Usable(target) then Answer(Err(ENOENT))
    else if |target| + |s| + 1 >= PATH_MAX then Answer(Err(ENAMETOOLONG))
    else More(if target[0] == '/' then "/" else abs, target + s, nlinks + 1)
  }

  ghost function DirCheck(sp: Space, abs: string, loc: Loc): Result<Loc>
    requires ValidSeats(sp.seats)
  {
    match NodeAt(sp, Components(abs))
    case Err(e) => Err(e)
    case Ok(n) => if IsDir(sp.objs, n) then Ok(loc) else Err(ENOTDIR)
  }

  ghost function ParentAnswer(sp: Space, abs: string, comp: string): Result<Loc>
    requires ValidSeats(sp.seats)
  {
    DirCheck(sp, abs, Loc(SeatOf(sp.seats, Components(abs)), abs, comp))
  }

  ghost function EndAnswer(sp: Space, abs: string, flags: WalkFlags, trailing: bool): Result<Loc>
    requires ValidSeats(sp.seats)
  {
    var loc := Loc(SeatOf(sp.seats, Components(abs)), abs, "");
    if flags.parent then Err(EEXIST)
    else if flags.mustdir || trailing then DirCheck(sp, abs, loc)
    else Ok(loc)
  }

  /** A step stays canonical and within the buffers, and makes progress. */
  lemma StepFits(sp: Space, abs: string, p: string, nlinks: nat, flags: WalkFlags, trailing: bool)
    requires ValidSeats(sp.seats) && GoodPath(abs) && 0 < |p| < PATH_MAX && p[0] != '/' && nlinks <= MAX_LINKS
    ensures match StepOf(sp, abs, p, nlinks, flags, trailing)
            case More(abs', p', nlinks') =>
              && GoodPath(abs') && |p'| < PATH_MAX && nlinks <= nlinks' <= MAX_LINKS
              && (nlinks' == nlinks ==> |p'| < |p|)
            case Answer(r) => r.Ok? ==> LocFits(sp.seats, r.value, flags.parent)
  {
    hide NodeAt, Canonical, Components, SeatOf, IsBest, Parent, SkipSlashes, IsDir, ValidSeats, Onto;
    FirstComponent(p);
    CanonicalIsAbsolute(abs);
    ParentDropsLast(abs);
    var comp, s := p[..NameLen(p)], p[NameLen(p)..];
    if IsName(comp) && Fits(abs, comp) {
      OntoFits(sp, abs, comp, s, SkipSlashes(s) == "", nlinks, flags, trailing);
    }
  }

  lemma OntoFits(sp: Space, abs: string, comp: string, s: string, last: bool, nlinks: nat, flags: WalkFlags, trailing: bool)
    requires ValidSeats(sp.seats) && GoodPath(abs) && IsName(comp) && Fits(abs, comp)
    requires |s| < PATH_MAX && (s == "" || s[0] == '/') && nlinks <= MAX_LINKS
    ensures match Onto(sp, abs, comp, s, last, nlinks, flags, trailing)
            case More(abs', p', nlinks') =>
              && GoodPath(abs') && |p'| < PATH_MAX && nlinks <= nlinks' <= MAX_LINKS
              && (nlinks' == nlinks ==> |p'| <= |s|)
            case Answer(r) => r.Err?
  {
    hide NodeAt, Seated, Canonical, Components, ValidSeats, IsLink, IsDir, Join;
    RootText();
    JoinAppends(abs, comp);
  }

  /** The reference follows each step of the walk. */
  lemma StepTracks(sp: Space, abs: string, p: string, nlinks: nat, flags: WalkFlags, trailing: bool, goal: Result<Found>)
    requires ValidSeats(sp.seats) && GoodPath(abs) && 0 < |p| < PATH_MAX && p[0] != '/' && nlinks <= MAX_LINKS
    requires Tracks(sp, abs, p, MAX_LINKS - nlinks, WantFor(flags, trailing), goal)
    ensures TracksStep(sp, StepOf(sp, abs, p, nlinks, flags, trailing), WantFor(flags, trailing), goal)
  {
    hide Tracks, NodeAt, DirChain, DirAt, At, Canonical, Components;
    var want, left := WantFor(flags, trailing), MAX_LINKS - nlinks;
    var comp, s := p[..NameLen(p)], p[NameLen(p)..];
    FirstComponent(p);
    NoneLeft(s);
    var after := Advance(s);
    if comp == "." {
      TrackDot(sp, abs, p, after, left, want, goal);
    } else if comp == ".." {
      TrackDotDot(sp, abs, p, after, left, want, goal);
    } else if |comp| <= NAME_MAX && SkipSlashes(s) == "" && flags.parent {
      ParentAgrees(sp, abs, comp, p, left, want, goal);
    } else if |comp| <= NAME_MAX && Fits(abs, comp) {
      JoinAppends(abs, comp);
      StepOntoTracks(sp, abs, comp, s, p, nlinks, flags, trailing, goal);
    }
  }

  lemma ParentAgrees(sp: Space, abs: string, comp: string, p: string, left: nat, want: Want, goal: Result<Found>)
    requires IsName(comp) && Tracks(sp, abs, p, left, want, goal)
    requires Components(p) == [comp] && want.parentOnly
    ensures Agrees(sp, ParentAnswer(sp, abs, comp), goal)
  {
    TrackParent(sp, abs, comp, p, left, want, goal);
    ChainFront(sp, Components(abs));
    hide Tracks, DirChain, At;
  }

  /** The whole walk, as the kernel decides it from the path text. */
  ghost function WalkText(sp: Space, abs: string, p: string, nlinks: nat, flags: WalkFlags, trailing: bool): Result<Loc>
    requires ValidSeats(sp.seats) && GoodPath(abs) && |p| < PATH_MAX && nlinks <= MAX_LINKS
    decreases MAX_LINKS - nlinks, |p|
  {
    var q := SkipSlashes(p);
    if q == "" then EndAnswer(sp, abs, flags, trailing)
    else
      StepFits(sp, abs, q, nlinks, flags, trailing);
      match StepOf(sp, abs, q, nlinks, flags, trailing)
      case Answer(r) => r
      case More(abs', p', nlinks') => WalkText(sp, abs', p', nlinks', flags, trailing)
  }

  /** Where a path starts: the working directory, or a descriptor's recorded path. */
  datatype Origin = Cwd | Dir(path: string)

  predicate OriginFits(b: Origin) {
    b.Dir? ==> GoodPath(b.path)
  }

  function StartOf(cwd: string, b: Origin, path: string): string {
    if path != "" && path[0] == '/' then "/" else if b.Dir? then b.path else cwd
  }

  /** The walk of a path the caller gave, from the working directory or a descriptor. */
  ghost function PathAnswer(sp: Space, cwd: string, b: Origin, path: string, flags: WalkFlags): Result<Loc>
    requires ValidSeats(sp.seats) && GoodPath(cwd) && OriginFits(b)
  {
    RootText();
    if path == "" then Err(ENOENT)
    else if |path| >= PATH_MAX then Err(ENAMETOOLONG)
    else WalkText(sp, StartOf(cwd, b, path), path, 0, flags, Trailing(path))
  }

  lemma PathFits(sp: Space, cwd: string, b: Origin, path: string, flags: WalkFlags)
    requires ValidSeats(sp.seats) && GoodPath(cwd) && OriginFits(b)
    ensures var r := PathAnswer(sp, cwd, b, path, flags); r.Ok? ==> LocFits(sp.seats, r.value, flags.parent)
  {
    hide WalkText, Canonical, LocFits;
    RootText();
    if path != "" && |path| < PATH_MAX { WalkFits(sp, StartOf(cwd, b, path), path, 0, flags, Trailing(path)); }
  }

  /** Whatever a walk finds is a canonical path within the buffers, on its longest mount. */
  lemma {:induction false} WalkFits(sp: Space, abs: string, p: string, nlinks: nat, flags: WalkFlags, trailing: bool)
    requires ValidSeats(sp.seats) && GoodPath(abs) && |p| < PATH_MAX && nlinks <= MAX_LINKS
    ensures var r := WalkText(sp, abs, p, nlinks, flags, trailing); r.Ok? ==> LocFits(sp.seats, r.value, flags.parent)
    decreases MAX_LINKS - nlinks, |p|
  {
    hide StepOf, LocFits, SkipSlashes, Canonical;
    var q := SkipSlashes(p);
    if q == "" {
      EndFits(sp, abs, flags, trailing);
    } else {
      StepFits(sp, abs, q, nlinks, flags, trailing);
      var step := StepOf(sp, abs, q, nlinks, flags, trailing);
      if step.More? { WalkFits(sp, step.abs, step.p, step.nlinks, flags, trailing); }
    }
  }

  lemma EndFits(sp: Space, abs: string, flags: WalkFlags, trailing: bool)
    requires ValidSeats(sp.seats) && GoodPath(abs)
    ensures var r := EndAnswer(sp, abs, flags, trailing); r.Ok? ==> LocFits(sp.seats, r.value, flags.parent)
  {
  }

  /** The walk follows the reference to its answer. */
  lemma {:induction false} WalkTracks(sp: Space, abs: string, p: string, nlinks: nat, flags: WalkFlags, trailing: bool,
                                      goal: Result<Found>)
    requires ValidSeats(sp.seats) && GoodPath(abs) && |p| < PATH_MAX && nlinks <= MAX_LINKS
    requires Tracks(sp, abs, p, MAX_LINKS - nlinks, WantFor(flags, trailing), goal)
    ensures var r := WalkText(sp, abs, p, nlinks, flags, trailing); r != Err(ENAMETOOLONG) ==> Agrees(sp, r, goal)
    decreases MAX_LINKS - nlinks, |p|
  {
    hide StepOf, EndAnswer, Tracks, SkipSlashes, Canonical, Agrees, WantFor, Components;
    var q := SkipSlashes(p);
    TrackText(sp, abs, p, q, MAX_LINKS - nlinks, WantFor(flags, trailing), goal);
    if q == "" {
      EndAgrees(sp, abs, flags, trailing, MAX_LINKS - nlinks, goal);
    } else {
      StepFits(sp, abs, q, nlinks, flags, trailing);
      StepTracks(sp, abs, q, nlinks, flags, trailing, goal);
      var step := StepOf(sp, abs, q, nlinks, flags, trailing);
      if step.More? { WalkTracks(sp, step.abs, step.p, step.nlinks, flags, trailing, goal); }
    }
  }

  /** Path resolution by text agrees with path resolution by node, from every
      directory, for every path, on every tree and mount table. */
  lemma WalkAgrees(sp: Space, start: string, path: string, flags: WalkFlags)
    requires IsSpace(sp) && GoodPath(start) && DirChain(sp, Components(start)) && |path| < PATH_MAX
    ensures var r := WalkText(sp, start, path, 0, flags, Trailing(path));
            r == Err(ENAMETOOLONG) || Agrees(sp, r, Reference(sp, start, path, WantFor(flags, Trailing(path))))
  {
    hide WalkText, DirChain, Tracks, Agrees, Reference, WantFor;
    var want := WantFor(flags, Trailing(path));
    TrackStart(sp, start, path, want);
    WalkTracks(sp, start, path, 0, flags, Trailing(path), Reference(sp, start, path, want));
  }

  /** Some link followed in last position on the way has a target that ends in a slash. */
  ghost predicate SlashOnTheWay(sp: Space, start: string, path: string, want: Want)
    requires ValidSeats(sp.seats)
  {
    var at := At(sp, Components(start));
    at.Ok? && at.value.seat < |sp.seats| && TargetSlash(sp, at.value, Components(path), MAX_LINKS, want)
  }

  /** The walk answers as POSIX reads the path, too, except exactly where a link followed last
      has a target that ends in a slash and leads to something that is no directory. */
  lemma StrictGap(sp: Space, start: string, path: string, flags: WalkFlags)
    requires IsSpace(sp) && GoodPath(start) && DirChain(sp, Components(start)) && |path| < PATH_MAX && !flags.parent
    ensures var r, want := WalkText(sp, start, path, 0, flags, Trailing(path)), WantFor(flags, Trailing(path));
            r == Err(ENAMETOOLONG)
            || (Agrees(sp, r, Reference(sp, start, path, want.(strict := true)))
                <==> !(r.Ok? && SlashOnTheWay(sp, start, path, want) && !LeadsToDir(sp, r.value)))
  {
    var r, want := WalkText(sp, start, path, 0, flags, Trailing(path)), WantFor(flags, Trailing(path));
    WalkAgrees(sp, start, path, flags);
    ChainFront(sp, Components(start));
    var at := At(sp, Components(start));
    assert at.Ok? && at.value.seat < |sp.seats| && ValidSeats(sp.seats);
    StrictExactly(sp, at.value, Components(path), MAX_LINKS, want);
    hide WalkText, Resolve, TargetSlash, DirChain, IsSpace, ValidSeats, At;
  }

  ghost predicate LeadsToDir(sp: Space, loc: Loc)
    requires ValidSeats(sp.seats)
  {
    var n := NodeAt(sp, Components(loc.abs));
    n.Ok? && IsDir(sp.objs, n.value)
  }

  // ---- when the length limits cannot bite ----

  predicate ShortNames(t: string) {
    forall i :: 0 <= i < |Components(t)| ==> |Components(t)[i]| <= NAME_MAX
  }

  /** Every link's target is at most `most` long and has no overlong component. */
  ghost predicate ShortTargets(objs: Objects, most: nat) {
    forall n :: IsLink(objs, n) ==> |objs[n].target| <= most && ShortNames(objs[n].target)
  }

  lemma {:induction false} DescendErrors(objs: Objects, n: NodeId, cs: seq<string>)
    ensures Descend(objs, n, cs).Err? ==> Descend(objs, n, cs).errno in {ENOENT, ENOTDIR}
    decreases |cs|
  {
    if cs != [] && Lookup(objs, n, cs[0]).Ok? {
      DescendErrors(objs, Lookup(objs, n, cs[0]).value, cs[1..]);
    }
  }

  lemma NodeErrors(sp: Space, cs: seq<string>)
    requires ValidSeats(sp.seats)
    ensures NodeAt(sp, cs).Err? ==> NodeAt(sp, cs).errno in {ENOENT, ENOTDIR}
  {
    var k := SeatOf(sp.seats, cs);
    DescendErrors(sp.objs, sp.seats[k].root, cs[|Point(sp.seats, k)|..]);
  }

  lemma StepDetermined(sp: Space, abs: string, p: string, nlinks: nat, flags: WalkFlags, trailing: bool)
    requires ValidSeats(sp.seats) && GoodPath(abs) && p != "" && p[0] != '/' && nlinks <= MAX_LINKS
    ensures StepOf(sp, abs, p, nlinks, flags, trailing) != Answer(Err(Unspecified))
  {
    hide NodeAt, Canonical, SeatOf, ValidSeats, Components, Parent, SkipSlashes, Seated, Fits;
    NodeErrors(sp, Components(abs));
    NodeErrors(sp, Components(Join(abs, p[..NameLen(p)])));
  }

  /** Every walk has an errno of its own when it fails. */
  lemma {:induction false} WalkDetermined(sp: Space, abs: string, p: string, nlinks: nat, flags: WalkFlags, trailing: bool)
    requires ValidSeats(sp.seats) && GoodPath(abs) && |p| < PATH_MAX && nlinks <= MAX_LINKS
    ensures WalkText(sp, abs, p, nlinks, flags, trailing) != Err(Unspecified)
    decreases MAX_LINKS - nlinks, |p|
  {
    hide StepOf, NodeAt, Canonical, Components, SkipSlashes;
    var q := SkipSlashes(p);
    if q == "" {
      NodeErrors(sp, Components(abs));
    } else {
      StepFits(sp, abs, q, nlinks, flags, trailing);
      StepDetermined(sp, abs, q, nlinks, flags, trailing);
      var step := StepOf(sp, abs, q, nlinks, flags, trailing);
      if step.More? { WalkDetermined(sp, step.abs, step.p, step.nlinks, flags, trailing); }
    }
  }

  lemma PathDetermined(sp: Space, cwd: string, b: Origin, path: string, flags: WalkFlags)
    requires ValidSeats(sp.seats) && GoodPath(cwd) && OriginFits(b)
    ensures PathAnswer(sp, cwd, b, path, flags) != Err(Unspecified)
  {
    hide WalkText, Canonical;
    RootText();
    if path != "" && |path| < PATH_MAX { WalkDetermined(sp, StartOf(cwd, b, path), path, 0, flags, Trailing(path)); }
  }

  // ---- which paths have a last name ----

  /** The path ends in no name of its own: there is nothing in it but slashes, or it ends
      in `.` or `..`. */
  predicate Nameless(path: string) {
    var cs := Components(path);
    cs == [] || cs[|cs| - 1] == "." || cs[|cs| - 1] == ".."
  }

  lemma NamelessBehind(text: string, head: seq<string>, s: string)
    requires Components(text) == head + Components(s) && Components(s) != []
    ensures Nameless(text) <==> Nameless(s)
  {
  }

  /** A walk to the parent that steps on keeps the last name it is to stop at. */
  lemma StepKeepsName(sp: Space, abs: string, p: string, nlinks: nat, flags: WalkFlags, trailing: bool)
    requires ValidSeats(sp.seats) && GoodPath(abs) && p != "" && p[0] != '/' && nlinks <= MAX_LINKS && flags.parent
    ensures match StepOf(sp, abs, p, nlinks, flags, trailing)
            case More(_, p', _) => Nameless(p') <==> Nameless(p)
            case Answer(r) => r != Err(EEXIST) && (r.Ok? ==> !Nameless(p))
  {
    hide NodeAt, Canonical, SeatOf, ValidSeats, Components, Parent, Onto, Fits, Nameless, IsDir;
    var comp, s := p[..NameLen(p)], p[NameLen(p)..];
    FirstComponent(p);
    NoneLeft(s);
    NodeErrors(sp, Components(abs));
    SameName(Advance(s), s);
    if Components(s) != [] {
      NamelessBehind(p, [comp], s);
      OntoKeepsName(sp, abs, comp, s, nlinks, flags, trailing);
    } else {
      LastNamed(p, comp);
      NothingLeft(s);
    }
  }

  lemma LastNamed(p: string, comp: string)
    requires Components(p) == [comp]
    ensures Nameless(p) <==> comp == "." || comp == ".."
  {
  }

  lemma NothingLeft(s: string)
    requires Components(s) == []
    ensures Nameless(s)
  {
  }

  lemma OntoKeepsName(sp: Space, abs: string, comp: string, s: string, nlinks: nat, flags: WalkFlags, trailing: bool)
    requires ValidSeats(sp.seats) && (s == "" || s[0] == '/') && Components(s) != []
    ensures match Onto(sp, abs, comp, s, false, nlinks, flags, trailing)
            case More(_, p', _) => Nameless(p') <==> Nameless(s)
            case Answer(r) => r.Err? && r.errno != EEXIST
  {
    hide NodeAt, ValidSeats, Seated, Join, Components, Usable, Nameless, IsDir;
    NodeErrors(sp, Components(Join(abs, comp)));
    SameName(Advance(s), s);
    var n := NodeAt(sp, Components(Join(abs, comp)));
    if n.Ok? && IsLink(sp.objs, n.value) {
      var target := sp.objs[n.value].target;
      ComponentsConcat(target, s);
      NamelessBehind(target + s, Components(target), s);
    }
  }

  /** Where a walk to the parent finds one, the path has a last name; where it is told the
      path names a directory outright, it has none. */
  lemma {:induction false} ParentByName(sp: Space, abs: string, p: string, nlinks: nat, flags: WalkFlags, trailing: bool)
    requires ValidSeats(sp.seats) && GoodPath(abs) && |p| < PATH_MAX && nlinks <= MAX_LINKS && flags.parent
    ensures var r := WalkText(sp, abs, p, nlinks, flags, trailing);
            (r.Ok? ==> !Nameless(p)) && (r == Err(EEXIST) ==> Nameless(p))
    decreases MAX_LINKS - nlinks, |p|
  {
    hide StepOf, NodeAt, Canonical, Components, SkipSlashes, Nameless;
    var q := SkipSlashes(p);
    SameName(p, q);
    if q == "" {
      NothingNamed();
    } else {
      StepFits(sp, abs, q, nlinks, flags, trailing);
      StepKeepsName(sp, abs, q, nlinks, flags, trailing);
      var step := StepOf(sp, abs, q, nlinks, flags, trailing);
      if step.More? { ParentByName(sp, step.abs, step.p, step.nlinks, flags, trailing); }
    }
  }

  lemma SameName(p: string, q: string)
    requires Components(p) == Components(q)
    ensures Nameless(p) <==> Nameless(q)
  {
  }

  lemma NothingNamed()
    ensures Nameless("")
  {
  }

  lemma PathByName(sp: Space, cwd: string, b: Origin, path: string, flags: WalkFlags)
    requires ValidSeats(sp.seats) && GoodPath(cwd) && OriginFits(b) && flags.parent
    ensures var r := PathAnswer(sp, cwd, b, path, flags); (r.Ok? ==> !Nameless(path)) && (r == Err(EEXIST) ==> Nameless(path))
  {
    hide WalkText, Canonical, Nameless;
    RootText();
    if path != "" && |path| < PATH_MAX { ParentByName(sp, StartOf(cwd, b, path), path, 0, flags, Trailing(path)); }
  }

  lemma StepRoomy(sp: Space, abs: string, p: string, nlinks: nat, flags: WalkFlags, trailing: bool, most: nat, room: nat)
    requires ValidSeats(sp.seats) && GoodPath(abs) && p != "" && p[0] != '/' && nlinks <= MAX_LINKS
    requires ShortTargets(sp.objs, most) && ShortNames(p)
    requires |abs| + 1 + |p| + room < PATH_MAX && (nlinks < MAX_LINKS ==> most <= room)
    ensures match StepOf(sp, abs, p, nlinks, flags, trailing)
            case Answer(r) => r != Err(ENAMETOOLONG)
            case More(abs', p', nlinks') =>
              && ShortNames(p')
              && (p' != "" ==> |abs'| + 1 + |p'| <= |abs| + 1 + |p| + if nlinks' == nlinks then 0 else most)
              && (nlinks' == nlinks || nlinks' == nlinks + 1 <= MAX_LINKS)
  {
    hide NodeAt, Canonical, SeatOf, ValidSeats, ShortNames, Components, Parent, Onto, SkipSlashes;
    var comp, s := p[..NameLen(p)], p[NameLen(p)..];
    RestIsShort(p);
    CanonicalIsAbsolute(abs);
    NodeErrors(sp, Components(abs));
    ParentDropsLast(abs);
    OntoRoomy(sp, abs, comp, s, SkipSlashes(s) == "", nlinks, flags, trailing, most, room);
  }

  lemma OntoRoomy(sp: Space, abs: string, comp: string, s: string, last: bool, nlinks: nat, flags: WalkFlags,
                  trailing: bool, most: nat, room: nat)
    requires ValidSeats(sp.seats) && (s == "" || s[0] == '/') && nlinks <= MAX_LINKS && comp != ""
    requires ShortTargets(sp.objs, most) && ShortNames(s) && ShortNames(Advance(s))
    requires |abs| + 1 + |comp| + |s| + room < PATH_MAX && (nlinks < MAX_LINKS ==> most <= room)
    requires abs != ""
    ensures match Onto(sp, abs, comp, s, last, nlinks, flags, trailing)
            case Answer(r) => r != Err(ENAMETOOLONG)
            case More(abs', p', nlinks') =>
              && ShortNames(p')
              && (p' != "" ==> |abs'| + 1 + |p'| <= |abs| + 1 + |comp| + |s| + if nlinks' == nlinks then 0 else most)
              && (nlinks' == nlinks || nlinks' == nlinks + 1 <= MAX_LINKS)
  {
    hide NodeAt, Seated, ValidSeats, ShortNames, Components, Join, IsDir;
    JoinLength(abs, comp);
    var cs := Components(Join(abs, comp));
    NodeErrors(sp, cs);
    if NodeAt(sp, cs).Ok? && IsLink(sp.objs, NodeAt(sp, cs).value) {
      SpliceIsShort(sp.objs[NodeAt(sp, cs).value].target, s);
    }
  }

  lemma JoinLength(abs: string, comp: string)
    ensures |Join(abs, comp)| <= |abs| + 1 + |comp|
  {
  }

  lemma RestIsShort(p: string)
    requires p != "" && p[0] != '/' && ShortNames(p)
    ensures NameLen(p) <= NAME_MAX
    ensures ShortNames(p[NameLen(p)..]) && ShortNames(Advance(p[NameLen(p)..]))
  {
    FirstComponent(p);
    var s := p[NameLen(p)..];
    assert Components(p)[0] == p[..NameLen(p)];
    assert forall i :: 0 <= i < |Components(s)| ==> Components(s)[i] == Components(p)[i + 1];
  }

  lemma SpliceIsShort(target: string, s: string)
    requires ShortNames(target) && ShortNames(s) && (s == "" || s[0] == '/')
    ensures ShortNames(target + s)
  {
    ComponentsConcat(target, s);
  }

  /** A walk that is short against the buffers, counting what its links can
      add, never answers that a name is too long. */
  lemma {:induction false} WalkRoomy(sp: Space, abs: string, p: string, nlinks: nat, flags: WalkFlags, trailing: bool, most: nat)
    requires ValidSeats(sp.seats) && GoodPath(abs) && |p| < PATH_MAX && nlinks <= MAX_LINKS
    requires ShortTargets(sp.objs, most) && ShortNames(p)
    requires p != "" ==> |abs| + 1 + |p| + (MAX_LINKS - nlinks) * most < PATH_MAX
    ensures WalkText(sp, abs, p, nlinks, flags, trailing) != Err(ENAMETOOLONG)
    decreases MAX_LINKS - nlinks, |p|
  {
    hide StepOf, NodeAt, Canonical, Components, ShortTargets, SkipSlashes;
    var q := SkipSlashes(p);
    if q == "" {
      NodeErrors(sp, Components(abs));
    } else {
      StepFits(sp, abs, q, nlinks, flags, trailing);
      var left := MAX_LINKS - nlinks;
      assert left > 0 ==> left * most == (left - 1) * most + most;
      StepRoomy(sp, abs, q, nlinks, flags, trailing, most, left * most);
      var step := StepOf(sp, abs, q, nlinks, flags, trailing);
      if step.More? { WalkRoomy(sp, step.abs, step.p, step.nlinks, flags, trailing, most); }
    }
  }

  lemma StepOntoTracks(sp: Space, abs: string, comp: string, s: string, p: string, nlinks: nat, flags: WalkFlags,
                       trailing: bool, goal: Result<Found>)
    requires ValidSeats(sp.seats) && GoodPath(abs) && IsName(comp) && nlinks <= MAX_LINKS && (s == "" || s[0] == '/')
    requires p != "" && p[0] != '/' && comp == p[..NameLen(p)] && s == p[NameLen(p)..] && Fits(abs, comp)
    requires Components(Join(abs, comp)) == Components(abs) + [comp] && Components(p) == [comp] + Components(s)
    requires flags.parent ==> Components(s) != []
    requires Tracks(sp, abs, p, MAX_LINKS - nlinks, WantFor(flags, trailing), goal)
    ensures TracksStep(sp, StepOf(sp, abs, p, nlinks, flags, trailing), WantFor(flags, trailing), goal)
  {
    hide Tracks, Onto, Canonical, Components, Fits;
    NoneLeft(s);
    OntoTracks(sp, abs, comp, s, p, nlinks, flags, trailing, goal);
  }

  /** The reference is where the step leaves the walk, or answers what it answers. */
  ghost predicate TracksStep(sp: Space, step: Step, want: Want, goal: Result<Found>)
    requires ValidSeats(sp.seats)
  {
    match step
    case More(abs, p, nlinks) => nlinks <= MAX_LINKS && Tracks(sp, abs, p, MAX_LINKS - nlinks, want, goal)
    case Answer(r) => r != Err(ENAMETOOLONG) ==> Agrees(sp, r, goal)
  }

  lemma OntoTracks(sp: Space, abs: string, comp: string, s: string, p: string, nlinks: nat, flags: WalkFlags,
                   trailing: bool, goal: Result<Found>)
    requires ValidSeats(sp.seats) && GoodPath(abs) && IsName(comp) && nlinks <= MAX_LINKS && (s == "" || s[0] == '/')
    requires Components(Join(abs, comp)) == Components(abs) + [comp] && Components(p) == [comp] + Components(s)
    requires flags.parent ==> Components(s) != []
    requires Tracks(sp, abs, p, MAX_LINKS - nlinks, WantFor(flags, trailing), goal)
    ensures TracksStep(sp, Onto(sp, abs, comp, s, Components(s) == [], nlinks, flags, trailing), WantFor(flags, trailing), goal)
  {
    hide Tracks, NodeAt, Canonical, Components, Seated, Splice, ValidSeats, Join, Advance;
    var want, left := WantFor(flags, trailing), MAX_LINKS - nlinks;
    var after, cs := Advance(s), Components(Join(abs, comp));
    NoneLeft(s);
    AdvanceKeeps(s);
    if Seated(sp.seats, cs) {
      MountIsDir(sp, cs, abs, p, left, want, goal);
      TrackEnter(sp, abs, comp, p, after, left, want, goal);
    } else if NodeAt(sp, cs).Err? {
      TrackFail(sp, abs, comp, p, s, left, want, goal, NodeAt(sp, cs).errno);
    } else {
      var n := NodeAt(sp, cs).value;
      if IsLink(sp.objs, n) && (Components(s) != [] || want.followLast) {
        SpliceTracks(sp, abs, comp, s, p, sp.objs[n].target, nlinks, want, goal);
      } else if Components(s) != [] && !IsDir(sp.objs, n) {
        TrackNotDir(sp, abs, comp, p, s, left, want, goal, n);
      } else {
        TrackEnter(sp, abs, comp, p, after, left, want, goal);
      }
    }
  }

  lemma AdvanceKeeps(s: string)
    requires s == "" || s[0] == '/'
    ensures Components(Advance(s)) == Components(s)
  {
  }

  lemma SpliceTracks(sp: Space, abs: string, comp: string, s: string, p: string, target: string, nlinks: nat, want: Want,
                     goal: Result<Found>)
    requires ValidSeats(sp.seats) && IsName(comp) && nlinks <= MAX_LINKS && Tracks(sp, abs, p, MAX_LINKS - nlinks, want, goal)
    requires (s == "" || s[0] == '/') && Components(p) == [comp] + Components(s)
    requires !(want.parentOnly && Components(s) == []) && !want.strict
    requires Components(s) != [] || want.followLast
    requires var n := NodeAt(sp, Components(abs) + [comp]);
             n.Ok? && IsLink(sp.objs, n.value) && sp.objs[n.value].target == target
    ensures TracksStep(sp, Splice(abs, s, target, nlinks), want, goal)
  {
    hide Tracks, NodeAt, Components, ValidSeats, Usable;
    TrackLink(sp, abs, comp, p, s, target, MAX_LINKS - nlinks, want, goal);
  }

  lemma EndAgrees(sp: Space, abs: string, flags: WalkFlags, trailing: bool, left: nat, goal: Result<Found>)
    requires Tracks(sp, abs, "", left, WantFor(flags, trailing), goal)
    ensures Agrees(sp, EndAnswer(sp, abs, flags, trailing), goal)
  {
    TrackEnd(sp, abs, "", left, WantFor(flags, trailing), goal);
    hide Tracks, DirChain, At;
  }

  lemma RootIsPlace(sp: Space, cs: seq<string>)
    requires IsSpace(sp) && DirChain(sp, cs)
    ensures Components("/") == [] && At(sp, []) == Ok(RootPlace(sp)) && DirChain(sp, [])
  {
    AtPoint(sp, 0);
    assert Components("/") == Components("/"[1..]) == [];
    var none: seq<string> := [];
    assert none[..0] == none;
  }
}
