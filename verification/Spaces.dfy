/** The name space a process sees: host trees seated at canonical mount points,
    with navigation by components (what the kernel does) and by node (what a
    parent-pointer resolver does). */
module Spaces {
  import opened Errors
  import opened Paths
  import opened Trees

  /** A tree seated at a mount point, given by its components. */
  datatype Seat = Seat(point: seq<string>, root: NodeId)

  datatype Space = Space(objs: Objects, seats: seq<Seat>)

  /** An object as seen through one mount; the same host directory may be
      visible through two. */
  datatype Place = Place(seat: nat, node: NodeId)

  function Point(seats: seq<Seat>, k: nat): seq<string>
    requires k < |seats|
  {
    seats[k].point
  }

  /** A mount table of distinct canonical points, the root first. */
  ghost predicate ValidSeats(seats: seq<Seat>) {
    && seats != [] && seats[0].point == []
    && (forall k :: 0 <= k < |seats| ==> AllNames(seats[k].point))
    && (forall j, k :: 0 <= j < k < |seats| ==> seats[j].point != seats[k].point)
  }

  ghost predicate IsSpace(sp: Space) {
    && IsTree(sp.objs)
    && ValidSeats(sp.seats)
    && forall k :: 0 <= k < |sp.seats| ==> IsDir(sp.objs, sp.seats[k].root)
  }

  /** `k` is the longest mount point that is a component-wise prefix of `cs`. */
  ghost predicate IsBest(seats: seq<Seat>, cs: seq<string>, k: nat) {
    && k < |seats| && Point(seats, k) <= cs
    && forall j :: 0 <= j < |seats| && Point(seats, j) <= cs ==> |Point(seats, j)| <= |Point(seats, k)|
  }

  lemma {:induction false} BestExists(seats: seq<Seat>, cs: seq<string>)
    requires seats != [] && Point(seats, 0) == []
    ensures exists k: nat :: IsBest(seats, cs, k)
    decreases |seats|
  {
    var k: nat := 0;
    if |seats| > 1 {
      var last := |seats| - 1;
      var front := seats[..last];
      BestExists(front, cs);
      k :| IsBest(front, cs, k);
      assert forall j :: 0 <= j < last ==> Point(front, j) == Point(seats, j);
      if Point(seats, last) <= cs && |Point(seats, last)| >= |Point(seats, k)| {
        k := last;
      }
    }
    assert IsBest(seats, cs, k);
  }

  lemma PointsDistinct(seats: seq<Seat>, j: nat, k: nat)
    requires ValidSeats(seats) && j < |seats| && k < |seats|
    requires Point(seats, j) == Point(seats, k)
    ensures j == k
  {
  }

  ghost function SeatOf(seats: seq<Seat>, cs: seq<string>): (k: nat)
    requires ValidSeats(seats)
    ensures IsBest(seats, cs, k)
  {
    BestExists(seats, cs);
    var k: nat :| IsBest(seats, cs, k);
    k
  }

  lemma BestUnique(seats: seq<Seat>, cs: seq<string>, k: nat)
    requires ValidSeats(seats) && IsBest(seats, cs, k)
    ensures k == SeatOf(seats, cs)
  {
    var j := SeatOf(seats, cs);
    assert Point(seats, j) == cs[..|Point(seats, j)|] == Point(seats, k);
    PointsDistinct(seats, j, k);
  }

  /** What `stat_abs` finds: the longest mount, then one open per component. */
  ghost function At(sp: Space, cs: seq<string>): (r: Result<Place>)
    requires ValidSeats(sp.seats)
  {
    var k := SeatOf(sp.seats, cs);
    match Descend(sp.objs, sp.seats[k].root, cs[|Point(sp.seats, k)|..])
    case Err(e) => Err(e)
    case Ok(n) => Ok(Place(k, n))
  }

  ghost predicate DirAt(sp: Space, cs: seq<string>)
    requires ValidSeats(sp.seats)
  {
    At(sp, cs).Ok? && IsDir(sp.objs, At(sp, cs).value.node)
  }

  /** The path and each of its prefixes is a directory, never a symlink. */
  ghost predicate DirChain(sp: Space, cs: seq<string>)
    requires ValidSeats(sp.seats)
  {
    forall i :: 0 <= i <= |cs| ==> DirAt(sp, cs[..i])
  }

  // ---- navigation by node ----

  function Front(cs: seq<string>): seq<string>
    requires cs != []
  {
    cs[..|cs| - 1]
  }

  function Last(cs: seq<string>): string
    requires cs != []
  {
    cs[|cs| - 1]
  }

  ghost predicate SeatedAt(sp: Space, pl: Place, name: string, k: nat)
    requires ValidSeats(sp.seats)
  {
    && k < |sp.seats| && Point(sp.seats, k) != []
    && At(sp, Front(Point(sp.seats, k))) == Ok(pl)
    && Last(Point(sp.seats, k)) == name
  }

  /** Step down from a directory: onto a file system seated there, or to the entry. */
  ghost function Enter(sp: Space, pl: Place, name: string): Result<Place>
    requires ValidSeats(sp.seats)
  {
    if exists k: nat :: SeatedAt(sp, pl, name, k) then
      var k: nat :| SeatedAt(sp, pl, name, k);
      Ok(Place(k, sp.seats[k].root))
    else match Lookup(sp.objs, pl.node, name)
      case Err(e) => Err(e)
      case Ok(n) => Ok(Place(pl.seat, n))
  }

  /** Step up from a directory: by its parent pointer, or out of the root of a
      mount to the directory the mount is seated under. */
  ghost function Up(sp: Space, pl: Place): Place
    requires ValidSeats(sp.seats) && pl.seat < |sp.seats| && IsDir(sp.objs, pl.node)
  {
    if pl.node != sp.seats[pl.seat].root then Place(pl.seat, sp.objs[pl.node].parent)
    else if Point(sp.seats, pl.seat) == [] then pl
    else match At(sp, Front(Point(sp.seats, pl.seat)))
      case Ok(q) => q
      case Err(_) => pl
  }

  // ---- the two agree ----

  /** A directory has exactly one canonical path in the name space. */
  lemma PlaceUnique(sp: Space, a: seq<string>, b: seq<string>, pl: Place)
    requires IsSpace(sp)
    requires At(sp, a) == Ok(pl) && At(sp, b) == Ok(pl) && IsDir(sp.objs, pl.node)
    ensures a == b
  {
    var k := pl.seat;
    var p := Point(sp.seats, k);
    DescendUnique(sp.objs, sp.seats[k].root, a[|p|..], b[|p|..], pl.node);
    assert a == p + a[|p|..] && b == p + b[|p|..];
  }

  lemma SeatedIffPoint(sp: Space, cs: seq<string>, pl: Place, name: string, k: nat)
    requires IsSpace(sp) && At(sp, cs) == Ok(pl) && IsDir(sp.objs, pl.node)
    ensures SeatedAt(sp, pl, name, k) <==> k < |sp.seats| && Point(sp.seats, k) == cs + [name]
  {
    if SeatedAt(sp, pl, name, k) {
      var p := Point(sp.seats, k);
      PlaceUnique(sp, cs, Front(p), pl);
      assert p == Front(p) + [Last(p)];
    }
    if k < |sp.seats| && Point(sp.seats, k) == cs + [name] {
      assert Front(Point(sp.seats, k)) == cs;
    }
  }

  lemma AtPoint(sp: Space, k: nat)
    requires IsSpace(sp) && k < |sp.seats|
    ensures At(sp, Point(sp.seats, k)) == Ok(Place(k, sp.seats[k].root))
  {
    var p := Point(sp.seats, k);
    assert IsBest(sp.seats, p, k);
    BestUnique(sp.seats, p, k);
    assert p[|p|..] == [];
  }

  lemma SeatOfAppend(seats: seq<Seat>, cs: seq<string>, name: string)
    requires ValidSeats(seats)
    requires forall k :: 0 <= k < |seats| ==> Point(seats, k) != cs + [name]
    ensures SeatOf(seats, cs + [name]) == SeatOf(seats, cs)
  {
    var k := SeatOf(seats, cs);
    var all := cs + [name];
    assert cs == all[..|cs|];
    forall j | 0 <= j < |seats| && Point(seats, j) <= all
      ensures Point(seats, j) <= cs
    {
      var p := Point(seats, j);
      assert p == all[..|p|] && p != all;
    }
    assert IsBest(seats, all, k);
    BestUnique(seats, all, k);
  }

  /** Appending a component is stepping down from the node. */
  lemma EnterIsAppend(sp: Space, cs: seq<string>, name: string)
    requires IsSpace(sp) && DirAt(sp, cs)
    ensures At(sp, cs + [name]) == Enter(sp, At(sp, cs).value, name)
  {
    var pl := At(sp, cs).value;
    forall k: nat
      ensures SeatedAt(sp, pl, name, k) <==> k < |sp.seats| && Point(sp.seats, k) == cs + [name]
    {
      SeatedIffPoint(sp, cs, pl, name, k);
    }
    if k: nat :| SeatedAt(sp, pl, name, k) {
      AtPoint(sp, k);
      EnterSeated(sp, pl, name, k, cs + [name]);
    } else {
      EnterEntry(sp, cs, name, pl);
    }
  }

  lemma EnterSeated(sp: Space, pl: Place, name: string, k: nat, p: seq<string>)
    requires ValidSeats(sp.seats) && SeatedAt(sp, pl, name, k)
    requires forall j: nat :: SeatedAt(sp, pl, name, j) ==> j < |sp.seats| && Point(sp.seats, j) == p
    ensures Enter(sp, pl, name) == Ok(Place(k, sp.seats[k].root))
  {
    forall j: nat | SeatedAt(sp, pl, name, j) ensures j == k { PointsDistinct(sp.seats, j, k); }
  }

  lemma EnterEntry(sp: Space, cs: seq<string>, name: string, pl: Place)
    requires ValidSeats(sp.seats) && At(sp, cs) == Ok(pl)
    requires !exists k: nat :: SeatedAt(sp, pl, name, k)
    requires forall k :: 0 <= k < |sp.seats| ==> Point(sp.seats, k) != cs + [name]
    ensures At(sp, cs + [name]) == Enter(sp, pl, name)
  {
    SeatOfAppend(sp.seats, cs, name);
    var p := Point(sp.seats, pl.seat);
    assert (cs + [name])[|p|..] == cs[|p|..] + [name];
    DescendSnoc(sp.objs, sp.seats[pl.seat].root, cs[|p|..], name);
  }

  lemma ChainFront(sp: Space, cs: seq<string>)
    requires ValidSeats(sp.seats) && DirChain(sp, cs)
    ensures DirAt(sp, cs)
    ensures cs != [] ==> DirAt(sp, Front(cs)) && DirChain(sp, Front(cs))
  {
    assert cs[..|cs|] == cs;
    if cs != [] {
      var front := Front(cs);
      assert forall i :: 0 <= i <= |front| ==> front[..i] == cs[..i];
      assert DirAt(sp, cs[..|cs| - 1]);
    }
  }

  lemma ChainSnoc(sp: Space, cs: seq<string>, name: string)
    requires ValidSeats(sp.seats) && DirChain(sp, cs) && DirAt(sp, cs + [name])
    ensures DirChain(sp, cs + [name])
  {
    var all := cs + [name];
    forall i | 0 <= i <= |all| ensures DirAt(sp, all[..i]) {
      if i <= |cs| { assert all[..i] == cs[..i]; } else { assert all[..i] == all; }
    }
  }

  /** Dropping the last component is stepping up from the node, mounts included. */
  lemma UpIsFront(sp: Space, cs: seq<string>)
    requires IsSpace(sp) && DirAt(sp, cs) && (cs != [] ==> DirAt(sp, Front(cs)))
    ensures At(sp, cs).value.seat < |sp.seats|
    ensures Up(sp, At(sp, cs).value) == if cs == [] then At(sp, cs).value else At(sp, Front(cs)).value
  {
    var pl := At(sp, cs).value;
    if Point(sp.seats, pl.seat) == cs {
      assert cs[|cs|..] == [];
    } else {
      FrontSameSeat(sp.seats, cs);
      UpInside(sp, cs, pl);
    }
  }

  lemma FrontSameSeat(seats: seq<Seat>, cs: seq<string>)
    requires ValidSeats(seats) && cs != [] && Point(seats, SeatOf(seats, cs)) != cs
    ensures SeatOf(seats, Front(cs)) == SeatOf(seats, cs)
    ensures |Point(seats, SeatOf(seats, cs))| < |cs|
  {
    var k, front := SeatOf(seats, cs), Front(cs);
    var p := Point(seats, k);
    assert p == cs[..|p|] && p == front[..|p|];
    forall j | 0 <= j < |seats| && Point(seats, j) <= front ensures Point(seats, j) <= cs {
      assert Point(seats, j) == front[..|Point(seats, j)|] == cs[..|Point(seats, j)|];
    }
    assert IsBest(seats, front, k);
    BestUnique(seats, front, k);
  }

  lemma UpInside(sp: Space, cs: seq<string>, pl: Place)
    requires IsSpace(sp) && cs != [] && At(sp, cs) == Ok(pl) && IsDir(sp.objs, pl.node)
    requires |Point(sp.seats, pl.seat)| < |cs| && SeatOf(sp.seats, Front(cs)) == pl.seat
    ensures Ok(Up(sp, pl)) == At(sp, Front(cs))
  {
    var p, root := Point(sp.seats, pl.seat), sp.seats[pl.seat].root;
    var rel := cs[|p|..];
    DescendParent(sp.objs, root, rel, pl.node);
    var depth :| Ranked(sp.objs, depth);
    DescendDeeper(sp.objs, depth, root, rel, pl.node);
    assert Front(cs)[|p|..] == rel[..|rel| - 1];
  }
}
