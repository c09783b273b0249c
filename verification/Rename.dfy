/** The lexical test by which vfs_rename refuses to move a directory into
    itself (core/vfs.c:922-926), against the tree it protects. */
module Renames {
  import opened Errors
  import opened Paths
  import opened Trees
  import opened TreeEdits
  import opened Spaces

  /** `strncmp(ncand, ocand, ol) == 0 && ncand[ol] == '/'` */
  predicate Inside(ocand: string, ncand: string) {
    ocand <= ncand && |ocand| < |ncand| && ncand[|ocand|] == '/'
  }

  /** On canonical text the test is the proper component-wise prefix. */
  lemma InsideIsPrefix(ocand: string, ncand: string)
    requires Canonical(ocand) && Canonical(ncand) && Components(ocand) != []
    ensures Inside(ocand, ncand) <==> Components(ocand) <= Components(ncand) && Components(ocand) != Components(ncand)
  {
    CanonicalIsAbsolute(ocand);
    HitIsPrefix(ocand, ncand);
  }

  lemma SameSeatBelow(sp: Space, cs: seq<string>, more: seq<string>, k: nat, x: NodeId, n: NodeId)
    requires ValidSeats(sp.seats) && At(sp, cs) == Ok(Place(k, x)) && At(sp, cs + more) == Ok(Place(k, n))
    ensures Descend(sp.objs, x, more) == Ok(n)
  {
    var p := |Point(sp.seats, k)|;
    assert (cs + more)[p..] == cs[p..] + more;
    DescendConcat(sp.objs, sp.seats[k].root, cs[p..], more);
  }

  /** Among directories of one mount, lexical prefixes are ancestors. */
  lemma PrefixIffBeneath(sp: Space, ocs: seq<string>, ncs: seq<string>, k: nat, x: NodeId, nd: NodeId)
    requires IsSpace(sp) && At(sp, ocs) == Ok(Place(k, x)) && At(sp, ncs) == Ok(Place(k, nd))
    requires IsDir(sp.objs, x) && IsDir(sp.objs, nd)
    ensures ocs <= ncs <==> Beneath(sp.objs, x, nd)
  {
    if ocs <= ncs {
      var rel := ncs[|ocs|..];
      assert ncs == ocs + rel;
      SameSeatBelow(sp, ocs, rel, k, x, nd);
    }
    if Beneath(sp.objs, x, nd) {
      var rel :| Descend(sp.objs, x, rel) == Ok(nd);
      var p, root := |Point(sp.seats, k)|, sp.seats[k].root;
      DescendConcat(sp.objs, root, ocs[p..], rel);
      DescendUnique(sp.objs, root, ocs[p..] + rel, ncs[p..], nd);
      RejoinPrefix(Point(sp.seats, k), ocs, ncs, rel);
    }
  }

  lemma RejoinPrefix(point: seq<string>, ocs: seq<string>, ncs: seq<string>, rel: seq<string>)
    requires point <= ocs && point <= ncs && ocs[|point|..] + rel == ncs[|point|..]
    ensures ocs <= ncs
  {
    assert ocs == point + ocs[|point|..] && ncs == point + ncs[|point|..];
    assert ncs == ocs + rel;
  }

  /** The test on canonical paths refuses exactly the moves of a directory to a
      place at or beneath itself, on one mount. */
  lemma PrefixTestExact(sp: Space, ocand: string, nabs: string, last: string, k: nat, x: NodeId, nd: NodeId)
    requires IsSpace(sp) && Canonical(ocand) && Canonical(nabs) && IsName(last)
    requires Components(ocand) != [] && ocand != Join(nabs, last)
    requires At(sp, Components(ocand)) == Ok(Place(k, x)) && At(sp, Components(nabs)) == Ok(Place(k, nd))
    requires IsDir(sp.objs, x) && IsDir(sp.objs, nd)
    ensures Inside(ocand, Join(nabs, last)) <==> Beneath(sp.objs, x, nd)
  {
    hide IsSpace, At, Beneath, Inside, Join;
    var ocs, ncs := Components(ocand), Components(nabs);
    JoinAppends(nabs, last);
    InsideIsPrefix(ocand, Join(nabs, last));
    PrefixOfSnoc(ocs, ncs, last);
    PrefixIffBeneath(sp, ocs, ncs, k, x, nd);
  }

  lemma PrefixOfSnoc(a: seq<string>, b: seq<string>, last: string)
    ensures a <= b + [last] && a != b + [last] <==> a <= b
  {
    if a <= b { assert a == (b + [last])[..|a|]; }
    if a <= b + [last] && |a| <= |b| { assert a == b[..|a|]; }
  }

  /** A name under a directory, where nothing is seated, is a lookup in it. */
  lemma ChildLookup(sp: Space, cs: seq<string>, name: string)
    requires ValidSeats(sp.seats) && forall k :: 0 <= k < |sp.seats| ==> Point(sp.seats, k) != cs + [name]
    ensures SeatOf(sp.seats, cs + [name]) == SeatOf(sp.seats, cs)
    ensures At(sp, cs).Ok? ==>
              var pl := At(sp, cs).value;
              var l := Lookup(sp.objs, pl.node, name);
              && (l.Ok? <==> At(sp, cs + [name]).Ok?)
              && (l.Ok? ==> At(sp, cs + [name]) == Ok(Place(pl.seat, l.value)))
              && (l.Err? ==> At(sp, cs + [name]) == Err(l.errno))
  {
    SeatOfAppend(sp.seats, cs, name);
    var k := SeatOf(sp.seats, cs);
    var p := |Point(sp.seats, k)|;
    assert (cs + [name])[p..] == cs[p..] + [name];
    DescendSnoc(sp.objs, sp.seats[k].root, cs[p..], name);
  }

  /** What vfs_rename lets through never moves a directory beneath itself. */
  lemma RenameSafe(sp: Space, oabs: string, on: string, nabs: string, nn: string, od: Place, nd: Place)
    requires IsSpace(sp) && Canonical(oabs) && Canonical(nabs) && IsName(on) && IsName(nn)
    requires At(sp, Components(oabs)) == Ok(od) && At(sp, Components(nabs)) == Ok(nd) && od.seat == nd.seat
    requires forall k :: 0 <= k < |sp.seats| ==> Point(sp.seats, k) != Components(oabs) + [on]
    requires Join(oabs, on) != Join(nabs, nn) && IsDir(sp.objs, nd.node)
    requires Lookup(sp.objs, od.node, on).Ok?
    requires var x := Lookup(sp.objs, od.node, on).value; IsDir(sp.objs, x) ==> !Inside(Join(oabs, on), Join(nabs, nn))
    ensures var x := Lookup(sp.objs, od.node, on).value; IsDir(sp.objs, x) ==> !Beneath(sp.objs, x, nd.node)
  {
    var x := Lookup(sp.objs, od.node, on).value;
    JoinAppends(oabs, on);
    ChildLookup(sp, Components(oabs), on);
    hide IsSpace, At, Beneath, Inside, Join, Components;
    if IsDir(sp.objs, x) {
      PrefixTestExact(sp, Join(oabs, on), nabs, nn, nd.seat, x, nd.node);
    }
  }
}
