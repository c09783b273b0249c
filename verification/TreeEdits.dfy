/** The edits the host store makes to its tree (core/hostfs.h), and what they
    keep: every one leaves a tree a tree. */
module TreeEdits {
  import opened Errors
  import opened Paths
  import opened Trees

  function Entries(objs: Objects, d: NodeId): map<string, NodeId> {
    if IsDir(objs, d) then objs[d].entries else map[]
  }

  function AddEntry(objs: Objects, d: NodeId, name: string, n: NodeId): Objects
    requires IsDir(objs, d)
  {
    objs[d := objs[d].(entries := objs[d].entries[name := n])]
  }

  function DropEntry(objs: Objects, d: NodeId, name: string): Objects
    requires IsDir(objs, d)
  {
    objs[d := objs[d].(entries := objs[d].entries - {name})]
  }

  /** A new object under a new name. */
  function Create(objs: Objects, d: NodeId, name: string, n: NodeId, o: Object): Objects
    requires IsDir(objs, d) && n !in objs
  {
    AddEntry(objs[n := o], d, name, n)
  }

  /** Removing a name; a directory goes with it, a file keeps its other names. */
  function Remove(objs: Objects, d: NodeId, name: string): Objects
    requires IsDir(objs, d) && name in objs[d].entries
  {
    var n := objs[d].entries[name];
    var less := DropEntry(objs, d, name);
    if IsDir(objs, n) then less - {n} else less
  }

  predicate EmptyDir(objs: Objects, n: NodeId) {
    IsDir(objs, n) && objs[n].entries == map[]
  }

  /** Moving the entry `on` of `od` to the unused name `nn` of `nd`. */
  function Shift(objs: Objects, od: NodeId, on: string, nd: NodeId, nn: string): Objects
    requires IsDir(objs, od) && IsDir(objs, nd) && Lookup(objs, od, on).Ok?
  {
    var x := Lookup(objs, od, on).value;
    var added := AddEntry(DropEntry(objs, od, on), nd, nn, x);
    if IsDir(added, x) then added[x := added[x].(parent := nd)] else added
  }

  /** What the host store asks of a rename: a file goes over a file, a directory
      over an empty directory. It does not ask where the target lies. */
  predicate Movable(objs: Objects, od: NodeId, on: string, nd: NodeId, nn: string) {
    && IsDir(objs, od) && IsDir(objs, nd) && !(od == nd && on == nn)
    && Lookup(objs, od, on).Ok?
    && (nn in objs[nd].entries ==>
          var x, v := Lookup(objs, od, on).value, objs[nd].entries[nn];
          && IsDir(objs, x) == IsDir(objs, v)
          && (IsDir(objs, v) ==> EmptyDir(objs, v) && v != nd && v != x))
  }

  function Cleared(objs: Objects, nd: NodeId, nn: string): Objects
    requires IsDir(objs, nd)
  {
    if nn in objs[nd].entries then Remove(objs, nd, nn) else objs
  }

  /** A rename: whatever had the new name goes, then the entry moves. */
  function Move(objs: Objects, od: NodeId, on: string, nd: NodeId, nn: string): Objects
    requires Movable(objs, od, on, nd, nn)
  {
    Shift(Cleared(objs, nd, nn), od, on, nd, nn)
  }

  /** `n` is `x` or lies beneath it. */
  ghost predicate Beneath(objs: Objects, x: NodeId, n: NodeId) {
    exists rel :: Descend(objs, x, rel) == Ok(n)
  }

  // ---- creation and removal keep the tree ----

  lemma CreateEdge(objs: Objects, d: NodeId, name: string, n: NodeId, o: Object, m: NodeId, a: string)
    requires Linked(objs) && IsDir(objs, d) && n !in objs && IsName(name) && Lookup(objs, d, name).Err?
    requires o.Directory? ==> o == Directory(map[], d)
    ensures EdgeOk(Create(objs, d, name, n, o), m, a)
  {
    var out := Create(objs, d, name, n, o);
    assert NodeOk(objs, m) && NodeOk(objs, d) && EdgeOk(objs, m, a);
    forall b | Lookup(out, m, b) == Lookup(out, m, a) && Lookup(out, m, a).Ok? && IsDir(out, Lookup(out, m, a).value)
      ensures b == a
    {
      assert EdgeOk(objs, m, b);
      if !(m == d && a == name) { assert Lookup(objs, m, a) == Lookup(out, m, a); }
      if !(m == d && b == name) { assert Lookup(objs, m, b) == Lookup(out, m, b); }
    }
    if !(m == d && a == name) { assert Lookup(out, m, a).Ok? ==> Lookup(objs, m, a) == Lookup(out, m, a); }
  }

  lemma CreateNode(objs: Objects, d: NodeId, name: string, n: NodeId, o: Object, m: NodeId)
    requires Linked(objs) && IsDir(objs, d) && n !in objs && Lookup(objs, d, name).Err?
    requires o.Directory? ==> o == Directory(map[], d)
    ensures NodeOk(Create(objs, d, name, n, o), m)
  {
    var out := Create(objs, d, name, n, o);
    assert NodeOk(objs, m) && NodeOk(objs, d);
    if IsDir(out, m) && out[m].parent != m {
      if m == n {
        assert Lookup(out, d, name) == Ok(n);
      } else {
        var a :| Lookup(objs, objs[m].parent, a) == Ok(m);
        assert Lookup(out, out[m].parent, a) == Ok(m);
      }
    }
  }

  /** A new object under an unused name. */
  lemma CreateKeepsTree(objs: Objects, d: NodeId, name: string, n: NodeId, o: Object)
    requires IsTree(objs) && IsDir(objs, d) && n !in objs && IsName(name) && Lookup(objs, d, name).Err?
    requires o.Directory? ==> o == Directory(map[], d)
    ensures IsTree(Create(objs, d, name, n, o))
  {
    var out := Create(objs, d, name, n, o);
    forall m: NodeId, a: string ensures EdgeOk(out, m, a) { CreateEdge(objs, d, name, n, o, m, a); }
    forall m: NodeId ensures NodeOk(out, m) { CreateNode(objs, d, name, n, o, m); }
    var depth :| Ranked(objs, depth);
    assert Ranked(out, depth[n := depth[d] + 1]) by { hide EdgeOk, NodeOk; }
  }

  lemma LinkEdge(objs: Objects, d: NodeId, name: string, n: NodeId, m: NodeId, a: string)
    requires Linked(objs) && IsDir(objs, d) && n in objs && !IsDir(objs, n) && IsName(name)
    requires Lookup(objs, d, name).Err?
    ensures EdgeOk(AddEntry(objs, d, name, n), m, a)
  {
    var out := AddEntry(objs, d, name, n);
    assert EdgeOk(objs, m, a) && NodeOk(objs, d);
    forall b | Lookup(out, m, b) == Lookup(out, m, a) && Lookup(out, m, a).Ok? && IsDir(out, Lookup(out, m, a).value)
      ensures b == a
    {
      assert EdgeOk(objs, m, b);
      assert Lookup(objs, m, a) == Lookup(out, m, a) && Lookup(objs, m, b) == Lookup(out, m, b);
    }
    if !(m == d && a == name) { assert Lookup(objs, m, a) == Lookup(out, m, a); }
  }

  lemma LinkNode(objs: Objects, d: NodeId, name: string, n: NodeId, m: NodeId)
    requires Linked(objs) && IsDir(objs, d) && n in objs && Lookup(objs, d, name).Err?
    ensures NodeOk(AddEntry(objs, d, name, n), m)
  {
    var out := AddEntry(objs, d, name, n);
    assert NodeOk(objs, m) && NodeOk(objs, d);
    if IsDir(out, m) && out[m].parent != m {
      var a :| Lookup(objs, objs[m].parent, a) == Ok(m);
      assert Lookup(out, out[m].parent, a) == Ok(m);
    }
  }

  /** A further name for an object that is not a directory. */
  lemma LinkKeepsTree(objs: Objects, d: NodeId, name: string, n: NodeId)
    requires IsTree(objs) && IsDir(objs, d) && n in objs && !IsDir(objs, n) && IsName(name)
    requires Lookup(objs, d, name).Err?
    ensures IsTree(AddEntry(objs, d, name, n))
  {
    var out := AddEntry(objs, d, name, n);
    forall m: NodeId, a: string ensures EdgeOk(out, m, a) { LinkEdge(objs, d, name, n, m, a); }
    forall m: NodeId ensures NodeOk(out, m) { LinkNode(objs, d, name, n, m); }
    var depth :| Ranked(objs, depth);
    assert Ranked(out, depth) by { hide EdgeOk, NodeOk; }
  }

  lemma RemoveLookup(objs: Objects, d: NodeId, name: string, m: NodeId, a: string)
    requires Linked(objs) && IsDir(objs, d) && name in objs[d].entries
    requires var n := objs[d].entries[name]; IsDir(objs, n) ==> EmptyDir(objs, n)
    ensures var out := Remove(objs, d, name);
            && IsDir(out, d)
            && (Lookup(out, m, a).Ok? <==> Lookup(objs, m, a).Ok? && !(m == d && a == name))
            && (Lookup(out, m, a).Ok? ==> Lookup(out, m, a) == Lookup(objs, m, a))
  {
    assert NodeOk(objs, d) && NodeOk(objs, m);
    assert EdgeOk(objs, d, name) && EdgeOk(objs, m, a);
    var n := objs[d].entries[name];
    assert Lookup(objs, d, name) == Ok(n);
  }

  lemma RemoveEdge(objs: Objects, d: NodeId, name: string, m: NodeId, a: string)
    requires Linked(objs) && IsDir(objs, d) && name in objs[d].entries
    requires var n := objs[d].entries[name]; IsDir(objs, n) ==> EmptyDir(objs, n)
    ensures EdgeOk(Remove(objs, d, name), m, a)
  {
    var out := Remove(objs, d, name);
    assert EdgeOk(objs, m, a);
    RemoveLookup(objs, d, name, m, a);
    forall b | Lookup(out, m, b) == Lookup(out, m, a) && Lookup(out, m, a).Ok? && IsDir(out, Lookup(out, m, a).value)
      ensures b == a
    {
      RemoveLookup(objs, d, name, m, b);
    }
  }

  lemma RemoveNode(objs: Objects, d: NodeId, name: string, m: NodeId)
    requires Linked(objs) && IsDir(objs, d) && name in objs[d].entries
    requires var n := objs[d].entries[name]; IsDir(objs, n) ==> EmptyDir(objs, n)
    ensures NodeOk(Remove(objs, d, name), m)
    ensures IsDir(Remove(objs, d, name), m) ==> IsDir(objs, m) && objs[m].parent != objs[d].entries[name]
  {
    var out := Remove(objs, d, name);
    var n := objs[d].entries[name];
    assert NodeOk(objs, m) && NodeOk(objs, d) && EdgeOk(objs, d, name);
    assert Lookup(objs, d, name) == Ok(n);
    if IsDir(out, m) {
      if objs[m].parent != m {
        var a :| Lookup(objs, objs[m].parent, a) == Ok(m);
        RemoveLookup(objs, d, name, objs[m].parent, a);
        assert Lookup(out, out[m].parent, a) == Ok(m);
      }
      forall a | a in out[m].entries ensures out[m].entries[a] in out {
        assert EdgeOk(objs, m, a) && Lookup(objs, m, a) == Ok(out[m].entries[a]);
      }
    }
  }

  /** Nothing lists, or is listed by, a directory that has lost its name. */
  lemma RemoveKeepsTree(objs: Objects, d: NodeId, name: string)
    requires IsTree(objs) && IsDir(objs, d) && name in objs[d].entries
    requires var n := objs[d].entries[name]; IsDir(objs, n) ==> EmptyDir(objs, n)
    ensures IsTree(Remove(objs, d, name))
  {
    var out := Remove(objs, d, name);
    forall m: NodeId, a: string ensures EdgeOk(out, m, a) { RemoveEdge(objs, d, name, m, a); }
    var depth :| Ranked(objs, depth);
    forall m: NodeId
      ensures NodeOk(out, m)
      ensures IsDir(out, m) ==> IsDir(objs, m) && objs[m].parent != objs[d].entries[name]
    {
      RemoveNode(objs, d, name, m);
    }
    assert Ranked(out, depth) by { hide EdgeOk, NodeOk; }
  }

  // ---- renaming ----

  lemma ClearedStillHas(objs: Objects, od: NodeId, on: string, nd: NodeId, nn: string)
    requires IsTree(objs) && Movable(objs, od, on, nd, nn)
    ensures var less := Cleared(objs, nd, nn);
            && IsTree(less) && IsDir(less, od) && IsDir(less, nd)
            && Lookup(less, od, on) == Lookup(objs, od, on) && nn !in less[nd].entries
            && (forall m: NodeId, a: string {:trigger Lookup(less, m, a)} :: Lookup(less, m, a).Ok? <==>
                  Lookup(objs, m, a).Ok? && !(m == nd && a == nn))
            && (forall m: NodeId, a: string {:trigger Lookup(less, m, a)} :: Lookup(less, m, a).Ok? ==>
                  Lookup(less, m, a) == Lookup(objs, m, a))
            && (forall m: NodeId {:trigger IsDir(less, m)} :: IsDir(less, m) ==> IsDir(objs, m) && less[m].parent == objs[m].parent)
  {
    hide IsTree;
    if nn in objs[nd].entries {
      var less := Remove(objs, nd, nn);
      RemoveKeepsTree(objs, nd, nn);
      assert Linked(objs) by { LinkedOf(objs); }
      hide EdgeOk, NodeOk;
      forall m: NodeId, a: string
        ensures Lookup(less, m, a).Ok? <==> Lookup(objs, m, a).Ok? && !(m == nd && a == nn)
        ensures Lookup(less, m, a).Ok? ==> Lookup(less, m, a) == Lookup(objs, m, a)
      {
        RemoveLookup(objs, nd, nn, m, a);
      }
    } else {
      forall a | a in objs[nd].entries ensures a != nn {}
    }
  }

  lemma LinkedOf(objs: Objects)
    requires IsTree(objs)
    ensures Linked(objs)
  {
  }

  lemma ShiftLookup(objs: Objects, od: NodeId, on: string, nd: NodeId, nn: string, m: NodeId, a: string)
    requires Linked(objs) && IsDir(objs, od) && IsDir(objs, nd) && Lookup(objs, od, on).Ok?
    requires nn !in objs[nd].entries
    ensures var out := Shift(objs, od, on, nd, nn);
            && IsDir(out, m) == IsDir(objs, m)
            && (m == nd && a == nn ==> Lookup(out, m, a) == Lookup(objs, od, on))
            && (m == od && a == on ==> Lookup(out, m, a) == Err(ENOENT))
            && (!(m == nd && a == nn) && !(m == od && a == on) ==> Lookup(out, m, a) == Lookup(objs, m, a))
            && (IsDir(out, m) ==> out[m].parent == if Lookup(objs, od, on) == Ok(m) then nd else objs[m].parent)
  {
    assert NodeOk(objs, od) && NodeOk(objs, m);
  }

  lemma ShiftEdge(objs: Objects, od: NodeId, on: string, nd: NodeId, nn: string, m: NodeId, a: string)
    requires Linked(objs) && IsDir(objs, od) && IsDir(objs, nd) && Lookup(objs, od, on).Ok?
    requires nn !in objs[nd].entries && IsName(nn) && Lookup(objs, od, on) != Ok(nd)
    ensures EdgeOk(Shift(objs, od, on, nd, nn), m, a)
  {
    var out, x := Shift(objs, od, on, nd, nn), Lookup(objs, od, on).value;
    hide Shift;
    ShiftLookup(objs, od, on, nd, nn, m, a);
    assert EdgeOk(objs, m, a) && EdgeOk(objs, od, on);
    if Lookup(out, m, a).Ok? && IsDir(out, Lookup(out, m, a).value) {
      var c := Lookup(out, m, a).value;
      ShiftLookup(objs, od, on, nd, nn, c, a);
      forall b | Lookup(out, m, b) == Ok(c) ensures b == a {
        ShiftLookup(objs, od, on, nd, nn, m, b);
        assert EdgeOk(objs, m, b);
      }
    }
  }

  lemma ShiftNode(objs: Objects, od: NodeId, on: string, nd: NodeId, nn: string, m: NodeId)
    requires Linked(objs) && IsDir(objs, od) && IsDir(objs, nd) && Lookup(objs, od, on).Ok?
    requires nn !in objs[nd].entries
    ensures NodeOk(Shift(objs, od, on, nd, nn), m)
  {
    var out, x := Shift(objs, od, on, nd, nn), Lookup(objs, od, on).value;
    assert NodeOk(objs, m) && NodeOk(objs, od) && NodeOk(objs, nd);
    if IsDir(out, m) && out[m].parent != m {
      ShiftLookup(objs, od, on, nd, nn, m, on);
      if m == x {
        ShiftLookup(objs, od, on, nd, nn, nd, nn);
        assert Lookup(out, out[m].parent, nn) == Ok(m);
      } else {
        var a :| Lookup(objs, objs[m].parent, a) == Ok(m);
        ShiftLookup(objs, od, on, nd, nn, objs[m].parent, a);
        assert Lookup(out, out[m].parent, a) == Ok(m);
      }
    }
  }

  lemma BeneathChild(objs: Objects, x: NodeId, p: NodeId, a: string, c: NodeId)
    requires Beneath(objs, x, p) && Lookup(objs, p, a) == Ok(c)
    ensures Beneath(objs, x, c)
  {
    var rel :| Descend(objs, x, rel) == Ok(p);
    DescendSnoc(objs, x, rel, a);
    assert Descend(objs, x, rel + [a]) == Ok(c);
  }

  lemma BeneathParent(objs: Objects, x: NodeId, d: NodeId)
    requires Linked(objs) && IsDir(objs, d) && d != x && Beneath(objs, x, d)
    ensures Beneath(objs, x, objs[d].parent)
  {
    var rel :| Descend(objs, x, rel) == Ok(d);
    DescendParent(objs, x, rel, d);
    assert Descend(objs, x, rel[..|rel| - 1]) == Ok(objs[d].parent);
  }

  /** Lift everything beneath `x` below `nd`. */
  ghost function Lifted(objs: Objects, depth: map<NodeId, nat>, x: NodeId, nd: NodeId): map<NodeId, nat>
    requires nd in depth
  {
    map d | d in depth :: if Beneath(objs, x, d) then depth[d] + depth[nd] + 1 else depth[d]
  }

  lemma ShiftRanked(objs: Objects, depth: map<NodeId, nat>, od: NodeId, on: string, nd: NodeId, nn: string)
    requires Linked(objs) && Ranked(objs, depth) && IsDir(objs, od) && IsDir(objs, nd) && Lookup(objs, od, on).Ok?
    requires nn !in objs[nd].entries
    requires var x := Lookup(objs, od, on).value; IsDir(objs, x) ==> !Beneath(objs, x, nd)
    ensures exists d :: Ranked(Shift(objs, od, on, nd, nn), d)
  {
    var out, x := Shift(objs, od, on, nd, nn), Lookup(objs, od, on).value;
    var depth' := if IsDir(objs, x) then Lifted(objs, depth, x, nd) else depth;
    assert Descend(objs, x, []) == Ok(x);
    forall d: NodeId | IsDir(out, d)
      ensures d in depth' && IsDir(out, out[d].parent) && out[d].parent in depth'
      ensures out[d].parent != d ==> depth'[out[d].parent] < depth'[d]
    {
      ShiftLookup(objs, od, on, nd, nn, d, on);
      var p := out[d].parent;
      ShiftLookup(objs, od, on, nd, nn, p, on);
      assert EdgeOk(objs, od, on);
      if d != x && p != d {
        assert NodeOk(objs, d);
        var a :| Lookup(objs, p, a) == Ok(d);
        if Beneath(objs, x, d) {
          BeneathParent(objs, x, d);
        } else if Beneath(objs, x, p) {
          BeneathChild(objs, x, p, a, d);
        }
      }
    }
    assert Ranked(out, depth') by { hide EdgeOk, NodeOk, Shift; }
  }

  /** An accepted rename leaves a tree: the source is not above its new parent. */
  lemma MoveKeepsTree(objs: Objects, od: NodeId, on: string, nd: NodeId, nn: string)
    requires IsTree(objs) && Movable(objs, od, on, nd, nn) && IsName(nn)
    requires var x := Lookup(objs, od, on).value; IsDir(objs, x) ==> !Beneath(objs, x, nd)
    ensures IsTree(Move(objs, od, on, nd, nn))
  {
    ClearedStillHas(objs, od, on, nd, nn);
    var less, x := Cleared(objs, nd, nn), Lookup(objs, od, on).value;
    var out := Shift(less, od, on, nd, nn);
    if IsDir(less, x) && Beneath(less, x, nd) {
      var rel :| Descend(less, x, rel) == Ok(nd);
      DescendMore(less, objs, x, rel);
    }
    assert Descend(objs, x, []) == Ok(x);
    forall m: NodeId, a: string ensures EdgeOk(out, m, a) { ShiftEdge(less, od, on, nd, nn, m, a); }
    forall m: NodeId ensures NodeOk(out, m) { ShiftNode(less, od, on, nd, nn, m); }
    var depth :| Ranked(less, depth);
    ShiftRanked(less, depth, od, on, nd, nn);
  }

  /** What is found in part of a tree is found in the whole. */
  lemma {:induction false} DescendMore(less: Objects, objs: Objects, n: NodeId, cs: seq<string>)
    requires forall m: NodeId, a: string {:trigger Lookup(less, m, a)} :: Lookup(less, m, a).Ok? ==>
               Lookup(less, m, a) == Lookup(objs, m, a)
    ensures Descend(less, n, cs).Ok? ==> Descend(objs, n, cs) == Descend(less, n, cs)
    decreases |cs|
  {
    if cs != [] && Lookup(less, n, cs[0]).Ok? {
      DescendMore(less, objs, Lookup(less, n, cs[0]).value, cs[1..]);
    }
  }

  lemma MoveLookup(objs: Objects, od: NodeId, on: string, nd: NodeId, nn: string, m: NodeId, a: string)
    requires IsTree(objs) && Movable(objs, od, on, nd, nn)
    ensures var out := Move(objs, od, on, nd, nn);
            && (m == nd && a == nn ==> Lookup(out, m, a) == Lookup(objs, od, on))
            && (m == od && a == on ==> Lookup(out, m, a).Err?)
            && (!(m == nd && a == nn) && !(m == od && a == on) ==>
                  && (Lookup(out, m, a).Ok? <==> Lookup(objs, m, a).Ok?)
                  && (Lookup(out, m, a).Ok? ==> Lookup(out, m, a) == Lookup(objs, m, a)))
            && (IsDir(out, m) ==> IsDir(objs, m) && out[m].parent == if Lookup(objs, od, on) == Ok(m) then nd else objs[m].parent)
  {
    hide Shift;
    ClearedStillHas(objs, od, on, nd, nn);
    ShiftLookup(Cleared(objs, nd, nn), od, on, nd, nn, m, a);
  }

  /** Down from `x` the new ranks only grow. */
  lemma {:induction false} RanksGrow(objs: Objects, out: Objects, depth: map<NodeId, nat>, x: NodeId, nd: NodeId, rel: seq<string>, m: NodeId)
    requires Linked(objs) && Ranked(out, depth) && IsDir(out, x)
    requires Descend(objs, x, rel) == Ok(m) && IsDir(objs, m)
    requires forall d: NodeId :: IsDir(objs, d) && d != x && (d == nd || objs[d].entries != map[]) ==>
               IsDir(out, d) && out[d].parent == objs[d].parent
    requires m == nd || objs[m].entries != map[]
    ensures m in depth && depth[x] <= depth[m]
    decreases |rel|
  {
    if m != x {
      DescendParent(objs, x, rel, m);
      var p := objs[m].parent;
      RanksGrow(objs, out, depth, x, nd, rel[..|rel| - 1], p);
      assert out[m].parent == p;
    }
  }

  /** Moving a directory beneath itself never leaves a tree. */
  lemma MoveBeneathBreaks(objs: Objects, od: NodeId, on: string, nd: NodeId, nn: string)
    requires IsTree(objs) && Movable(objs, od, on, nd, nn)
    requires var x := Lookup(objs, od, on).value; IsDir(objs, x) && Beneath(objs, x, nd)
    ensures !IsTree(Move(objs, od, on, nd, nn))
  {
    var out, x := Move(objs, od, on, nd, nn), Lookup(objs, od, on).value;
    if IsTree(out) {
      MoveLookup(objs, od, on, nd, nn, nd, nn);
      assert EdgeOk(out, nd, nn);
      var rel :| Descend(objs, x, rel) == Ok(nd);
      var depth :| Ranked(out, depth);
      forall d: NodeId | IsDir(objs, d) && d != x && (d == nd || objs[d].entries != map[])
        ensures IsDir(out, d) && out[d].parent == objs[d].parent
      {
        MoveLookup(objs, od, on, nd, nn, d, nn);
        MoveKeepsDirs(objs, od, on, nd, nn, d);
      }
      MoveKeepsDirs(objs, od, on, nd, nn, x);
      MoveLookup(objs, od, on, nd, nn, x, nn);
      RanksGrow(objs, out, depth, x, nd, rel, nd);
    }
  }

  lemma MoveKeepsDirs(objs: Objects, od: NodeId, on: string, nd: NodeId, nn: string, d: NodeId)
    requires Movable(objs, od, on, nd, nn) && IsDir(objs, d)
    requires d == nd || objs[d].entries != map[] || Lookup(objs, od, on) == Ok(d)
    ensures IsDir(Move(objs, od, on, nd, nn), d)
  {
  }

  /** A rename keeps the tree exactly when it does not move a directory beneath itself. */
  lemma MoveTreeExactly(objs: Objects, od: NodeId, on: string, nd: NodeId, nn: string)
    requires IsTree(objs) && Movable(objs, od, on, nd, nn) && IsName(nn)
    ensures IsTree(Move(objs, od, on, nd, nn)) <==>
            !(IsDir(objs, Lookup(objs, od, on).value) && Beneath(objs, Lookup(objs, od, on).value, nd))
  {
    var x := Lookup(objs, od, on).value;
    if IsDir(objs, x) && Beneath(objs, x, nd) {
      MoveBeneathBreaks(objs, od, on, nd, nn);
    } else {
      MoveKeepsTree(objs, od, on, nd, nn);
    }
  }

  /** Nothing beneath `x` is the directory `x` moves from or to. */
  lemma SubtreeLookup(objs: Objects, od: NodeId, on: string, nd: NodeId, nn: string, rel: seq<string>, m: NodeId, a: string)
    requires IsTree(objs) && Movable(objs, od, on, nd, nn)
    requires var x := Lookup(objs, od, on).value;
             Descend(objs, x, rel) == Ok(m) && (IsDir(objs, x) ==> !Beneath(objs, x, nd))
    ensures var out := Move(objs, od, on, nd, nn);
            && (Lookup(out, m, a).Ok? <==> Lookup(objs, m, a).Ok?)
            && (Lookup(out, m, a).Ok? ==> Lookup(out, m, a) == Lookup(objs, m, a))
  {
    var x := Lookup(objs, od, on).value;
    MoveLookup(objs, od, on, nd, nn, m, a);
    if IsDir(objs, x) {
      assert m != nd;
      if m == od {
        var depth :| Ranked(objs, depth);
        DescendDeeper(objs, depth, x, rel, od);
        assert EdgeOk(objs, od, on);
      }
    } else if rel == [] {
      MoveLookup(objs, od, on, nd, nn, x, a);
    }
  }

  lemma {:induction false} SubtreeDescends(objs: Objects, od: NodeId, on: string, nd: NodeId, nn: string,
                                           done: seq<string>, m: NodeId, rel: seq<string>, n: NodeId)
    requires IsTree(objs) && Movable(objs, od, on, nd, nn)
    requires var x := Lookup(objs, od, on).value;
             Descend(objs, x, done) == Ok(m) && (IsDir(objs, x) ==> !Beneath(objs, x, nd))
    ensures Descend(Move(objs, od, on, nd, nn), m, rel) == Ok(n) <==> Descend(objs, m, rel) == Ok(n)
    decreases |rel|
  {
    var x := Lookup(objs, od, on).value;
    hide Move, IsTree, Movable, Beneath;
    if rel != [] {
      SubtreeLookup(objs, od, on, nd, nn, done, m, rel[0]);
      var c := Lookup(objs, m, rel[0]);
      if c.Ok? {
        DescendSnoc(objs, x, done, rel[0]);
        SubtreeDescends(objs, od, on, nd, nn, done + [rel[0]], c.value, rel[1..], n);
      }
    }
  }

  /** After a rename the new name leads to all that the old name led to. */
  lemma MoveCarriesSubtree(objs: Objects, od: NodeId, on: string, nd: NodeId, nn: string, rel: seq<string>, n: NodeId)
    requires IsTree(objs) && Movable(objs, od, on, nd, nn)
    requires var x := Lookup(objs, od, on).value; IsDir(objs, x) ==> !Beneath(objs, x, nd)
    ensures Descend(Move(objs, od, on, nd, nn), nd, [nn] + rel) == Ok(n) <==> Descend(objs, od, [on] + rel) == Ok(n)
  {
    hide Move, IsTree, Beneath;
    var x := Lookup(objs, od, on).value;
    MoveLookup(objs, od, on, nd, nn, nd, nn);
    SubtreeDescends(objs, od, on, nd, nn, [], x, rel, n);
    assert ([nn] + rel)[1..] == rel && ([on] + rel)[1..] == rel;
  }

  /** The descent goes through the entry `a` of `d`. */
  ghost predicate Uses(objs: Objects, n: NodeId, cs: seq<string>, d: NodeId, a: string)
    decreases |cs|
  {
    cs != [] && ((n == d && cs[0] == a) ||
                 (Lookup(objs, n, cs[0]).Ok? && Uses(objs, Lookup(objs, n, cs[0]).value, cs[1..], d, a)))
  }

  /** A rename alters nothing but the two names: any other path still leads where it did,
      and the old name leads nowhere. */
  lemma {:induction false} MoveLeavesRest(objs: Objects, od: NodeId, on: string, nd: NodeId, nn: string,
                                          r: NodeId, cs: seq<string>, n: NodeId)
    requires IsTree(objs) && Movable(objs, od, on, nd, nn)
    requires !Uses(objs, r, cs, od, on) && !Uses(objs, r, cs, nd, nn)
    ensures Descend(Move(objs, od, on, nd, nn), r, cs) == Ok(n) <==> Descend(objs, r, cs) == Ok(n)
    ensures Lookup(Move(objs, od, on, nd, nn), od, on).Err?
    decreases |cs|
  {
    hide Move, IsTree, Movable;
    MoveLookup(objs, od, on, nd, nn, od, on);
    if cs != [] {
      MoveLookup(objs, od, on, nd, nn, r, cs[0]);
      var c := Lookup(objs, r, cs[0]);
      if c.Ok? { MoveLeavesRest(objs, od, on, nd, nn, c.value, cs[1..], n); }
    }
  }

  // ---- edits as values ----

  /** What an operation did to the host tree. */
  datatype Edit =
    | NoEdit
    | Make(d: NodeId, name: string, n: NodeId, o: Object)
    | Unmake(d: NodeId, name: string)
    | Tie(d: NodeId, name: string, n: NodeId)
    | Relocate(od: NodeId, on: string, nd: NodeId, nn: string)

  /** The host store accepts the edit. */
  ghost predicate Accepts(objs: Objects, e: Edit) {
    match e
    case NoEdit => true
    case Make(d, name, n, o) =>
      IsDir(objs, d) && n !in objs && IsName(name) && Lookup(objs, d, name).Err? && (o.Directory? ==> o == Directory(map[], d))
    case Unmake(d, name) =>
      IsDir(objs, d) && name in objs[d].entries && (IsDir(objs, objs[d].entries[name]) ==> EmptyDir(objs, objs[d].entries[name]))
    case Tie(d, name, n) =>
      IsDir(objs, d) && n in objs && !IsDir(objs, n) && IsName(name) && Lookup(objs, d, name).Err?
    case Relocate(od, on, nd, nn) =>
      Movable(objs, od, on, nd, nn) && IsName(nn)
  }

  ghost function Apply(objs: Objects, e: Edit): Objects
    requires Accepts(objs, e)
  {
    match e
    case NoEdit => objs
    case Make(d, name, n, o) => Create(objs, d, name, n, o)
    case Unmake(d, name) => Remove(objs, d, name)
    case Tie(d, name, n) => AddEntry(objs, d, name, n)
    case Relocate(od, on, nd, nn) => Move(objs, od, on, nd, nn)
  }

  /** The one edit a host store would accept that a tree does not survive. */
  ghost predicate IntoItself(objs: Objects, e: Edit)
    requires Accepts(objs, e)
  {
    e.Relocate? && var x := Lookup(objs, e.od, e.on).value; IsDir(objs, x) && Beneath(objs, x, e.nd)
  }

  lemma EditKeepsTree(objs: Objects, e: Edit)
    requires IsTree(objs) && Accepts(objs, e)
    ensures IsTree(Apply(objs, e)) <==> !IntoItself(objs, e)
  {
    match e
    case NoEdit =>
    case Make(d, name, n, o) => CreateKeepsTree(objs, d, name, n, o);
    case Unmake(d, name) => RemoveKeepsTree(objs, d, name);
    case Tie(d, name, n) => LinkKeepsTree(objs, d, name, n);
    case Relocate(od, on, nd, nn) => MoveTreeExactly(objs, od, on, nd, nn);
  }

  /** A new object is found under its name, and everything else where it was. */
  lemma MakeLooks(objs: Objects, d: NodeId, name: string, n: NodeId, o: Object, m: NodeId, a: string)
    requires Linked(objs) && Accepts(objs, Make(d, name, n, o))
    ensures var out := Apply(objs, Make(d, name, n, o));
            && out.Keys == objs.Keys + {n} && out[n] == o
            && (m != n ==> Lookup(out, m, a) == if m == d && a == name then Ok(n) else Lookup(objs, m, a))
            && (m in objs && m != d ==> out[m] == objs[m])
  {
    assert NodeOk(objs, m) && NodeOk(objs, d);
  }

  /** A further name leads to the same object, and everything else is where it was. */
  lemma TieLooks(objs: Objects, d: NodeId, name: string, n: NodeId, m: NodeId, a: string)
    requires Linked(objs) && Accepts(objs, Tie(d, name, n))
    ensures var out := Apply(objs, Tie(d, name, n));
            && out.Keys == objs.Keys && (m in objs && m != d ==> out[m] == objs[m])
            && Lookup(out, m, a) == if m == d && a == name then Ok(n) else Lookup(objs, m, a)
  {
    assert NodeOk(objs, m) && NodeOk(objs, d);
  }

  /** A removed name leads nowhere; of the objects only a directory goes with it. */
  lemma UnmakeLooks(objs: Objects, d: NodeId, name: string, m: NodeId, a: string)
    requires Linked(objs) && Accepts(objs, Unmake(d, name))
    ensures var out, n := Apply(objs, Unmake(d, name)), objs[d].entries[name];
            && out.Keys == objs.Keys - (if IsDir(objs, n) then {n} else {}) && (m in out && m != d ==> out[m] == objs[m])
            && (Lookup(out, m, a).Ok? <==> Lookup(objs, m, a).Ok? && !(m == d && a == name))
            && (Lookup(out, m, a).Ok? ==> Lookup(out, m, a) == Lookup(objs, m, a))
  {
    RemoveLookup(objs, d, name, m, a);
    assert EdgeOk(objs, d, name);
  }
}
