/** `elf_load` as it runs: segments realised one by one through the substrate
    (core/binfmt_elf.c:78-192). */
module ElfLoader {
  import opened Basics
  import opened Bytes
  import opened Vmas
  import opened Elf

  datatype LoadInfo = LoadInfo(entry: nat, phent: nat, phnum: nat, base: nat, end: nat, phdrVa: nat)

  /** The PT_LOAD headers among the first `n`, in order. */
  function Loads(image: seq<Byte>, h: Header, n: nat): seq<Segment>
    requires TableFits(image, h) && n <= h.phnum
  {
    if n == 0 then []
    else Loads(image, h, n - 1) + match LoadAt(image, h, n - 1) case None => [] case Some(g) => [g]
  }

  function VmaOf(g: Segment): Vma {
    Vma(Start(g), End(g), ProtOf(g.flags), if g.filesz > 0 then (g.offset - (g.va - Start(g))) % WORD else 0, g.filesz > 0)
  }

  /** A segment's range is its pages, with its protection, and for every address of it the place in
      the file its byte came from. */
  lemma VmaTells(g: Segment)
    requires g.va + g.memsz + PAGE <= WORD && g.filesz <= g.memsz
    ensures var v := VmaOf(g);
            && v.start % 4096 == 0 && v.end % 4096 == 0 && v.start <= g.va < v.start + 4096
            && g.va + g.memsz <= v.end < g.va + g.memsz + 4096
            && v.prot == ProtOf(g.flags) && (v.fileBacked <==> g.filesz > 0)
            && (g.filesz > 0 ==> (v.offset + (g.va - v.start)) % WORD == g.offset % WORD)
  {
    var v := VmaOf(g);
    var back := g.va - v.start;
    if g.filesz > 0 { SumBack(g.offset - back, back); }
  }

  lemma SumBack(x: int, y: int)
    ensures (x % WORD + y) % WORD == (x + y) % WORD
  {
    var q := x / WORD;
    var s := x % WORD + y;
    assert x + y == WORD * (q + s / WORD) + s % WORD;
    ModUnique(x + y, WORD, q + s / WORD, s % WORD);
  }

  // ---- what the substrate's calls do to memory ----

  /** Fresh pages read zero; pages that were there keep their bytes. */
  function WithPages(m: Memory, lo: nat, hi: nat, prot: Prot): Memory {
    m + map a: nat | lo <= a < hi && Within(a, lo, hi) :: Cell(if a in m then m[a].byte else 0, prot)
  }

  function WithProt(m: Memory, lo: nat, hi: nat, prot: Prot): Memory {
    m + map a: nat | a in m && Within(a, lo, hi) :: Cell(m[a].byte, prot)
  }

  function WithBytes(m: Memory, va: nat, data: seq<Byte>): Memory {
    m + map a: nat | a in m && Within(a, va, va + |data|) :: Cell(data[a - va], m[a].prot)
  }

  ghost predicate Writable(m: Memory, va: nat, n: nat) {
    forall a: nat :: Within(a, va, va + n) ==> a in m && m[a].prot.write
  }

  lemma Inside(g: Segment)
    ensures Start(g) <= g.va && g.va + g.memsz <= End(g)
  {
  }

  /** Memory after a segment is filled and protected. */
  function Filled(m: Memory, image: seq<Byte>, g: Segment): Memory
    requires g.offset + g.filesz <= |image|
  {
    var prot := ProtOf(g.flags);
    var pages := WithPages(m, Start(g), End(g), prot.(write := true));
    WithProt(WithBytes(pages, g.va, image[g.offset..g.offset + g.filesz]), Start(g), End(g), prot)
  }

  lemma FilledAt(m: Memory, image: seq<Byte>, g: Segment, a: nat)
    requires g.offset + g.filesz <= |image| && g.filesz <= g.memsz
    ensures var now := Filled(m, image, g);
            if Within(a, Start(g), End(g)) then
              a in now && (a !in m ==> now[a] == Cell(ByteAt(image, g, a), ProtOf(g.flags)))
            else (a in now <==> a in m) && (a in m ==> now[a] == m[a])
  {
    Inside(g);
    hide Start, End, ProtOf;
  }

  lemma FilledLoads(m: Memory, image: seq<Byte>, g: Segment)
    requires g.offset + g.filesz <= |image| && g.filesz <= g.memsz
    ensures OnlyIn(g, m, Filled(m, image, g))
    ensures Clear(g, m) ==> Loaded(image, g, Filled(m, image, g))
  {
    hide Filled, Start, End, Within, ByteAt, ProtOf;
    var now := Filled(m, image, g);
    forall a: nat ensures if Within(a, Start(g), End(g)) then
                            a in now && (a !in m ==> now[a] == Cell(ByteAt(image, g, a), ProtOf(g.flags)))
                          else (a in now <==> a in m) && (a in m ==> now[a] == m[a])
    {
      FilledAt(m, image, g, a);
    }
  }

  /** Pages just mapped writable take the file's bytes. */
  lemma PagesWritable(m: Memory, g: Segment, prot: Prot)
    requires prot.write && g.filesz <= g.memsz
    ensures Writable(WithPages(m, Start(g), End(g), prot), g.va, g.filesz)
  {
    Inside(g);
    hide Start, End;
  }

  /** Memory on the way there differs in the segment's pages only, and steps with
      nothing to do are none. */
  lemma PartsOnly(image: seq<Byte>, g: Segment, m: Memory)
    requires g.offset + g.filesz <= |image| && g.filesz <= g.memsz
    ensures var prot := ProtOf(g.flags);
            var data := image[g.offset..g.offset + g.filesz];
            var pages := WithPages(m, Start(g), End(g), prot.(write := true));
            var filled := WithBytes(pages, g.va, data);
            && OnlyIn(g, m, m) && OnlyIn(g, m, pages) && OnlyIn(g, m, filled)
            && (g.filesz == 0 ==> filled == pages)
            && (prot.write ==> WithProt(filled, Start(g), End(g), prot) == filled)
  {
    Inside(g);
    hide Start, End;
  }

  lemma Unmoved(g: Segment, m: Memory)
    ensures OnlyIn(g, m, m)
  {
  }

  lemma Ends(g: Segment)
    ensures Start(g) <= End(g) && (g.va + g.memsz + PAGE <= WORD ==> End(g) < WORD)
  {
  }

  lemma EmptyLoads(image: seq<Byte>, g: Segment, m: Memory)
    requires g.offset + g.filesz <= |image| && g.filesz <= g.memsz && Start(g) == End(g)
    ensures Loaded(image, g, m) && OnlyIn(g, m, m)
  {
  }

  lemma OfferedSo(was: seq<Vma>, now: seq<Vma>, v: Vma, ok: bool)
    requires ok <==> |was| < VMA_MAX && !Overlaps(was, v.start, v.end)
    requires if ok then multiset(now) == multiset(was) + multiset{v} else now == was
    ensures Offered(was, now, v)
  {
  }

  // ---- all the segments ----

  ghost predicate AllLoaded(image: seq<Byte>, gs: seq<Segment>, m: Memory) {
    forall i :: 0 <= i < |gs| ==> Loaded(image, gs[i], m)
  }

  ghost predicate AllClear(gs: seq<Segment>, m: Memory) {
    forall i :: 0 <= i < |gs| ==> Clear(gs[i], m)
  }

  ghost predicate AllApart(gs: seq<Segment>) {
    forall i, j :: 0 <= i < j < |gs| ==> Apart(gs[i], gs[j])
  }

  /** The segment's file bytes are in the image, and no more than its memory. */
  predicate SegmentOk(image: seq<Byte>, g: Segment) {
    g.filesz <= g.memsz && g.offset + g.filesz <= |image|
  }

  predicate AllFit(image: seq<Byte>, gs: seq<Segment>) {
    forall i :: 0 <= i < |gs| ==> SegmentOk(image, gs[i])
  }

  lemma FitsWithin(image: seq<Byte>, gs: seq<Segment>, g: Segment, all: seq<Segment>)
    requires gs + [g] <= all && AllFit(image, gs)
    ensures SegmentOk(image, g) <==> g.filesz <= g.memsz && g.offset + g.filesz <= |image|
    ensures AllFit(image, gs + [g]) <==> SegmentOk(image, g)
    ensures AllFit(image, all) ==> SegmentOk(image, g)
  {
    assert forall i :: 0 <= i < |gs| + 1 ==> (gs + [g])[i] == all[i];
    assert (gs + [g])[|gs|] == g;
  }

  /** What an image needs to be loaded when nothing is refused: a header that is taken, a segment to
      load, and every one within the image. */
  ghost predicate Loadable(image: seq<Byte>) {
    && HeaderOf(image).Some? && TableFits(image, HeaderOf(image).value)
    && var gs := Loads(image, HeaderOf(image).value, HeaderOf(image).value.phnum);
       gs != [] && AllFit(image, gs)
  }

  /** The address is in no segment's pages. */
  ghost predicate Outside(gs: seq<Segment>, a: nat) {
    forall i :: 0 <= i < |gs| ==> !Within(a, Start(gs[i]), End(gs[i]))
  }

  ghost predicate OnlyInAll(gs: seq<Segment>, m: Memory, now: Memory) {
    forall a: nat :: Outside(gs, a) ==> (a in now <==> a in m) && (a in m ==> now[a] == m[a])
  }

  /** `lo` and `hi` are the exact hull of the segments' pages. */
  ghost predicate Hull(gs: seq<Segment>, lo: nat, hi: nat) {
    && (forall i :: 0 <= i < |gs| ==> lo <= Start(gs[i]) && End(gs[i]) <= hi)
    && (gs != [] ==> (exists i :: 0 <= i < |gs| && Start(gs[i]) == lo) && (exists i :: 0 <= i < |gs| && End(gs[i]) == hi))
    && (gs == [] ==> lo == WORD - 1 && hi == 0)
  }

  /** The segment's file bytes include the first byte of the program headers. */
  predicate Covers(g: Segment, phoff: nat) {
    g.offset <= phoff < g.offset + g.filesz
  }

  /** Where AT_PHDR points: into the first segment that covers the headers, or 0. */
  ghost predicate PhdrAt(gs: seq<Segment>, phoff: nat, va: nat) {
    if forall i :: 0 <= i < |gs| ==> !Covers(gs[i], phoff) then va == 0
    else exists k :: 0 <= k < |gs| && Covers(gs[k], phoff) && va == gs[k].va + (phoff - gs[k].offset)
                     && forall j :: 0 <= j < k ==> !Covers(gs[j], phoff)
  }

  /** The ranges of the segments that have pages. */
  function VmasOf(gs: seq<Segment>): seq<Vma> {
    if gs == [] then []
    else
      var g := gs[|gs| - 1];
      VmasOf(gs[..|gs| - 1]) + if Start(g) < End(g) then [VmaOf(g)] else []
  }

  lemma StepLoaded(image: seq<Byte>, gs: seq<Segment>, g: Segment, m: Memory, now: Memory)
    requires AllLoaded(image, gs, m) && AllApart(gs + [g]) && OnlyIn(g, m, now) && Loaded(image, g, now)
    ensures AllLoaded(image, gs + [g], now)
  {
    hide Loaded, OnlyIn, Apart;
    forall i | 0 <= i < |gs| ensures Loaded(image, gs[i], now) {
      assert Apart((gs + [g])[i], (gs + [g])[|gs|]);
      LoadedStays(image, gs[i], g, m, now);
    }
  }

  lemma StepOnly(gs: seq<Segment>, g: Segment, m0: Memory, m: Memory, now: Memory)
    requires OnlyInAll(gs, m0, m) && OnlyIn(g, m, now)
    ensures OnlyInAll(gs + [g], m0, now)
  {
    hide Within, Start, End;
    forall a: nat | Outside(gs + [g], a) ensures (a in now <==> a in m0) && (a in m0 ==> now[a] == m0[a]) {
      assert !Within(a, Start((gs + [g])[|gs|]), End((gs + [g])[|gs|]));
      assert forall i :: 0 <= i < |gs| ==> (gs + [g])[i] == gs[i];
      assert Outside(gs, a);
    }
  }

  lemma StepClear(gs: seq<Segment>, g: Segment, m0: Memory, m: Memory)
    requires Clear(g, m0) && OnlyInAll(gs, m0, m) && AllApart(gs + [g])
    ensures Clear(g, m)
  {
    hide Within, Start, End;
    forall a: nat | Within(a, Start(g), End(g)) ensures a !in m {
      forall i | 0 <= i < |gs| ensures !Within(a, Start(gs[i]), End(gs[i])) {
        assert Apart((gs + [g])[i], (gs + [g])[|gs|]);
      }
      assert Outside(gs, a);
    }
  }

  lemma StepHull(gs: seq<Segment>, g: Segment, lo: nat, hi: nat)
    requires Hull(gs, lo, hi) && Start(g) < WORD
    ensures Hull(gs + [g], if Start(g) < lo then Start(g) else lo, if End(g) > hi then End(g) else hi)
  {
    hide Start, End;
    var all := gs + [g];
    assert all[|gs|] == g && forall i :: 0 <= i < |gs| ==> all[i] == gs[i];
    Ends(g);
    if gs != [] {
      var i :| 0 <= i < |gs| && Start(gs[i]) == lo;
      var j :| 0 <= j < |gs| && End(gs[j]) == hi;
      assert all[i] == gs[i] && all[j] == gs[j];
    }
  }

  lemma LoadsPrefix(image: seq<Byte>, h: Header, i: nat, n: nat)
    requires TableFits(image, h) && i <= n <= h.phnum
    ensures Loads(image, h, i) <= Loads(image, h, n)
  {
    if i < n { LoadsPrefix(image, h, i, n - 1); }
  }

  // ---- the range table over the load ----

  /** There is room for the segments, and none meets a range already there or another. */
  ghost predicate Free(was: seq<Vma>, gs: seq<Segment>) {
    && |was| + |gs| <= VMA_MAX && AllApart(gs)
    && forall i :: 0 <= i < |gs| ==> !Overlaps(was, Start(gs[i]), End(gs[i]))
  }

  /** With room for all, the table holds exactly its old ranges and the segments'. */
  ghost predicate Tabled(was: seq<Vma>, gs: seq<Segment>, now: seq<Vma>) {
    Free(was, gs) ==> multiset(now) == multiset(was) + multiset(VmasOf(gs))
  }

  lemma {:induction false} VmasFrom(gs: seq<Segment>, v: Vma)
    requires v in VmasOf(gs)
    ensures exists i :: 0 <= i < |gs| && v == VmaOf(gs[i]) && Start(gs[i]) < End(gs[i])
  {
    hide VmaOf, Start, End;
    var n := |gs| - 1;
    if v in VmasOf(gs[..n]) { VmasFrom(gs[..n], v); }
  }

  lemma {:induction false} VmasCount(gs: seq<Segment>)
    ensures |VmasOf(gs)| <= |gs|
  {
    if gs != [] { VmasCount(gs[..|gs| - 1]); }
  }

  lemma ApartMeets(g: Segment, k: Segment)
    requires Apart(g, k) && Start(g) < End(g) && Start(k) < End(k)
    ensures !Meets(VmaOf(g), Start(k), End(k))
  {
    hide Start, End;
    var a := if Start(g) < Start(k) then Start(k) else Start(g);
    assert !(Within(a, Start(g), End(g)) && Within(a, Start(k), End(k)));
  }

  lemma StepTabled(was: seq<Vma>, gs: seq<Segment>, g: Segment, now0: seq<Vma>, now: seq<Vma>)
    requires Tabled(was, gs, now0)
    requires if Start(g) < End(g) then Offered(now0, now, VmaOf(g)) else now == now0
    ensures Tabled(was, gs + [g], now)
  {
    hide Start, End, VmaOf, Meets, Apart;
    var all := gs + [g];
    assert all[..|gs|] == gs && all[|gs|] == g;
    if Free(was, all) {
      assert forall i, j :: 0 <= i < j < |gs| ==> Apart(gs[i], gs[j]) by {
        assert forall i :: 0 <= i < |gs| ==> all[i] == gs[i];
      }
      assert Free(was, gs) by { assert forall i :: 0 <= i < |gs| ==> all[i] == gs[i]; }
      if Start(g) < End(g) {
        RoomFor(was, gs, g, now0);
      }
    }
  }

  lemma RoomFor(was: seq<Vma>, gs: seq<Segment>, g: Segment, now: seq<Vma>)
    requires Free(was, gs + [g]) && Start(g) < End(g)
    requires multiset(now) == multiset(was) + multiset(VmasOf(gs))
    ensures |now| < VMA_MAX && !Overlaps(now, VmaOf(g).start, VmaOf(g).end)
  {
    VmasCount(gs);
    assert |multiset(now)| == |now|;
    assert VmaOf(g).start == Start(g) && VmaOf(g).end == End(g);
    var all := gs + [g];
    assert !Overlaps(was, Start(all[|gs|]), End(all[|gs|]));
    hide Start, End, VmaOf, Meets, Apart, VmasOf;
    forall i | 0 <= i < |now| ensures !Meets(now[i], Start(g), End(g)) {
      assert now[i] in multiset(now);
      if now[i] in was {
        var j :| 0 <= j < |was| && was[j] == now[i];
      } else {
        VmasFrom(gs, now[i]);
        var j :| 0 <= j < |gs| && now[i] == VmaOf(gs[j]) && Start(gs[j]) < End(gs[j]);
        assert Apart(all[j], all[|gs|]);
        ApartMeets(gs[j], g);
      }
    }
  }

  class AddressSpace {
    var m: Memory
    const vmas: VmaTable
    /** Whether each call to the substrate to come is refused. */
    var refusals: seq<bool>

    constructor (refusals: seq<bool>)
      ensures Valid() && m == map[] && vmas.Ranges() == [] && fresh(vmas) && fresh(vmas.g)
    {
      m := map[];
      vmas := new VmaTable();
      this.refusals := refusals;
    }

    ghost predicate Valid()
      reads this, vmas, vmas.g
    {
      vmas.Valid()
    }

    method Refused() returns (no: bool)
      modifies this`refusals
      ensures old(refusals) == [] ==> !no && refusals == []
    {
      if refusals == [] { return false; }
      no := refusals[0];
      refusals := refusals[1..];
    }

    /** `as_map`, anonymous. */
    method AsMap(lo: nat, hi: nat, prot: Prot) returns (ok: bool)
      modifies this`m, this`refusals
      ensures m == if ok then WithPages(old(m), lo, hi, prot) else old(m)
      ensures old(refusals) == [] ==> ok && refusals == []
    {
      var no := Refused();
      if no { return false; }
      m := WithPages(m, lo, hi, prot);
      ok := true;
    }

    /** `as_protect`. */
    method AsProtect(lo: nat, hi: nat, prot: Prot) returns (ok: bool)
      modifies this`m, this`refusals
      ensures m == if ok then WithProt(old(m), lo, hi, prot) else old(m)
      ensures old(refusals) == [] ==> ok && refusals == []
    {
      var no := Refused();
      if no { return false; }
      m := WithProt(m, lo, hi, prot);
      ok := true;
    }

    /** `user_copy_out`: all or nothing, to memory that may be written. */
    method CopyOut(va: nat, data: seq<Byte>) returns (ok: bool)
      modifies this`m
      ensures ok ==> m == WithBytes(old(m), va, data)
      ensures !ok ==> m == old(m)
      ensures old(Writable(m, va, |data|)) ==> ok
    {
      var i := 0;
      while i < |data|
        invariant 0 <= i <= |data|
      {
        if va + i !in m || !m[va + i].prot.write {
          assert Within(va + i, va, va + |data|);
          return false;
        }
        i := i + 1;
      }
      m := WithBytes(m, va, data);
      ok := true;
    }

    /** `map_load`. */
    method MapLoad(image: seq<Byte>, g: Segment) returns (ok: bool)
      requires Valid() && g.offset + g.filesz <= |image| && g.va + g.memsz + PAGE <= WORD
      modifies this`m, this`refusals, vmas, vmas.g
      ensures Valid() && OnlyIn(g, old(m), m)
      ensures ok ==> g.filesz <= g.memsz && (old(Clear(g, m)) ==> Loaded(image, g, m))
      ensures ok && Start(g) < End(g) ==> Offered(old(vmas.Ranges()), vmas.Ranges(), VmaOf(g))
      ensures !ok || Start(g) == End(g) ==> vmas.Ranges() == old(vmas.Ranges())
      ensures old(refusals) == [] ==> refusals == [] && (ok <==> g.filesz <= g.memsz)
    {
      hide Filled, WithPages, WithProt, WithBytes, Loaded, OnlyIn, Clear, Sorted, Offered, Overlaps, Start, End, ProtOf;
      if g.memsz < g.filesz {
        Unmoved(g, m);
        return false;
      }
      PartsOnly(image, g, m);
      if Start(g) == End(g) {
        EmptyLoads(image, g, m);
        return true;
      }
      FilledLoads(m, image, g);
      Ends(g);
      ok := FillPages(image, g);
      if !ok { return; }
      var v := VmaOf(g);
      var done := vmas.Record(Start(g), End(g) - Start(g), v.prot, v.offset, v.fileBacked);
      OfferedSo(old(vmas.Ranges()), vmas.Ranges(), v, done);
    }

    /** Map the pages writable, copy the file's bytes in, and set the protection. */
    method FillPages(image: seq<Byte>, g: Segment) returns (ok: bool)
      requires g.offset + g.filesz <= |image| && g.filesz <= g.memsz
      modifies this`m, this`refusals
      ensures ok ==> m == Filled(old(m), image, g)
      ensures !ok ==> OnlyIn(g, old(m), m)
      ensures old(refusals) == [] ==> ok && refusals == []
    {
      hide WithPages, WithProt, WithBytes, OnlyIn, Writable, Start, End, ProtOf;
      var prot := ProtOf(g.flags);
      PagesWritable(m, g, prot.(write := true));
      PartsOnly(image, g, m);
      ok := AsMap(Start(g), End(g), prot.(write := true));
      if !ok { return; }
      if g.filesz > 0 {
        ok := CopyOut(g.va, image[g.offset..g.offset + g.filesz]);
        if !ok { return; }
      }
      if !prot.write {
        ok := AsProtect(Start(g), End(g), prot);
      }
    }

    /** What loading the first segments has done, from memory `m0` and ranges `v0`. */
    ghost predicate LoadedSoFar(image: seq<Byte>, all: seq<Segment>, gs: seq<Segment>, m0: Memory, v0: seq<Vma>)
      reads this, vmas, vmas.g
    {
      && Valid() && OnlyInAll(gs, m0, m)
      && (AllApart(all) && AllClear(all, m0) ==> AllLoaded(image, gs, m))
      && Tabled(v0, gs, vmas.Ranges())
    }

    /** One segment more. */
    method LoadNext(image: seq<Byte>, g: Segment, ghost all: seq<Segment>, ghost gs: seq<Segment>, ghost m0: Memory, ghost v0: seq<Vma>)
      returns (ok: bool)
      requires LoadedSoFar(image, all, gs, m0, v0) && gs + [g] <= all
      requires g.offset + g.filesz <= |image| && g.va + g.memsz + PAGE <= WORD
      modifies this`m, this`refusals, vmas, vmas.g
      ensures Valid()
      ensures ok ==> LoadedSoFar(image, all, gs + [g], m0, v0)
      ensures ok ==> g.filesz <= g.memsz
      ensures old(refusals) == [] ==> refusals == [] && (ok <==> g.filesz <= g.memsz)
    {
      hide Loaded, Clear, OnlyIn, OnlyInAll, AllLoaded, AllClear, AllApart, Tabled, Offered, Sorted, VmaOf, Start, End;
      ghost var was, had := m, vmas.Ranges();
      ok := MapLoad(image, g);
      if !ok { return; }
      Ends(g);
      StepOnly(gs, g, m0, was, m);
      StepTabled(v0, gs, g, had, vmas.Ranges());
      if AllApart(all) && AllClear(all, m0) {
        PrefixApart(gs + [g], all, m0);
        NextClear(gs, g, m0);
        StepClear(gs, g, m0, was);
        StepLoaded(image, gs, g, was, m);
      }
    }

    /** `elf_load`. */
    method Load(image: seq<Byte>) returns (r: Opt<LoadInfo>)
      requires Valid() && NoWrap(image)
      modifies this`m, this`refusals, vmas, vmas.g
      ensures Valid()
      ensures r.Some? ==>
                && HeaderOf(image).Some? && var h := HeaderOf(image).value;
                && TableFits(image, h)
                && var gs := Loads(image, h, h.phnum);
                && gs != [] && Hull(gs, r.value.base, r.value.end) && PhdrAt(gs, h.phoff, r.value.phdrVa)
                && r.value.entry == (h.entry + Bias(h)) % WORD && r.value.phent == h.phentsize && r.value.phnum == h.phnum
                && LoadedSoFar(image, gs, gs, old(m), old(vmas.Ranges()))
      ensures r.Some? ==> Loadable(image)
      ensures old(refusals) == [] ==> (r.Some? <==> Loadable(image))
    {
      var hdr := HeaderOf(image);
      if hdr.None? { return None; }
      var h := hdr.value;
      TableSo(image);
      hide LoadedSoFar, Hull, PhdrAt, HeaderOf, NoWrap, TableFits, Loads;
      ghost var m0, v0 := m, vmas.Ranges();
      var ok, lo, hi := LoadAll(image, h);
      if !ok { return None; }
      var va := FindPhdr(image, h);
      return Some(LoadInfo((h.entry + Bias(h)) % WORD, h.phentsize, h.phnum, lo, hi, va));
    }

    /** The first loop of `elf_load`: every PT_LOAD, in order. */
    method LoadAll(image: seq<Byte>, h: Header) returns (ok: bool, lo: nat, hi: nat)
      requires Valid() && NoWrap(image) && HeaderOf(image) == Some(h) && TableFits(image, h)
      modifies this`m, this`refusals, vmas, vmas.g
      ensures Valid()
      ensures ok ==>
                var gs := Loads(image, h, h.phnum);
                gs != [] && Hull(gs, lo, hi) && LoadedSoFar(image, gs, gs, old(m), old(vmas.Ranges()))
      ensures ok ==> AllFit(image, Loads(image, h, h.phnum))
      ensures old(refusals) == [] ==> (ok <==> Loads(image, h, h.phnum) != [] && AllFit(image, Loads(image, h, h.phnum)))
    {
      hide NoWrap, HeaderOf, TableFits, LoadAt, Start, End, LoadedSoFar, Hull, AllFit, SegmentOk;
      var all := Loads(image, h, h.phnum);
      lo, hi := WORD - 1, 0;
      var i, mapped := 0, 0;
      ghost var gs: seq<Segment> := [];
      ghost var m0, v0 := m, vmas.Ranges();
      Unloaded(image, all);
      while i < h.phnum
        invariant 0 <= i <= h.phnum && gs == Loads(image, h, i) && mapped == |gs|
        invariant LoadedSoFar(image, all, gs, m0, v0) && Hull(gs, lo, hi)
        invariant AllFit(image, gs) && (old(refusals) == [] ==> refusals == [])
      {
        Still(image, all, gs, m0, v0);
        var next := LoadAt(image, h, i);
        LoadsPrefix(image, h, i + 1, h.phnum);
        SumsFit(image, h, i);
        Snoc(gs);
        if next.Some? {
          var g := next.value;
          assert gs + [g] <= all;
          FitsWithin(image, gs, g, all);
          if g.offset + g.filesz > |image| { return false, lo, hi; }
          ok := LoadNext(image, g, all, gs, m0, v0);
          if !ok { return; }
          StartsLow(g);
          StepHull(gs, g, lo, hi);
          lo := if Start(g) < lo then Start(g) else lo;
          hi := if End(g) > hi then End(g) else hi;
          mapped := mapped + 1;
          gs := gs + [g];
        }
        i := i + 1;
      }
      Still(image, all, gs, m0, v0);
      ok := mapped > 0;
    }

    lemma Unloaded(image: seq<Byte>, all: seq<Segment>)
      requires Valid()
      ensures LoadedSoFar(image, all, [], m, vmas.Ranges()) && Hull([], WORD - 1, 0) && AllFit(image, [])
    {
      NothingYet(image, all, m, vmas.Ranges());
    }

    lemma Still(image: seq<Byte>, all: seq<Segment>, gs: seq<Segment>, m0: Memory, v0: seq<Vma>)
      requires LoadedSoFar(image, all, gs, m0, v0)
      ensures Valid()
    {
    }
  }

  /** The second loop of `elf_load`: the address of the program headers in the image. */
  method FindPhdr(image: seq<Byte>, h: Header) returns (va: nat)
    requires TableFits(image, h)
    ensures PhdrAt(Loads(image, h, h.phnum), h.phoff, va)
  {
    hide LoadAt, TableFits;
    ghost var all := Loads(image, h, h.phnum);
    var i := 0;
    while i < h.phnum
      invariant 0 <= i <= h.phnum
      invariant forall j :: 0 <= j < |Loads(image, h, i)| ==> !Covers(Loads(image, h, i)[j], h.phoff)
    {
      var next := LoadAt(image, h, i);
      LoadsPrefix(image, h, i + 1, h.phnum);
      ghost var before := Loads(image, h, i);
      if next.Some? && Covers(next.value, h.phoff) {
        ghost var k := |before|;
        assert Loads(image, h, i + 1) == before + [next.value];
        assert all[k] == next.value && forall j :: 0 <= j < k ==> all[j] == before[j];
        return next.value.va + (h.phoff - next.value.offset);
      }
      i := i + 1;
    }
    return 0;
  }

  lemma Snoc(gs: seq<Segment>)
    ensures gs + [] == gs
  {
  }

  lemma NothingYet(image: seq<Byte>, all: seq<Segment>, m: Memory, v: seq<Vma>)
    ensures OnlyInAll([], m, m) && AllLoaded(image, [], m) && Tabled(v, [], v) && Hull([], WORD - 1, 0)
  {
    forall a: nat ensures Outside([], a) { }
  }

  lemma SumsFit(image: seq<Byte>, h: Header, i: nat)
    requires NoWrap(image) && HeaderOf(image) == Some(h) && i < h.phnum
    requires TableFits(image, h)
    ensures LoadAt(image, h, i).Some? ==> var g := LoadAt(image, h, i).value; g.va + g.memsz + PAGE <= WORD
  {
  }

  lemma StartsLow(g: Segment)
    requires g.va + g.memsz + PAGE <= WORD
    ensures Start(g) < WORD
  {
  }

  lemma PrefixApart(gs: seq<Segment>, all: seq<Segment>, m: Memory)
    requires gs <= all && AllApart(all) && AllClear(all, m)
    ensures AllApart(gs) && AllClear(gs, m)
  {
    assert forall i :: 0 <= i < |gs| ==> gs[i] == all[i];
  }

  lemma NextClear(gs: seq<Segment>, g: Segment, m: Memory)
    requires AllClear(gs + [g], m)
    ensures Clear(g, m)
  {
    assert (gs + [g])[|gs|] == g;
  }

  /** Byte `k` of the program headers is in memory at `va`. */
  ghost predicate HeaderByte(image: seq<Byte>, m: Memory, phoff: nat, va: nat, k: nat) {
    phoff + k < |image| && va + k in m && m[va + k].byte == image[phoff + k]
  }

  /** When the headers are in a loaded segment, `phdrVa` addresses their bytes. */
  lemma PhdrBytes(image: seq<Byte>, gs: seq<Segment>, m: Memory, phoff: nat, va: nat, size: nat)
    requires AllLoaded(image, gs, m) && PhdrAt(gs, phoff, va)
    requires exists i :: 0 <= i < |gs| && Covers(gs[i], phoff)
    requires forall i :: 0 <= i < |gs| && Covers(gs[i], phoff) ==> phoff + size <= gs[i].offset + gs[i].filesz
    ensures forall k :: 0 <= k < size ==> HeaderByte(image, m, phoff, va, k)
  {
    var i :| 0 <= i < |gs| && Covers(gs[i], phoff) && va == gs[i].va + (phoff - gs[i].offset);
    var g := gs[i];
    assert Loaded(image, g, m);
    Inside(g);
    forall k | 0 <= k < size ensures HeaderByte(image, m, phoff, va, k) {
      assert Within(va + k, Start(g), End(g));
    }
  }
}
