/** The stack a program starts on (core/exec.c:40-128): argument strings at the top,
    then the pointer vector, read back the way section 3.4.1 of the System V psABI for
    AMD64 has `_start` read it. */
module Stacks {
  import opened Basics
  import opened Bytes

  const STK_SIZE := 0x80_0000
  const PAGE_SIZE_AUX := 4096
  const RANDOM_BYTES: seq<Byte> :=
    [0x9e, 0x37, 0x79, 0xb9, 0x7f, 0x4a, 0x7c, 0x15, 0xf3, 0x9c, 0xc0, 0x60, 0x5c, 0xed, 0xc8, 0x34]

  const AT_NULL := 0
  const AT_PHDR := 3
  const AT_PHENT := 4
  const AT_PHNUM := 5
  const AT_PAGESZ := 6
  const AT_ENTRY := 9
  const AT_RANDOM := 25
  const AT_SYSINFO := 32
  const AT_SYSINFO_EHDR := 33

  /** One entry of the auxiliary vector. */
  datatype Aux = Aux(key: Word, value: Word)

  /** What the image and the substrate contribute. */
  datatype Facts = Facts(entry: Word, phdr: Word, phent: Word, phnum: Word, gate: Word, vdso: Word)

  /** The auxiliary vector before its AT_NULL. */
  function AuxVector(f: Facts, random: Word): (aux: seq<Aux>)
    ensures |aux| == 8 && forall i :: 0 <= i < |aux| ==> aux[i].key != AT_NULL
  {
    [Aux(AT_PHDR, f.phdr), Aux(AT_PHENT, f.phent), Aux(AT_PHNUM, f.phnum), Aux(AT_PAGESZ, PAGE_SIZE_AUX),
     Aux(AT_ENTRY, f.entry), Aux(AT_RANDOM, random), Aux(AT_SYSINFO, f.gate), Aux(AT_SYSINFO_EHDR, f.vdso)]
  }

  // ---- what a starting program reads ----

  /** What `_start` makes of its stack. */
  datatype Start = Start(argc: Word, argv: seq<seq<Byte>>, envp: seq<Word>, aux: seq<Aux>)

  function WordOf(m: seq<Byte>): Word
    requires |m| >= 8
  {
    Spans();
    Unsigned(m[..8])
  }

  /** Pointers up to a null, and what lies behind it; `None` where memory ends first. */
  function Pointers(m: seq<Byte>): Opt<(seq<Word>, seq<Byte>)>
    decreases |m|
  {
    if |m| < 8 then None
    else if WordOf(m) == 0 then Some(([], m[8..]))
    else match Pointers(m[8..])
      case None => None
      case Some((ps, rest)) => Some(([WordOf(m)] + ps, rest))
  }

  /** Auxiliary entries up to AT_NULL. */
  function AuxEntries(m: seq<Byte>): Opt<seq<Aux>>
    decreases |m|
  {
    if |m| < 16 then None
    else if WordOf(m) == AT_NULL then Some([])
    else match AuxEntries(m[16..])
      case None => None
      case Some(rest) => Some([Aux(WordOf(m), WordOf(m[8..]))] + rest)
  }

  /** The string at the head of memory. */
  function Text(m: seq<Byte>): Opt<seq<Byte>> {
    if m == [] then None
    else if m[0] == 0 then Some([])
    else match Text(m[1..])
      case None => None
      case Some(t) => Some([m[0]] + t)
  }

  /** The strings pointers lead to, in memory `m` mapped at `base`. */
  function Texts(m: seq<Byte>, base: nat, ps: seq<Word>): Opt<seq<seq<Byte>>> {
    if ps == [] then Some([])
    else if !(base <= ps[0] <= base + |m|) then None
    else match (Text(m[ps[0] - base..]), Texts(m, base, ps[1..]))
      case (Some(t), Some(ts)) => Some([t] + ts)
      case (_, _) => None
  }

  /** Walking up from argc at offset `o` of the memory mapped at `base`. */
  function ReadStart(m: seq<Byte>, base: nat, o: nat): Opt<Start>
    requires o <= |m|
  {
    var up := m[o..];
    if |up| < 8 then None
    else match Pointers(up[8..])
      case None => None
      case Some((argv, rest)) =>
        match Pointers(rest)
        case None => None
        case Some((envp, rest2)) =>
          match (Texts(m, base, argv), AuxEntries(rest2))
          case (Some(ts), Some(aux)) => Some(Start(WordOf(up), ts, envp, aux))
          case (_, _) => None
  }

  // ---- the image ----

  /** The strings as they lie: the first one highest. */
  function Strings(argv: seq<seq<Byte>>): seq<Byte> {
    if argv == [] then [] else argv[|argv| - 1] + [0] + Strings(argv[..|argv| - 1])
  }

  /** Where the first `i` strings have brought the stack down to. */
  function Down(argv: seq<seq<Byte>>, i: nat): (n: nat)
    requires i <= |argv|
  {
    |Strings(argv[..i])|
  }

  /** The strings and the largest vector fit: what the code assumes of its caller. */
  predicate Roomy(argv: seq<seq<Byte>>) {
    |Strings(argv)| + 8 * |argv| + 256 <= STK_SIZE
  }

  predicate AreStrings(argv: seq<seq<Byte>>) {
    forall i :: 0 <= i < |argv| ==> 0 !in argv[i]
  }

  /** The user addresses of the strings. */
  function Addresses(argv: seq<seq<Byte>>, base: nat): (vas: seq<Word>)
    requires 0 < base && base + STK_SIZE <= WORD && |Strings(argv)| <= STK_SIZE
    ensures |vas| == |argv|
    ensures forall i :: 0 <= i < |argv| ==> vas[i] == base + STK_SIZE - Down(argv, i + 1) && vas[i] != 0
  {
    seq(|argv|, i requires 0 <= i < |argv| => Address(argv, base, i))
  }

  function Address(argv: seq<seq<Byte>>, base: nat, i: nat): (va: Word)
    requires 0 < base && base + STK_SIZE <= WORD && |Strings(argv)| <= STK_SIZE && i < |argv|
    ensures va == base + STK_SIZE - Down(argv, i + 1) && va != 0
  {
    StringsTail(argv, i + 1);
    StringStep(argv, i);
    base + STK_SIZE - Down(argv, i + 1)
  }

  function Flat(aux: seq<Aux>): seq<Word> {
    if aux == [] then [] else [aux[0].key, aux[0].value] + Flat(aux[1..])
  }

  /** The pointer vector, word by word. */
  function Vector(vas: seq<Word>, aux: seq<Aux>): seq<Word>
    requires |vas| < WORD
  {
    [|vas|] + vas + [0] + [0] + Flat(aux) + [AT_NULL, 0]
  }

  function Words(vs: seq<Word>): (s: seq<Byte>)
    ensures |s| == 8 * |vs|
  {
    if vs == [] then [] else Le(8, vs[0]) + Words(vs[1..])
  }

  /** The strings pushed first are the tail of what is pushed in all. */
  lemma {:induction false} StringsTail(argv: seq<seq<Byte>>, i: nat)
    requires i <= |argv|
    ensures Down(argv, i) <= |Strings(argv)|
    ensures Strings(argv)[|Strings(argv)| - Down(argv, i)..] == Strings(argv[..i])
    decreases |argv| - i
  {
    if i == |argv| {
      assert argv[..i] == argv;
    } else {
      StringStep(argv, i);
      StringsTail(argv, i + 1);
      var all, more := Strings(argv), Strings(argv[..i + 1]);
      assert all[|all| - Down(argv, i)..] == all[|all| - |more|..][|more| - Down(argv, i)..];
    }
  }

  lemma StringStep(argv: seq<seq<Byte>>, i: nat)
    requires i < |argv|
    ensures Strings(argv[..i + 1]) == argv[i] + [0] + Strings(argv[..i])
    ensures Down(argv, i + 1) == Down(argv, i) + |argv[i]| + 1
    ensures Strings(argv[..i + 1])[|argv[i]| + 1..] == Strings(argv[..i])
  {
    assert argv[..i + 1][..i] == argv[..i];
  }

  // ---- reading the image back ----

  lemma WordBack(v: Word, rest: seq<Byte>)
    ensures WordOf(Le(8, v) + rest) == v && (Le(8, v) + rest)[8..] == rest
  {
    Spans();
    UnsignedOfLe(8, v);
    assert (Le(8, v) + rest)[..8] == Le(8, v);
  }

  lemma WordsHead(v: Word, vs: seq<Word>, rest: seq<Byte>)
    ensures Words([v] + vs) + rest == Le(8, v) + (Words(vs) + rest)
  {
    assert ([v] + vs)[1..] == vs;
  }

  lemma {:induction false} PointersBack(ps: seq<Word>, more: seq<Word>, rest: seq<Byte>)
    requires forall i :: 0 <= i < |ps| ==> ps[i] != 0
    ensures Pointers(Words(ps + [0] + more) + rest) == Some((ps, Words(more) + rest))
  {
    hide Words, WordOf, Le;
    if ps == [] {
      assert ps + [0] + more == [0] + more;
      WordsHead(0, more, rest);
      WordBack(0, Words(more) + rest);
    } else {
      PointersBack(ps[1..], more, rest);
      var tail := ps[1..] + [0] + more;
      assert ps + [0] + more == [ps[0]] + tail;
      assert ps == [ps[0]] + ps[1..];
      WordsHead(ps[0], tail, rest);
      WordBack(ps[0], Words(tail) + rest);
    }
  }

  lemma {:induction false} AuxBack(aux: seq<Aux>, rest: seq<Byte>)
    requires forall i :: 0 <= i < |aux| ==> aux[i].key != AT_NULL
    ensures AuxEntries(Words(Flat(aux) + [AT_NULL, 0]) + rest) == Some(aux)
  {
    hide Words, WordOf, Le;
    if aux == [] {
      assert Flat(aux) + [AT_NULL, 0] == [AT_NULL] + [0];
      WordsHead(AT_NULL, [0], rest);
      WordBack(AT_NULL, Words([0]) + rest);
      assert |Words([0]) + rest| >= 8;
    } else {
      AuxBack(aux[1..], rest);
      var tail := Flat(aux[1..]) + [AT_NULL, 0];
      assert Flat(aux) + [AT_NULL, 0] == [aux[0].key] + ([aux[0].value] + tail);
      assert aux == [aux[0]] + aux[1..];
      WordsHead(aux[0].key, [aux[0].value] + tail, rest);
      WordBack(aux[0].key, Words([aux[0].value] + tail) + rest);
      WordsHead(aux[0].value, tail, rest);
      WordBack(aux[0].value, Words(tail) + rest);
      var m := Words(Flat(aux) + [AT_NULL, 0]) + rest;
      assert m[16..] == m[8..][8..];
    }
  }

  lemma {:induction false} TextBack(t: seq<Byte>, rest: seq<Byte>)
    requires 0 !in t
    ensures Text(t + [0] + rest) == Some(t)
  {
    var m := t + [0] + rest;
    if t == [] {
      assert m[0] == 0;
    } else {
      TextBack(t[1..], rest);
      assert m[1..] == t[1..] + [0] + rest && t == [t[0]] + t[1..];
    }
  }

  /** Memory whose top is the strings. */
  ghost predicate Topped(m: seq<Byte>, argv: seq<seq<Byte>>) {
    |m| == STK_SIZE && |Strings(argv)| <= STK_SIZE && m[STK_SIZE - |Strings(argv)|..] == Strings(argv)
  }

  lemma StringAt(m: seq<Byte>, argv: seq<seq<Byte>>, i: nat)
    requires Topped(m, argv) && AreStrings(argv) && i < |argv|
    ensures Down(argv, i + 1) <= STK_SIZE
    ensures Text(m[STK_SIZE - Down(argv, i + 1)..]) == Some(argv[i])
  {
    StringsTail(argv, i + 1);
    StringStep(argv, i);
    TextBack(argv[i], Strings(argv[..i]));
    var all, n := Strings(argv), Down(argv, i + 1);
    assert m[STK_SIZE - n..] == m[STK_SIZE - |all|..][|all| - n..];
  }

  lemma {:induction false} TextsBack(m: seq<Byte>, base: nat, argv: seq<seq<Byte>>, i: nat)
    requires Topped(m, argv) && AreStrings(argv) && 0 < base && base + STK_SIZE <= WORD && i <= |argv|
    ensures Texts(m, base, Addresses(argv, base)[i..]) == Some(argv[i..])
    decreases |argv| - i
  {
    hide Strings, Text, AreStrings, Down;
    if i < |argv| {
      TextsBack(m, base, argv, i + 1);
      StringAt(m, argv, i);
      hide Topped;
      var ps := Addresses(argv, base)[i..];
      assert ps[1..] == Addresses(argv, base)[i + 1..];
      assert argv[i..] == [argv[i]] + argv[i + 1..];
    }
  }

  /** What `exec_enter` leaves in the stack's memory, from argc at offset `o` up: the
      vector, and apart from it the random bytes and the strings at the top. */
  ghost predicate Laid(m: seq<Byte>, base: nat, o: nat, argv: seq<seq<Byte>>, aux: seq<Aux>)
    requires 0 < base && base + STK_SIZE <= WORD
  {
    && Topped(m, argv) && o <= |m| && |argv| < WORD
    && Words(Vector(Addresses(argv, base), aux)) <= m[o..]
    && o + |Words(Vector(Addresses(argv, base), aux))| + 16 + |Strings(argv)| <= STK_SIZE
  }

  /** A program walking up from argc recovers the arguments, both terminators and
      the auxiliary vector through AT_NULL. */
  lemma StartReads(m: seq<Byte>, base: nat, o: nat, argv: seq<seq<Byte>>, aux: seq<Aux>)
    requires 0 < base && base + STK_SIZE <= WORD && AreStrings(argv) && Laid(m, base, o, argv, aux)
    requires forall i :: 0 <= i < |aux| ==> aux[i].key != AT_NULL
    ensures ReadStart(m, base, o) == Some(Start(|argv|, argv, [], aux))
  {
    var vas := Addresses(argv, base);
    var up, n := m[o..], |Words(Vector(vas, aux))|;
    assert up == Words(Vector(vas, aux)) + up[n..];
    TextsBack(m, base, argv, 0);
    assert vas[0..] == vas && argv[0..] == argv;
    hide Vector, Words, WordOf, Pointers, AuxEntries, Texts, Topped, Addresses;
    VectorReads(vas, aux, up[n..]);
  }

  /** The vector as a program takes it apart. */
  lemma VectorReads(vas: seq<Word>, aux: seq<Aux>, above: seq<Byte>)
    requires |vas| < WORD && (forall i :: 0 <= i < |vas| ==> vas[i] != 0)
    requires forall i :: 0 <= i < |aux| ==> aux[i].key != AT_NULL
    ensures var up := Words(Vector(vas, aux)) + above;
            && |up| >= 8 && WordOf(up) == |vas|
            && var argv := Pointers(up[8..]);
               && argv.Some? && argv.value.0 == vas
               && var envp := Pointers(argv.value.1);
                  envp.Some? && envp.value.0 == [] && AuxEntries(envp.value.1) == Some(aux)
  {
    var none: seq<Word> := [];
    var tail: seq<Word> := Flat(aux) + [AT_NULL, 0];
    var envs := none + [0] + tail;
    hide Words, WordOf, Pointers, AuxEntries, Flat;
    VectorParts(vas, aux);
    hide Vector;
    WordsHead(|vas|, vas + [0] + envs, above);
    WordBack(|vas|, Words(vas + [0] + envs) + above);
    PointersBack(vas, envs, above);
    PointersBack(none, tail, above);
    AuxBack(aux, above);
  }

  lemma VectorParts(vas: seq<Word>, aux: seq<Aux>)
    requires |vas| < WORD
    ensures var none: seq<Word> := [];
            var tail: seq<Word> := Flat(aux) + [AT_NULL, 0];
            Vector(vas, aux) == [|vas|] + (vas + [0] + (none + [0] + tail))
  {
    hide Flat;
  }

  /** What a program asking for an entry of the vector gets (`getauxval`). */
  function AuxValue(aux: seq<Aux>, key: Word): Opt<Word> {
    if aux == [] then None
    else if aux[0].key == key then Some(aux[0].value)
    else AuxValue(aux[1..], key)
  }

  /** By their numbers in the psABI and in Linux's own vector: the program headers' address, size and
      count, the page size, the entry point, the random bytes, the system call gate and the vDSO. */
  lemma AuxFinds(f: Facts, random: Word)
    ensures var aux := AuxVector(f, random);
            && AuxValue(aux, 3) == Some(f.phdr) && AuxValue(aux, 4) == Some(f.phent) && AuxValue(aux, 5) == Some(f.phnum)
            && AuxValue(aux, 6) == Some(4096) && AuxValue(aux, 9) == Some(f.entry) && AuxValue(aux, 25) == Some(random)
            && AuxValue(aux, 32) == Some(f.gate) && AuxValue(aux, 33) == Some(f.vdso)
  {
    var aux := AuxVector(f, random);
    FoundAt(aux, 3, 0);
    FoundAt(aux, 4, 1);
    FoundAt(aux, 5, 2);
    FoundAt(aux, 6, 3);
    FoundAt(aux, 9, 4);
    FoundAt(aux, 25, 5);
    FoundAt(aux, 32, 6);
    FoundAt(aux, 33, 7);
  }

  /** A key met nowhere before is the one found. */
  lemma {:induction false} FoundAt(aux: seq<Aux>, key: Word, i: nat)
    requires i < |aux| && aux[i].key == key && forall j :: 0 <= j < i ==> aux[j].key != key
    ensures AuxValue(aux, key) == Some(aux[i].value)
  {
    if i > 0 { FoundAt(aux[1..], key, i - 1); }
  }

  // ---- laying it out ----

  /** `b` over part of `s`. */
  function Over(s: seq<Byte>, at: nat, b: seq<Byte>): seq<Byte>
    requires at + |b| <= |s|
  {
    s[..at] + b + s[at + |b|..]
  }

  /** `memcpy` into a buffer. */
  method Store(a: array<Byte>, at: nat, b: seq<Byte>)
    requires at + |b| <= a.Length
    modifies a
    ensures a[..] == Over(old(a[..]), at, b)
  {
    ghost var was := a[..];
    forall k | 0 <= k < |b| { a[at + k] := b[k]; }
    assert a[..] == was[..at] + b + was[at + |b|..];
  }

  /** Zeros, then the words so far, then room for more, then what is above. */
  ghost predicate Filled(s: seq<Byte>, lo: nat, vs: seq<Word>, gap: nat, top: seq<Byte>) {
    s == Zeros(lo) + Words(vs) + Zeros(gap) + top
  }

  lemma OverZeros(n: nat, top: seq<Byte>, b: seq<Byte>)
    requires |b| <= n
    ensures Over(Zeros(n) + top, n - |b|, b) == Zeros(n - |b|) + (b + top)
  {
  }

  /** One string below what is there. */
  method PushString(hb: array<Byte>, sp: nat, s: seq<Byte>, ghost above: seq<Byte>) returns (now: nat)
    requires |s| < sp && hb[..] == Zeros(sp) + above
    modifies hb
    ensures now == sp - |s| - 1 && hb[..] == Zeros(now) + (s + [0] + above)
  {
    hide Over, Zeros;
    OverZeros(sp, above, s + [0]);
    now := sp - |s| - 1;
    Store(hb, now, s + [0]);
  }

  /** The strings, first one highest, each recorded by its user address. */
  method PushStrings(hb: array<Byte>, argv: seq<seq<Byte>>, base: nat) returns (sp: nat, vas: array<Word>)
    requires hb.Length == STK_SIZE && hb[..] == Zeros(STK_SIZE) && |Strings(argv)| <= STK_SIZE
    requires 0 < base && base + STK_SIZE <= WORD
    modifies hb
    ensures fresh(vas) && vas[..] == Addresses(argv, base)
    ensures sp == STK_SIZE - |Strings(argv)| && hb[..] == Zeros(sp) + Strings(argv)
  {
    vas := new Word[|argv|](_ => 0);
    sp := STK_SIZE;
    assert argv[..0] == [] && Zeros(STK_SIZE) + [] == Zeros(STK_SIZE);
    for i := 0 to |argv|
      invariant Down(argv, i) <= STK_SIZE && sp == STK_SIZE - Down(argv, i)
      invariant hb[..] == Zeros(sp) + Strings(argv[..i])
      invariant forall k :: 0 <= k < i ==> vas[k] == Addresses(argv, base)[k]
    {
      hide Strings, Zeros;
      StringsTail(argv, i + 1);
      StringStep(argv, i);
      sp := PushString(hb, sp, argv[i], Strings(argv[..i]));
      vas[i] := base + sp;
    }
    assert argv[..|argv|] == argv;
  }

  /** PUT: one more word. */
  method Put(hb: array<Byte>, o: nat, v: Word, ghost lo: nat, ghost vs: seq<Word>, ghost gap: nat, ghost top: seq<Byte>)
    returns (now: nat)
    requires Filled(hb[..], lo, vs, gap, top) && o == lo + 8 * |vs| && gap >= 8
    modifies hb
    ensures now == o + 8 && Filled(hb[..], lo, vs + [v], gap - 8, top)
  {
    hide Filled, Over, Words, Le;
    PutNext(hb[..], lo, vs, gap, top, v);
    Store(hb, o, Le(8, v));
    now := o + 8;
  }

  lemma PutNext(s: seq<Byte>, lo: nat, vs: seq<Word>, gap: nat, top: seq<Byte>, v: Word)
    requires Filled(s, lo, vs, gap, top) && gap >= 8
    ensures lo + 8 * |vs| + 8 <= |s|
    ensures Filled(Over(s, lo + 8 * |vs|, Le(8, v)), lo, vs + [v], gap - 8, top)
  {
    WordsSnoc(vs, v);
    hide Words, Le;
    var head := Zeros(lo) + Words(vs);
    assert Zeros(gap)[8..] == Zeros(gap - 8);
    assert s[..lo + 8 * |vs|] == head;
    assert s[lo + 8 * |vs| + 8..] == Zeros(gap - 8) + top;
    assert head + Le(8, v) == Zeros(lo) + Words(vs + [v]);
  }

  lemma {:induction false} WordsSnoc(vs: seq<Word>, v: Word)
    ensures Words(vs + [v]) == Words(vs) + Le(8, v)
  {
    hide Le;
    if vs == [] {
      assert vs + [v] == [v] && [v][1..] == [];
    } else {
      WordsSnoc(vs[1..], v);
      assert (vs + [v])[1..] == vs[1..] + [v];
    }
  }

  method PutPair(hb: array<Byte>, o: nat, key: Word, value: Word, ghost lo: nat, ghost vs: seq<Word>, ghost gap: nat,
                 ghost top: seq<Byte>) returns (now: nat)
    requires Filled(hb[..], lo, vs, gap, top) && o == lo + 8 * |vs| && gap >= 16
    modifies hb
    ensures now == o + 16 && Filled(hb[..], lo, vs + [key, value], gap - 16, top)
  {
    hide Filled;
    now := Put(hb, o, key, lo, vs, gap, top);
    now := Put(hb, now, value, lo, vs + [key], gap - 8, top);
    assert vs + [key] + [value] == vs + [key, value];
  }

  /** argc, the argv pointers and the two nulls. */
  method PutPointers(hb: array<Byte>, o: nat, vas: array<Word>, ghost gap: nat, ghost top: seq<Byte>) returns (now: nat)
    requires Filled(hb[..], o, [], gap, top) && gap >= 8 * (vas.Length + 3) && vas.Length < WORD
    modifies hb
    ensures now == o + 8 * (vas.Length + 3)
    ensures Filled(hb[..], o, [vas.Length] + old(vas[..]) + [0] + [0], gap - 8 * (vas.Length + 3), top)
  {
    hide Filled;
    ghost var ps: seq<Word> := old(vas[..]);
    ghost var none: seq<Word> := [];
    now := Put(hb, o, vas.Length, o, none, gap, top);
    assert none + [vas.Length] == [vas.Length] + ps[..0];
    for i := 0 to vas.Length
      invariant vas[..] == ps && now == o + 8 * (i + 1)
      invariant Filled(hb[..], o, [vas.Length] + ps[..i], gap - 8 * (i + 1), top)
    {
      now := Put(hb, now, vas[i], o, [vas.Length] + ps[..i], gap - 8 * (i + 1), top);
      assert [vas.Length] + ps[..i] + [ps[i]] == [vas.Length] + ps[..i + 1];
    }
    assert ps[..vas.Length] == ps;
    ghost var left := gap - 8 * (vas.Length + 1);
    now := Put(hb, now, 0, o, [vas.Length] + ps, left, top);
    now := Put(hb, now, 0, o, [vas.Length] + ps + [0], left - 8, top);
  }

  /** The auxiliary vector and its AT_NULL. */
  method PutAux(hb: array<Byte>, o: nat, f: Facts, random: Word, ghost lo: nat, ghost vs: seq<Word>, ghost gap: nat,
                ghost top: seq<Byte>)
    requires Filled(hb[..], lo, vs, gap, top) && o == lo + 8 * |vs| && gap >= 144
    modifies hb
    ensures Filled(hb[..], lo, vs + Flat(AuxVector(f, random)) + [AT_NULL, 0], gap - 144, top)
  {
    hide Filled;
    ghost var aux := AuxVector(f, random);
    var now := PutPair(hb, o, AT_PHDR, f.phdr, lo, vs, gap, top);
    ghost var v1 := vs + [AT_PHDR, f.phdr];
    now := PutPair(hb, now, AT_PHENT, f.phent, lo, v1, gap - 16, top);
    ghost var v2 := v1 + [AT_PHENT, f.phent];
    now := PutPair(hb, now, AT_PHNUM, f.phnum, lo, v2, gap - 32, top);
    ghost var v3 := v2 + [AT_PHNUM, f.phnum];
    now := PutPair(hb, now, AT_PAGESZ, PAGE_SIZE_AUX, lo, v3, gap - 48, top);
    ghost var v4 := v3 + [AT_PAGESZ, PAGE_SIZE_AUX];
    now := PutPair(hb, now, AT_ENTRY, f.entry, lo, v4, gap - 64, top);
    ghost var v5 := v4 + [AT_ENTRY, f.entry];
    now := PutPair(hb, now, AT_RANDOM, random, lo, v5, gap - 80, top);
    ghost var v6 := v5 + [AT_RANDOM, random];
    now := PutPair(hb, now, AT_SYSINFO, f.gate, lo, v6, gap - 96, top);
    ghost var v7 := v6 + [AT_SYSINFO, f.gate];
    now := PutPair(hb, now, AT_SYSINFO_EHDR, f.vdso, lo, v7, gap - 112, top);
    ghost var v8 := v7 + [AT_SYSINFO_EHDR, f.vdso];
    now := PutPair(hb, now, AT_NULL, 0, lo, v8, gap - 128, top);
    FlatAux(f, random, vs);
  }

  lemma FlatAux(f: Facts, random: Word, vs: seq<Word>)
    ensures vs + [AT_PHDR, f.phdr] + [AT_PHENT, f.phent] + [AT_PHNUM, f.phnum] + [AT_PAGESZ, PAGE_SIZE_AUX]
              + [AT_ENTRY, f.entry] + [AT_RANDOM, random] + [AT_SYSINFO, f.gate] + [AT_SYSINFO_EHDR, f.vdso]
            == vs + Flat(AuxVector(f, random))
  {
    var aux := AuxVector(f, random);
    FlatSplit(aux[..4], aux[4..]);
    assert aux[..4] + aux[4..] == aux;
    FlatFour(aux[..4]);
    FlatFour(aux[4..]);
  }

  lemma FlatFour(a: seq<Aux>)
    requires |a| == 4
    ensures Flat(a) == [a[0].key, a[0].value, a[1].key, a[1].value, a[2].key, a[2].value, a[3].key, a[3].value]
  {
    assert a[1..][1..] == a[2..] && a[2..][1..] == a[3..] && a[3..][1..] == [];
    assert Flat(a[3..]) == [a[3].key, a[3].value];
    assert Flat(a[2..]) == [a[2].key, a[2].value] + Flat(a[3..]);
    assert Flat(a[1..]) == [a[1].key, a[1].value] + Flat(a[2..]);
  }

  lemma {:induction false} FlatSplit(a: seq<Aux>, b: seq<Aux>)
    ensures Flat(a + b) == Flat(a) + Flat(b)
  {
    if a == [] {
      assert a + b == b;
    } else {
      FlatSplit(a[1..], b);
      assert (a + b)[1..] == a[1..] + b;
    }
  }

  /** Where AT_RANDOM points. */
  function RandomAt(argv: seq<seq<Byte>>, base: nat): (va: Word)
    requires Roomy(argv) && base + STK_SIZE <= WORD
    ensures base <= va && va + 16 <= base + STK_SIZE
  {
    base + STK_SIZE - |Strings(argv)| - 16
  }

  lemma FilledLaid(m: seq<Byte>, base: nat, sp: nat, gap: nat, argv: seq<seq<Byte>>, aux: seq<Aux>)
    requires 0 < base && base + STK_SIZE <= WORD && |m| == STK_SIZE && |Strings(argv)| <= STK_SIZE && |argv| < WORD
    requires Filled(m, sp, Vector(Addresses(argv, base), aux), gap, RANDOM_BYTES + Strings(argv))
    ensures sp + 16 + |Strings(argv)| <= STK_SIZE
    ensures Laid(m, base, sp, argv, aux)
    ensures m[STK_SIZE - |Strings(argv)| - 16..STK_SIZE - |Strings(argv)|] == RANDOM_BYTES
    ensures m[..sp] == Zeros(sp)
  {
    hide Words, Strings, Addresses, Vector;
    var vs := Words(Vector(Addresses(argv, base), aux));
    assert m[..sp] == Zeros(sp);
    assert m[sp..][..|vs|] == vs;
    assert m[STK_SIZE - |Strings(argv)|..] == Strings(argv);
  }

  lemma VectorIs(vas: seq<Word>, aux: seq<Aux>)
    requires |vas| < WORD
    ensures [|vas|] + vas + [0] + [0] + Flat(aux) + [AT_NULL, 0] == Vector(vas, aux)
  {
  }

  /** The whole pointer vector. */
  method PutVector(hb: array<Byte>, sp: nat, vas: array<Word>, f: Facts, random: Word, ghost gap: nat, ghost top: seq<Byte>)
    requires Filled(hb[..], sp, [], gap, top) && gap >= 8 * (vas.Length + 21) && vas.Length < WORD
    modifies hb
    ensures Filled(hb[..], sp, Vector(old(vas[..]), AuxVector(f, random)), gap - 8 * (vas.Length + 21), top)
  {
    hide Filled, Vector, AuxVector;
    ghost var ps := vas[..];
    var o := PutPointers(hb, sp, vas, gap, top);
    PutAux(hb, o, f, random, sp, [|ps|] + ps + [0] + [0], gap - 8 * (|ps| + 3), top);
    VectorIs(ps, AuxVector(f, random));
  }

  /** Where a vector of so many words starts below `sp`: on a sixteen-byte boundary. */
  method Aligned(sp: nat, words: nat) returns (now: nat)
    requires 8 * words + 23 <= sp
    ensures now % 16 == 0 && now + 8 * words <= sp <= now + 8 * words + 23
  {
    now := sp - sp % 16;
    if words % 2 == 1 { now := now - 8; }
    now := now - words * 8;
  }

  /** The image in the buffer, from argc at `sp` up. */
  method Build(argv: seq<seq<Byte>>, base: nat, f: Facts) returns (hb: array<Byte>, sp: nat)
    requires 0 < base && base % 16 == 0 && base + STK_SIZE <= WORD && Roomy(argv)
    ensures fresh(hb) && hb.Length == 0x80_0000 && 16 <= sp && sp % 16 == 0
    ensures sp + 16 + |Strings(argv)| <= STK_SIZE && |argv| < WORD
    ensures Laid(hb[..], base, sp, argv, AuxVector(f, RandomAt(argv, base)))
    ensures var r := RandomAt(argv, base) - base; hb[r..r + 16] == RANDOM_BYTES
    ensures hb[..sp] == Zeros(sp)
  {
    hide Filled, Strings, Over, Zeros, Vector, Words, Addresses, Laid, AuxVector;
    hb := new Byte[STK_SIZE](_ => 0);
    AllZero(hb[..]);
    var vas;
    sp, vas := PushStrings(hb, argv, base);
    OverZeros(sp, Strings(argv), RANDOM_BYTES);
    sp := sp - 16;
    Store(hb, sp, RANDOM_BYTES);
    var random: Word := base + sp;
    ghost var top, room := RANDOM_BYTES + Strings(argv), sp;
    var words := 1 + (|argv| + 1) + 1 + 2 * 9;
    sp := Aligned(sp, words);
    FilledFirst(hb[..], sp, room - sp, top);
    PutVector(hb, sp, vas, f, random, room - sp, top);
    FilledLaid(hb[..], base, sp, room - sp - 8 * words, argv, AuxVector(f, random));
  }

  lemma AllZero(s: seq<Byte>)
    requires forall i :: 0 <= i < |s| ==> s[i] == 0
    ensures s == Zeros(|s|)
  {
  }

  lemma FilledFirst(s: seq<Byte>, lo: nat, gap: nat, top: seq<Byte>)
    requires s == Zeros(lo + gap) + top
    ensures Filled(s, lo, [], gap, top)
  {
    assert Zeros(lo + gap) == Zeros(lo) + Zeros(gap);
  }

  /** `exec_enter` through `thread_start`: the image copied to the user's stack, and
      `ret`, the address to return to, in the slot at the stack pointer. One word up from
      there, 16-aligned, a program reads its arguments, no environment and the whole
      auxiliary vector; AT_RANDOM leads to the sixteen bytes. */
  method ExecEnter(argv: seq<seq<Byte>>, base: nat, f: Facts, ret: Word) returns (stack: array<Byte>, rsp: nat)
    requires 0 < base && base % 16 == 0 && base + STK_SIZE <= WORD && AreStrings(argv) && Roomy(argv)
    ensures stack.Length == 0x80_0000 && base <= rsp && rsp + 8 <= base + STK_SIZE && (rsp + 8) % 16 == 0
    ensures WordOf(stack[rsp - base..rsp - base + 8]) == ret
    ensures |argv| < WORD && ReadStart(stack[..], base, rsp + 8 - base)
            == Some(Start(|argv|, argv, [], AuxVector(f, RandomAt(argv, base))))
    ensures var r := RandomAt(argv, base) - base;
            stack[r..r + 16] == [0x9e, 0x37, 0x79, 0xb9, 0x7f, 0x4a, 0x7c, 0x15, 0xf3, 0x9c, 0xc0, 0x60, 0x5c, 0xed, 0xc8, 0x34]
    ensures forall i :: 0 <= i < rsp - base ==> stack[i] == 0
    ensures Laid(stack[..], base, rsp + 8 - base, argv, AuxVector(f, RandomAt(argv, base)))
  {
    hide Laid, Strings, AreStrings, ReadStart, AuxVector, Over, Zeros, WordOf, Le;
    var hb, sp := Build(argv, base, f);
    stack := new Byte[STK_SIZE](_ => 0);
    AllZero(stack[..]);
    ghost var m := hb[..];
    Copied(stack[..], m, sp);
    Store(stack, sp, hb[sp..]);
    rsp := base + sp;
    SumAligned(base, sp);
    Entered(m, base, sp, argv, AuxVector(f, RandomAt(argv, base)), RandomAt(argv, base), ret);
    rsp := rsp - rsp % 16 - 8;
    Store(stack, rsp - base, Le(8, ret));
  }

  lemma SumAligned(a: nat, b: nat)
    requires a % 16 == 0 && b % 16 == 0
    ensures (a + b) % 16 == 0
  {
    assert a + b == 16 * (a / 16 + b / 16);
  }

  /** With the return slot planted, what is read back. */
  lemma Entered(m: seq<Byte>, base: nat, sp: nat, argv: seq<seq<Byte>>, aux: seq<Aux>, random: nat, ret: Word)
    requires 0 < base && base + STK_SIZE <= WORD && AreStrings(argv) && Laid(m, base, sp, argv, aux)
    requires forall i :: 0 <= i < |aux| ==> aux[i].key != AT_NULL
    requires 8 <= sp && sp + 16 + |Strings(argv)| <= |m| && m[..sp] == Zeros(sp) && |argv| < WORD
    requires base + sp <= random && random + 16 <= base + |m|
    ensures var p := Over(m, sp - 8, Le(8, ret));
            && |p| == |m| && Laid(p, base, sp, argv, aux) && ReadStart(p, base, sp) == Some(Start(|argv|, argv, [], aux))
            && p[random - base..random - base + 16] == m[random - base..random - base + 16]
            && WordOf(p[sp - 8..sp]) == ret && forall i :: 0 <= i < sp - 8 ==> p[i] == 0
  {
    hide Laid, Strings, AreStrings, ReadStart, WordOf, Le;
    Planted(m, base, sp, argv, aux, ret);
    var p := Over(m, sp - 8, Le(8, ret));
    StartReads(p, base, sp, argv, aux);
    WordBack(ret, []);
    assert Le(8, ret) + [] == Le(8, ret);
    assert p[random - base..random - base + 16] == p[sp..][random - base - sp..random - base - sp + 16];
    assert m[random - base..random - base + 16] == m[sp..][random - base - sp..random - base - sp + 16];
    forall i | 0 <= i < sp - 8 ensures p[i] == 0 { assert p[i] == p[..sp - 8][i]; }
  }

  lemma Copied(s: seq<Byte>, m: seq<Byte>, sp: nat)
    requires |s| == |m| && sp <= |m| && s == Zeros(|m|) && m[..sp] == Zeros(sp)
    ensures Over(s, sp, m[sp..]) == m
  {
    assert s[..sp] == Zeros(sp);
    assert m == m[..sp] + m[sp..];
  }

  /** The return slot just below argc disturbs nothing from argc up. */
  lemma Planted(m: seq<Byte>, base: nat, sp: nat, argv: seq<seq<Byte>>, aux: seq<Aux>, ret: Word)
    requires 0 < base && base + STK_SIZE <= WORD && Laid(m, base, sp, argv, aux)
    requires 8 <= sp && sp + 16 + |Strings(argv)| <= |m| && m[..sp] == Zeros(sp)
    ensures var p := Over(m, sp - 8, Le(8, ret));
            && Laid(p, base, sp, argv, aux)
            && p[sp..] == m[sp..] && p[..sp - 8] == Zeros(sp - 8) && p[sp - 8..sp] == Le(8, ret)
  {
    hide Le, Words, Strings, Vector, Addresses;
    var p := Over(m, sp - 8, Le(8, ret));
    assert p[sp..] == m[sp..];
    var top := STK_SIZE - |Strings(argv)|;
    assert p[top..] == p[sp..][top - sp..] == m[top..];
    assert Zeros(sp)[..sp - 8] == Zeros(sp - 8);
    assert p[..sp - 8] == m[..sp][..sp - 8];
  }
}
