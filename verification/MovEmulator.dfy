/** Carrying a decoded access out through a thread pointer, and the handler that
    resumes after it (spike/fs-base-fault/fs-fault-probe.c:233-479). */
module MovEmulator {
  import opened Bytes
  import opened MovForms
  import opened MovDecoder

  /** `memcpy` into memory. */
  function Put(mem: map<Word, Byte>, at: int, bytes: seq<Byte>): (out: map<Word, Byte>)
    ensures |bytes| == 0 ==> out == mem
  {
    if bytes == [] then mem
    else Put(mem, at, bytes[..|bytes| - 1])[Slot(at, |bytes| - 1) := bytes[|bytes| - 1]]
  }

  /** A destination slot after a load of `size` bytes. */
  function Fit(size: nat, v: Word, before: Word): Word {
    if size == 8 then v
    else if size == 4 then v % 0x1_0000_0000
    else if size == 2 then before - before % 0x1_0000 + v % 0x1_0000
    else before - before % 0x100 + v % 0x100
  }

  /** The 64-bit value a load brings in. */
  function Fetched(o: Insn, bytes: seq<Byte>): Word {
    if o.signExtend then Wrap(Signed(bytes)) else Wrap(Unsigned(bytes))
  }

  predicate InsnOk(o: Insn) {
    o.reg < 16 && o.memSize in {1, 2, 4, 8}
  }

  /** The instruction's effect, at the address the thread pointer gives. */
  function Emulated(o: Insn, tp: Word, s: State): State
    requires |s.regs| == 16 && InsnOk(o) && Mapped(s.mem, tp + o.ea, o.memSize)
  {
    var at := tp + o.ea;
    if o.store then
      s.(mem := Put(s.mem, at, Le(o.memSize, if o.hasReg then s.regs[o.reg] else o.imm)))
    else
      s.(regs := s.regs[o.reg := Fit(o.dstSize, Fetched(o, BytesAt(s.mem, at, o.memSize)), s.regs[o.reg])])
  }

  // ---- it is what the architecture does ----

  lemma SlotsDiffer(at: int, j: nat, k: nat)
    requires j < k < WORD
    ensures Slot(at, j) != Slot(at, k)
  {
    var q := (at + k) / WORD - (at + j) / WORD;
    assert k - j == WORD * q + Slot(at, k) - Slot(at, j);
  }

  lemma {:induction false} PutBytes(mem: map<Word, Byte>, at: int, bytes: seq<Byte>)
    requires Mapped(mem, at, |bytes|) && |bytes| < WORD
    ensures var out := Put(mem, at, bytes);
            && out.Keys == mem.Keys
            && Mapped(out, at, |bytes|) && BytesAt(out, at, |bytes|) == bytes
            && (forall x :: x in mem && (forall k :: 0 <= k < |bytes| ==> x != Slot(at, k)) ==> out[x] == mem[x])
  {
    hide Slot;
    if bytes != [] {
      var n := |bytes| - 1;
      var less := Put(mem, at, bytes[..n]);
      PutBytes(mem, at, bytes[..n]);
      var out := Put(mem, at, bytes);
      assert Slot(at, n) in mem;
      forall k | 0 <= k < n ensures out[Slot(at, k)] == bytes[k] {
        SlotsDiffer(at, k, n);
        assert BytesAt(less, at, n)[k] == bytes[..n][k];
      }
    }
  }

  /** The bit arithmetic on a slot is the architecture's rule, byte for byte. */
  lemma FitFits(size: nat, v: Word, before: Word)
    requires size in {1, 2, 4, 8}
    ensures Fitted(size, v, before, Fit(size, v, before))
  {
    Spans();
    if size == 4 {
      var w := v % Span(4);
      ModUnique(w, Span(4), 0, w);
      LePrefix(4, 8, w);
      LeMod(4, v, w);
      assert Le(8, w) == Le(8, w)[..4] + Le(8, w)[4..];
    } else if size != 8 {
      var after := Fit(size, v, before);
      var p := Span(size);
      ModUnique(after, p, before / p, v % p);
      LePrefix(size, 8, after);
      LePrefix(size, 8, before);
      LeMod(size, v, after);
      assert Le(8, after) == Le(8, after)[..size] + Le(8, after)[size..];
    }
  }

  /** Fitting only looks at a value modulo 2^64. */
  lemma FittedWrap(size: nat, v: int, before: Word, after: Word)
    requires size in {1, 2, 4, 8} && Fitted(size, Wrap(v), before, after)
    ensures Fitted(size, v, before, after)
  {
    Spans();
    WrapMod(size, v);
    LeMod(size, v, Wrap(v));
  }

  lemma ModOfMod(v: int, m: int, f: int)
    requires m > 0 && f > 0
    ensures m * f > 0 && (v % (m * f)) % m == v % m
  {
    assert m * f > 0;
    var d, w := v / (m * f), v % (m * f);
    var q, r := w / m, w % m;
    assert v == m * f * d + w && w == m * q + r;
    assert m * f * d == m * (f * d);
    assert v == m * (f * d + q) + r;
    ModUnique(v, m, f * d + q, r);
  }

  lemma WrapMod(size: nat, v: int)
    requires size in {1, 2, 4, 8}
    ensures v % Span(size) == Wrap(v) % Span(size)
  {
    Spans();
    ModOfMod(v, Span(size), if size == 1 then 0x100_0000_0000_0000 else if size == 2 then 0x1_0000_0000_0000
                            else if size == 4 then 0x1_0000_0000 else 1);
  }

  /** The state the handler resumes in. */
  function Resumed(o: Insn, tp: Word, s: State): State
    requires |s.regs| == 16 && InsnOk(o) && Mapped(s.mem, tp + o.ea, o.memSize)
  {
    Emulated(o, tp, s).(rip := Wrap(s.rip + o.len))
  }

  lemma LoadExecutes(a: Asm, o: Insn, tp: Word, s: State)
    requires WellFormed(a) && |s.regs| == 16 && Means(o, a, s.regs, s.rip) && InsnOk(o) && !o.store
    requires Mapped(s.mem, tp + o.ea, o.memSize)
    ensures Executes(a, tp, s, Resumed(o, tp, s))
  {
    hide Encode, Effective, Fit, Fitted, Mapped, IsPrefix, OperandOk;
    var bytes := BytesAt(s.mem, tp + o.ea, o.memSize);
    var size := if a.op.Extend? then a.op.to else a.op.size;
    var before := s.regs[o.reg];
    FitFits(size, Fetched(o, bytes), before);
    FittedWrap(size, Loaded(a.op, bytes), before, Fit(size, Fetched(o, bytes), before));
  }

  lemma StoreExecutes(a: Asm, o: Insn, tp: Word, s: State)
    requires WellFormed(a) && |s.regs| == 16 && Means(o, a, s.regs, s.rip) && InsnOk(o) && o.store
    requires Mapped(s.mem, tp + o.ea, o.memSize)
    ensures Executes(a, tp, s, Resumed(o, tp, s))
  {
    hide Encode, Effective, Put, BytesAt, Mapped, Slot, IsPrefix, OperandOk, Le;
    PutBytes(s.mem, tp + o.ea, Le(o.memSize, if o.hasReg then s.regs[o.reg] else o.imm));
  }

  // ---- the decoder and the handler as they run ----

  datatype Mode = Off | Observe | Emulating | Counting

  class Context {
    const regs: array<Word>
    var rip: Word
    var mem: map<Word, Byte>

    constructor (s: State)
      requires |s.regs| == 16
      ensures Valid() && fresh(regs) && Now() == s
    {
      regs := new Word[16](i requires 0 <= i < 16 => s.regs[i]);
      rip, mem := s.rip, s.mem;
      new;
      assert regs[..] == s.regs;
    }

    ghost predicate Valid() {
      regs.Length == 16
    }

    ghost function Now(): State
      reads this, regs
    {
      State(regs[..], rip, mem)
    }

    /** `decode`: the prefix loop, then the fields in order. */
    method Decode(code: seq<Byte>) returns (d: Decoded<Insn>)
      requires Valid()
      ensures d == Reading(code, regs[..], rip)
    {
      ghost var all := Scan(code, 0, false, false);
      var i, fs, small := 0, false, false;
      while true
        invariant 0 <= i <= |code|
        invariant Scan(code, i, fs, small) == all
        decreases |code| - i
      {
        if i == |code| { return Bad(RunsOff); }
        if code[i] == 0x64 {
          fs := true;
        } else if code[i] == 0x66 {
          small := true;
        } else if code[i] == 0x67 {
          return Bad(AddressSize);
        } else if !Skipped(code[i]) {
          break;
        }
        i := i + 1;
      }
      d := AfterPrefixes(code, Prefixes(i, fs, small), regs[..], rip);
    }

    /** `emulate`: nothing without a thread pointer. */
    method Emulate(o: Insn, tp: Word)
      requires Valid() && InsnOk(o) && (tp != 0 ==> Mapped(mem, tp + o.ea, o.memSize))
      modifies this`mem, regs
      ensures Now() == if tp == 0 then old(Now()) else Emulated(o, tp, old(Now()))
    {
      if tp == 0 { return; }
      ghost var before := Now();
      var at := tp + o.ea;
      if o.store {
        mem := Put(mem, at, Le(o.memSize, if o.hasReg then regs[o.reg] else o.imm));
      } else {
        regs[o.reg] := Fit(o.dstSize, Fetched(o, BytesAt(mem, at, o.memSize)), regs[o.reg]);
        assert regs[..] == before.regs[o.reg := regs[o.reg]];
      }
    }

    /** The access the handler would make is to mapped memory. */
    ghost predicate Reachable(code: seq<Byte>, tp: Word)
      reads this, regs
      requires Valid()
    {
      var d := Reading(code, regs[..], rip);
      d.Good? && d.value.segFs && tp != 0 ==> Mapped(mem, tp + d.value.ea, d.value.memSize)
    }

    /** `veh`: emulate a faulting FS access and resume after it, or pass the fault on. */
    method Handle(mode: Mode, violation: bool, code: seq<Byte>, tp: Word) returns (resumed: bool)
      requires Valid() && Reachable(code, tp)
      modifies this, regs
      ensures resumed <==> !mode.Off? && violation && FsMove(code)
      ensures var d := Reading(code, old(regs[..]), old(rip));
              && (resumed ==> d.Good?)
              && (!resumed ==> Now() == old(Now()))
              && (resumed ==> rip == Wrap(old(rip) + d.value.len))
              && (resumed && (mode.Observe? || tp == 0) ==> regs[..] == old(regs[..]) && mem == old(mem))
      ensures resumed && !mode.Observe? && tp != 0 ==>
                AsEncoded(code, tp, old(Now()), Now())
    {
      hide Reading, AsEncoded, Mapped, Emulated, InsnOk, FsMove;
      FsMoveRead(code, regs[..], rip);
      resumed := false;
      if mode.Off? || !violation { return; }
      var d := Decode(code);
      if d.Bad? || !d.value.segFs { return; }
      var o := d.value;
      ReadingFits(code, regs[..], rip);
      ghost var before := Now();
      if !mode.Observe? { Emulate(o, tp); }
      rip := Wrap(rip + o.len);
      resumed := true;
      if !mode.Observe? && tp != 0 { HandledExecutes(code, o, tp, before); }
    }
  }

  /** The bytes begin with a move behind an FS override. */
  ghost predicate FsMove(code: seq<Byte>) {
    exists a: Asm :: Shaped(a) && Encode(a) <= code && 0x64 in a.prefixes
  }

  /** That is what the handler's decoder reads as an FS access. */
  lemma FsMoveRead(code: seq<Byte>, regs: seq<Word>, rip: Word)
    requires |regs| == 16
    ensures FsMove(code) <==> Reading(code, regs, rip).Good? && Reading(code, regs, rip).value.segFs
  {
    hide Reading, Shaped, Encode;
    var d := Reading(code, regs, rip);
    if d.Good? {
      var a := EncodingRead(code, regs, rip);
      DecodeEncode(a, code, regs, rip);
    }
    if a: Asm :| Shaped(a) && Encode(a) <= code && 0x64 in a.prefixes {
      DecodeEncode(a, code, regs, rip);
    }
  }

  /** The stack protector's SUB RDX, FS:[0x28] is passed on, whatever follows. */
  lemma CanaryCheckRefused(rest: seq<Byte>)
    ensures !FsMove([0x64, 0x48, 0x2b, 0x14, 0x25, 0x28, 0, 0, 0] + rest)
  {
    var code := [0x64, 0x48, 0x2b, 0x14, 0x25, 0x28, 0, 0, 0] + rest;
    var regs: seq<Word> := seq(16, _ => 0);
    assert code[0] == 0x64 && code[1] == 0x48 && code[2] == 0x2b && code[2..][0] == 0x2b;
    assert Scan(code, 0, false, false) == Scan(code, 1, true, false) == Good(Prefixes(1, true, false));
    assert RexAt(code, 1) == 0x48 && Drop(code, 2) == code[2..];
    FsMoveRead(code, regs, 0);
    hide Scan, Encode, Shaped;
  }

  /** From `s` to `t` is what the FS access the bytes begin with does, with FS base `tp`. */
  ghost predicate AsEncoded(code: seq<Byte>, tp: Word, s: State, t: State)
    requires |s.regs| == 16
  {
    forall a: Asm :: WellFormed(a) && Encode(a) <= code && SegmentOf(a.prefixes).Fs? ==> Executes(a, tp, s, t)
  }

  lemma HandledExecutes(code: seq<Byte>, o: Insn, tp: Word, s: State)
    requires |s.regs| == 16 && Reading(code, s.regs, s.rip) == Good(o)
    requires InsnOk(o) && Mapped(s.mem, tp + o.ea, o.memSize)
    ensures AsEncoded(code, tp, s, Resumed(o, tp, s))
  {
    hide Reading, Executes, Means, Resumed, Shaped, Encode, Mapped;
    forall a: Asm | WellFormed(a) && Encode(a) <= code && SegmentOf(a.prefixes).Fs?
      ensures Executes(a, tp, s, Resumed(o, tp, s))
    {
      DecodeEncode(a, code, s.regs, s.rip);
      if o.store { StoreExecutes(a, o, tp, s); } else { LoadExecutes(a, o, tp, s); }
    }
  }

  lemma ReadingFits(code: seq<Byte>, regs: seq<Word>, rip: Word)
    requires |regs| == 16
    ensures var d := Reading(code, regs, rip); d.Good? ==> InsnOk(d.value)
  {
    hide Scan, DispAt, RegBit, IndexValue, Top, Middle, Low;
  }

  lemma {:induction false} SegmentIn(prefixes: seq<Byte>)
    ensures SegmentOf(prefixes).Fs? ==> 0x64 in prefixes
    ensures SegmentOf(prefixes).Flat? ==> 0x64 !in prefixes
  {
    if prefixes != [] {
      var front := prefixes[..|prefixes| - 1];
      SegmentIn(front);
      assert prefixes == front + [prefixes[|prefixes| - 1]];
    }
  }

  /** Every form is read, and taken for an FS access when it carries the FS override. That is
      right exactly when no GS override comes last. */
  lemma FsFormsAreHandled(a: Asm, code: seq<Byte>, regs: seq<Word>, rip: Word)
    requires Shaped(a) && |regs| == 16 && Encode(a) <= code
    ensures var d := Reading(code, regs, rip);
            && d.Good? && (d.value.segFs <==> 0x64 in a.prefixes)
            && ((d.value.segFs <==> SegmentOf(a.prefixes).Fs?) <==> !(0x64 in a.prefixes && SegmentOf(a.prefixes).Gs?))
  {
    hide Reading, Encode, SegmentOf, Shaped;
    DecodeEncode(a, code, regs, rip);
    SegmentIn(a.prefixes);
  }

  /** MOV EAX, [base] behind these prefixes. */
  function PlainLoad(prefixes: seq<Byte>, base: Reg): Asm {
    Asm(prefixes, Spare(false, false, false, false, false, 0), Load(4, 0), Direct(base, 0, D0))
  }

  lemma DirectBytes(base: Reg, reg: nat)
    requires base < 8 && base != 4 && base != 5 && reg < 8
    ensures OperandOk(Direct(base, 0, D0)) && OperandBytes(Direct(base, 0, D0), reg) == [ModRm(0, reg, base)]
  {
    hide ModRm, Sib, Le;
    assert base % 8 == base;
    assert [ModRm(0, reg, base)] + DispBytes(0, D0) == [ModRm(0, reg, base)];
  }

  lemma PlainLoadBytes(prefixes: seq<Byte>, base: Reg)
    requires base < 8 && base != 4 && base != 5 && 0x66 !in prefixes
    requires forall k :: 0 <= k < |prefixes| ==> IsPrefix(prefixes[k])
    ensures WellFormed(PlainLoad(prefixes, base)) && Shaped(PlainLoad(prefixes, base))
    ensures Encode(PlainLoad(prefixes, base)) == prefixes + [0x8b, ModRm(0, 0, base)]
  {
    hide ModRm, OperandBytes, OperandOk, Span;
    DirectBytes(base, 0);
    var a := PlainLoad(prefixes, base);
    assert RexBytes(a) == [] && Opcode(a.op) == [0x8b] && ImmBytes(a.op) == [] && RegField(a) == 0;
  }

  /** On FS, GS, MOV EAX, [base] the reading is an FS access, the instruction a GS access. */
  lemma GsAfterFs(base: Reg, regs: seq<Word>, rip: Word)
    requires base < 8 && base != 4 && base != 5 && |regs| == 16
    ensures var a, code := PlainLoad([0x64, 0x65], base), [0x64, 0x65, 0x8b, ModRm(0, 0, base)];
            var d := Reading(code, regs, rip);
            WellFormed(a) && Encode(a) == code && SegmentOf(a.prefixes).Gs? && d.Good? && d.value.segFs
  {
    hide Reading, Encode, WellFormed, Shaped, ModRm;
    PlainLoadBytes([0x64, 0x65], base);
    FsFormsAreHandled(PlainLoad([0x64, 0x65], base), [0x64, 0x65, 0x8b, ModRm(0, 0, base)], regs, rip);
  }

  /** An operand that needs no REX prefix. */
  predicate LowRegisters(at: Operand) {
    match at
    case Direct(base, _, _) => base < 8
    case Scaled(base, index, _, _, _) => (base.Some? ==> base.value < 8) && (index.Some? ==> index.value < 8)
    case RipRelative(_) => true
  }

  /** AH, CH, DH and BH, which only an encoding without REX reaches, are refused, whatever the
      prefixes and the operand. */
  lemma HighBytesRefused(store: bool, reg: nat, at: Operand, prefixes: seq<Byte>, rest: seq<Byte>, regs: seq<Word>, rip: Word)
    requires 4 <= reg < 8 && OperandOk(at) && LowRegisters(at) && |regs| == 16
    requires forall k :: 0 <= k < |prefixes| ==> IsPrefix(prefixes[k])
    ensures var code := prefixes + [if store then 0x88 else 0x8a] + OperandBytes(at, reg) + rest;
            Reading(code, regs, rip) == Bad(HighByte)
  {
    hide OperandBytes, Reading, IsPrefix, OperandOk, LowRegisters, Scan;
    var op := if store then 0x88 else 0x8a;
    var code := prefixes + [op] + OperandBytes(at, reg) + rest;
    var n := |prefixes|;
    NoPrefixByte(store);
    assert forall k :: 0 <= k < n ==> code[k] == prefixes[k];
    ScanStops(code, n, 0, false, false);
    assert code[n] == op && code[n + 1..] == OperandBytes(at, reg) + rest;
    OperandPlain(at, reg, code[n + 1..], regs);
    HighByteAt(code, Prefixes(n, 0x64 in code[0..n], 0x66 in code[0..n]), store, reg, regs, rip);
  }

  lemma NoPrefixByte(store: bool)
    ensures var op := if store then 0x88 else 0x8a; !IsPrefix(op) && !Skipped(op) && op != 0x67
  {
  }

  /** Such an operand reads back under no REX prefix. */
  lemma OperandPlain(at: Operand, reg: nat, tail: seq<Byte>, regs: seq<Word>)
    requires reg < 8 && OperandOk(at) && LowRegisters(at) && |regs| == 16 && OperandBytes(at, reg) <= tail
    ensures var d := DecodeOperand(tail, 0, regs); d.Good? && d.value.regField == reg
  {
    hide OperandBytes, DecodeOperand, OperandOk;
    var a := Asm([], Spare(false, false, false, false, false, 0), Load(4, reg), at);
    assert WellFormed(a) && RegField(a) == reg && !RexX(a) && !RexB(a);
    hide WellFormed, RexX, RexB, RegField, LowRegisters;
    OperandRead(a, tail, 0, regs, 0);
  }

  lemma HighByteAt(code: seq<Byte>, p: Prefixes, store: bool, reg: nat, regs: seq<Word>, rip: Word)
    requires |regs| == 16 && p.len + 1 <= |code| && 4 <= reg < 8 && Scan(code, 0, false, false) == Good(p)
    requires code[p.len] == if store then 0x88 else 0x8a
    requires var d := DecodeOperand(code[p.len + 1..], 0, regs); d.Good? && d.value.regField == reg
    ensures Reading(code, regs, rip) == Bad(HighByte)
  {
    hide Scan, DecodeOperand, DispAt, Wrap;
    assert RexAt(code, p.len) == 0;
    assert code[p.len..][0] == code[p.len];
  }
}
