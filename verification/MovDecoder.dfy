/** The decoder and emulator of spike/fs-base-fault/fs-fault-probe.c: reading a
    faulting access back from its bytes and carrying it out through a thread
    pointer. */
module MovDecoder {
  import opened Basics
  import opened Bytes
  import opened MovForms

  datatype Why = RunsOff | AddressSize | TwoByteOpcode | NotAMove | RegisterOperand | HighByte

  datatype Decoded<T> = Bad(why: Why) | Good(value: T) {
    predicate IsFailure() { Bad? }
    function PropagateFailure<U>(): Decoded<U>
      requires Bad?
    {
      Bad(why)
    }
    function Extract(): T
      requires Good?
    {
      value
    }
  }

  /** `struct insn`. */
  datatype Insn = Insn(len: nat, store: bool, memSize: nat, dstSize: nat, signExtend: bool, hasReg: bool, reg: nat,
                       imm: int, ea: Word, segFs: bool)

  datatype Prefixes = Prefixes(len: nat, fs: bool, small: bool)

  predicate Skipped(b: Byte) {
    b in {0x65, 0x2e, 0x3e, 0x26, 0x36, 0xf0, 0xf2, 0xf3}
  }

  /** The prefix loop, from byte `i` on. */
  function Scan(code: seq<Byte>, i: nat, fs: bool, small: bool): Decoded<Prefixes>
    requires i <= |code|
    decreases |code| - i
  {
    if i == |code| then Bad(RunsOff)
    else if code[i] == 0x64 then Scan(code, i + 1, true, small)
    else if Skipped(code[i]) then Scan(code, i + 1, fs, small)
    else if code[i] == 0x66 then Scan(code, i + 1, fs, true)
    else if code[i] == 0x67 then Bad(AddressSize)
    else Good(Prefixes(i, fs, small))
  }

  /** The REX byte, or 0. */
  function RexAt(code: seq<Byte>, i: nat): (rex: nat)
    ensures rex == 0 || 0x40 <= rex <= 0x4f
  {
    if i < |code| && 0x40 <= code[i] <= 0x4f then code[i] else 0
  }

  /** What the opcode says: its length, and how the access moves. */
  datatype Kind = Kind(len: nat, store: bool, memSize: nat, dstSize: nat, signExtend: bool, hasReg: bool, immSize: nat)

  function DecodeOpcode(tail: seq<Byte>, opsize: nat): Decoded<Kind> {
    if tail == [] then Bad(RunsOff)
    else match tail[0]
      case 0x0f =>
        if |tail| < 2 then Bad(RunsOff)
        else (match tail[1]
              case 0xb6 => Good(Kind(2, false, 1, opsize, false, true, 0))
              case 0xb7 => Good(Kind(2, false, 2, opsize, false, true, 0))
              case 0xbe => Good(Kind(2, false, 1, opsize, true, true, 0))
              case 0xbf => Good(Kind(2, false, 2, opsize, true, true, 0))
              case _ => Bad(TwoByteOpcode))
      case 0x88 => Good(Kind(1, true, 1, 0, false, true, 0))
      case 0x89 => Good(Kind(1, true, opsize, 0, false, true, 0))
      case 0x8a => Good(Kind(1, false, 1, 1, false, true, 0))
      case 0x8b => Good(Kind(1, false, opsize, opsize, false, true, 0))
      case 0xc6 => Good(Kind(1, true, 1, 0, false, false, 1))
      case 0xc7 => Good(Kind(1, true, opsize, 0, false, false, if opsize == 8 then 4 else opsize))
      case _ => Bad(NotAMove)
  }

  /** ModRM, SIB and displacement: their length, the reg field, and the address. */
  datatype Place = Place(len: nat, regField: nat, ripRel: bool, sum: int, disp: int)

  function DispAt(tail: seq<Byte>, i: nat, n: nat): Decoded<int> {
    if |tail| < i + n then Bad(RunsOff) else Good(Signed(tail[i..i + n]))
  }

  function RegBit(rex: nat, bit: nat): (n: nat)
    requires bit > 0
    ensures n == 0 || n == 8
  {
    8 * ((rex / bit) % 2)
  }

  /** The three fields of a ModRM or SIB byte. */
  function Top(b: Byte): (n: nat) ensures n < 4 { b / 64 }
  function Middle(b: Byte): (n: nat) ensures n < 8 { (b / 8) % 8 }
  function Low(b: Byte): (n: nat) ensures n < 8 { b % 8 }

  function Power2(n: nat): (p: int)
    ensures p > 0
  {
    if n == 0 then 1 else 2 * Power2(n - 1)
  }

  lemma PowerIsFactor(scale: nat)
    requires scale < 4
    ensures Power2(scale) == Factor(scale)
  {
    assert Power2(1) == 2 * Power2(0);
    assert Power2(2) == 2 * Power2(1);
    assert Power2(3) == 2 * Power2(2);
  }

  /** `*reg_slot(c, idx) << scale`, unless the field means there is no index. */
  function IndexValue(regs: seq<Word>, field: nat, rexX: nat, scale: nat): Word
    requires |regs| == 16 && field + rexX < 16
  {
    if field == 4 && rexX == 0 then 0 else Wrap(regs[field + rexX] * Power2(scale))
  }

  function DecodeOperand(tail: seq<Byte>, rex: nat, regs: seq<Word>): Decoded<Place>
    requires |regs| == 16
  {
    if tail == [] then Bad(RunsOff)
    else
      var mod, regField, rm := Top(tail[0]), Middle(tail[0]), Low(tail[0]);
      if mod == 3 then Bad(RegisterOperand)
      else if rm == 4 then
        if |tail| < 2 then Bad(RunsOff)
        else
          var sib := tail[1];
          var index := IndexValue(regs, Middle(sib), RegBit(rex, 2), Top(sib));
          if Low(sib) == 5 && mod == 0 then
            var disp :- DispAt(tail, 2, 4);
            Good(Place(6, regField, false, index, disp))
          else
            DispTail(tail, 2, mod, regField, regs[Low(sib) + RegBit(rex, 1)] + index)
      else if rm == 5 && mod == 0 then
        var disp :- DispAt(tail, 1, 4);
        Good(Place(5, regField, true, 0, disp))
      else DispTail(tail, 1, mod, regField, regs[rm + RegBit(rex, 1)])
  }

  function DispTail(tail: seq<Byte>, i: nat, mod: nat, regField: nat, sum: int): Decoded<Place> {
    var n := if mod == 1 then 1 else if mod == 2 then 4 else 0;
    if n == 0 then Good(Place(i, regField, false, sum, 0))
    else
      var disp :- DispAt(tail, i, n);
      Good(Place(i + n, regField, false, sum, disp))
  }

  /** What `decode` makes of the bytes at RIP. */
  function Reading(code: seq<Byte>, regs: seq<Word>, rip: Word): Decoded<Insn>
    requires |regs| == 16
  {
    var p :- Scan(code, 0, false, false);
    AfterPrefixes(code, p, regs, rip)
  }

  /** The decoder once the prefixes are read. */
  function AfterPrefixes(code: seq<Byte>, p: Prefixes, regs: seq<Word>, rip: Word): Decoded<Insn>
    requires |regs| == 16
  {
    var rex := RexAt(code, p.len);
    var i := if rex == 0 then p.len else p.len + 1;
    var opsize := if RegBit(rex, 8) == 8 then 8 else if p.small then 2 else 4;
    var kind :- DecodeOpcode(Drop(code, i), opsize);
    var j := i + kind.len;
    var at :- DecodeOperand(Drop(code, j), rex, regs);
    var k := j + at.len;
    var imm :- if kind.immSize == 0 then Good(0) else DispAt(code, k, kind.immSize);
    Finish(p, rex, kind, at, k + kind.immSize, imm, rip)
  }

  /** The last checks, and the instruction. */
  function Finish(p: Prefixes, rex: nat, kind: Kind, at: Place, len: nat, imm: int, rip: Word): Decoded<Insn> {
    var reg := at.regField + RegBit(rex, 4);
    if kind.memSize == 1 && rex == 0 && kind.hasReg && reg >= 4 && (kind.store || kind.dstSize == 1) then Bad(HighByte)
    else
      var ea := if at.ripRel then Wrap(rip + len + at.disp) else Wrap(at.sum + at.disp);
      Good(Insn(len, kind.store, kind.memSize, kind.dstSize, kind.signExtend, kind.hasReg, reg, imm, ea, p.fs))
  }

  function Drop(code: seq<Byte>, i: nat): seq<Byte> {
    if i <= |code| then code[i..] else []
  }

  // ---- decoding undoes encoding ----

  lemma {:induction false} ScanStops(code: seq<Byte>, n: nat, i: nat, fs: bool, small: bool)
    requires i <= n < |code|
    requires forall k :: 0 <= k < n ==> IsPrefix(code[k]) || code[k] == 0xf0
    requires !IsPrefix(code[n]) && !Skipped(code[n]) && code[n] != 0x67
    ensures Scan(code, i, fs, small) == Good(Prefixes(n, fs || 0x64 in code[i..n], small || 0x66 in code[i..n]))
    decreases n - i
  {
    if i < n {
      assert code[i..n] == [code[i]] + code[i + 1..n];
      if code[i] == 0x64 { ScanStops(code, n, i + 1, true, small); }
      else if code[i] == 0x66 { ScanStops(code, n, i + 1, fs, true); }
      else { ScanStops(code, n, i + 1, fs, small); }
    }
  }

  function OpSizeOf(a: Asm): nat {
    if RexW(a) then 8 else if 0x66 in a.prefixes then 2 else 4
  }

  lemma OpcodeRead(a: Asm, tail: seq<Byte>)
    requires Shaped(a) && Opcode(a.op) <= tail
    ensures var op := a.op;
            DecodeOpcode(tail, OpSizeOf(a)) == Good(KindOf(op))
  {
    assert tail[0] == Opcode(a.op)[0];
    if a.op.Extend? { assert tail[1] == Opcode(a.op)[1]; }
  }

  lemma DispRead(tail: seq<Byte>, i: nat, disp: int, size: DispSize)
    requires DispFits(disp, size) && i <= |tail| && DispBytes(disp, size) <= tail[i..]
    ensures size == D1 ==> DispAt(tail, i, 1) == Good(disp)
    ensures size == D4 ==> DispAt(tail, i, 4) == Good(disp)
  {
    Spans();
    match size
    case D0 =>
    case D1 => SignedOfLe(1, disp); assert tail[i..i + 1] == Le(1, disp);
    case D4 => SignedOfLe(4, disp); assert tail[i..i + 4] == Le(4, disp);
  }

  lemma ByteFields(hi: nat, mid: nat, low: nat)
    requires hi < 4 && mid < 8 && low < 8
    ensures var b := ModRm(hi, mid, low);
            b < 256 && Top(b) == hi && Middle(b) == mid && Low(b) == low
  {
    DivMod(8 * hi + mid, low, 8);
    DivMod(hi, mid, 8);
    DivMod(hi, 8 * mid + low, 64);
  }

  lemma DivMod(q: nat, r: nat, m: nat)
    requires r < m && m in {8, 64}
    ensures (m * q + r) / m == q && (m * q + r) % m == r
  {
    if m == 8 {
      assert (8 * q + r) / 8 == q;
    } else {
      assert (64 * q + r) / 64 == q;
    }
  }

  /** The fields of a ModRM byte without a SIB byte, and the displacement after it. */
  lemma PlainBytes(mod: nat, reg: nat, rm: nat, disp: int, size: DispSize, tail: seq<Byte>)
    requires mod < 4 && reg < 8 && rm < 8 && DispFits(disp, size)
    requires [ModRm(mod, reg, rm)] + DispBytes(disp, size) <= tail
    ensures |tail| >= 1 && Top(tail[0]) == mod && Middle(tail[0]) == reg && Low(tail[0]) == rm
    ensures |DispBytes(disp, size)| == if size == D0 then 0 else if size == D1 then 1 else 4
    ensures size == D1 ==> DispAt(tail, 1, 1) == Good(disp)
    ensures size == D4 ==> DispAt(tail, 1, 4) == Good(disp)
  {
    ByteFields(mod, reg, rm);
    assert tail[0] == ModRm(mod, reg, rm);
    assert DispBytes(disp, size) <= tail[1..];
    DispRead(tail, 1, disp, size);
  }

  /** The base register's number, from its field and its REX bit. */
  lemma BaseRead(base: Reg, rexB: nat)
    requires rexB == 8 * Bit(base >= 8)
    ensures base % 8 < 8 && base % 8 + rexB == base
  {
  }

  lemma DirectRead(a: Asm, base: Reg, disp: int, size: DispSize, tail: seq<Byte>, rex: nat, regs: seq<Word>, next: Word)
    requires Shaped(a) && a.at == Direct(base, disp, size) && |regs| == 16 && OperandBytes(a.at, RegField(a)) <= tail
    requires RegBit(rex, 1) == 8 * Bit(RexB(a))
    ensures var d := DecodeOperand(tail, rex, regs);
            && d.Good? && d.value.len == |OperandBytes(a.at, RegField(a))| && d.value.regField == RegField(a)
            && !d.value.ripRel && Wrap(d.value.sum + d.value.disp) == Effective(a.at, regs, next)
  {
    hide Top, Middle, Low, IndexValue, RegField, RegBit, DispAt, DispBytes, Bit, OperationOk, Wrap, ModRm;
    PlainBytes(Mod(size), RegField(a), base % 8, disp, size, tail);
    BaseRead(base, RegBit(rex, 1));
  }

  /** The index of a SIB byte, scaled. */
  lemma IndexRead(regs: seq<Word>, index: Opt<Reg>, scale: nat, rexX: nat)
    requires |regs| == 16 && (index.Some? ==> index.value != 4) && scale < 4
    requires rexX == 8 * Bit(index.Some? && index.value >= 8)
    ensures var field := if index.Some? then index.value % 8 else 4;
            && field + rexX < 16
            && IndexValue(regs, field, rexX, scale) == Wrap(Value(regs, index) * Factor(scale))
  {
    PowerIsFactor(scale);
    if index.Some? { BaseRead(index.value, rexX); }
  }

  /** The fields of ModRM and SIB, and the displacement after them. */
  lemma ScaledBytes(at: Operand, reg: nat, tail: seq<Byte>)
    requires at.Scaled? && OperandOk(at) && reg < 8 && OperandBytes(at, reg) <= tail
    ensures |tail| >= 2 && |OperandBytes(at, reg)| == 2 + (if at.size == D0 then 0 else if at.size == D1 then 1 else 4)
    ensures Top(tail[0]) == (if at.sbase.Some? then Mod(at.size) else 0) && Middle(tail[0]) == reg && Low(tail[0]) == 4
    ensures Top(tail[1]) == at.scale
    ensures Middle(tail[1]) == IndexField(at) && Low(tail[1]) == BaseField(at)
    ensures at.size == D1 ==> DispAt(tail, 2, 1) == Good(at.disp)
    ensures at.size == D4 ==> DispAt(tail, 2, 4) == Good(at.disp)
  {
    hide OperandBytes, DispAt, DispBytes, ModRm, Top, Middle, Low;
    ScaledParts(at, reg, tail);
    ByteFields(if at.sbase.Some? then Mod(at.size) else 0, reg, 4);
    ByteFields(at.scale, IndexField(at), BaseField(at));
    DispRead(tail, 2, at.disp, at.size);
  }

  function IndexField(at: Operand): (n: nat)
    requires at.Scaled?
    ensures n < 8
  {
    if at.index.Some? then at.index.value % 8 else 4
  }

  function BaseField(at: Operand): (n: nat)
    requires at.Scaled?
    ensures n < 8
  {
    if at.sbase.Some? then at.sbase.value % 8 else 5
  }

  lemma ScaledParts(at: Operand, reg: nat, tail: seq<Byte>)
    requires at.Scaled? && OperandOk(at) && reg < 8 && OperandBytes(at, reg) <= tail
    ensures |tail| >= 2 && |OperandBytes(at, reg)| == 2 + (if at.size == D0 then 0 else if at.size == D1 then 1 else 4)
    ensures tail[0] == ModRm(if at.sbase.Some? then Mod(at.size) else 0, reg, 4)
    ensures tail[1] == ModRm(at.scale, IndexField(at), BaseField(at))
    ensures DispBytes(at.disp, at.size) <= tail[2..]
  {
    hide Le;
    var bytes := OperandBytes(at, reg);
    assert tail[0] == bytes[0] && tail[1] == bytes[1];
    assert bytes[2..] == DispBytes(at.disp, at.size);
  }

  lemma ScaledRead(a: Asm, tail: seq<Byte>, rex: nat, regs: seq<Word>, next: Word)
    requires Shaped(a) && a.at.Scaled? && |regs| == 16 && OperandBytes(a.at, RegField(a)) <= tail
    requires RegBit(rex, 2) == 8 * Bit(RexX(a)) && RegBit(rex, 1) == 8 * Bit(RexB(a))
    ensures var d := DecodeOperand(tail, rex, regs);
            && d.Good? && d.value.len == |OperandBytes(a.at, RegField(a))| && d.value.regField == RegField(a)
            && !d.value.ripRel && Wrap(d.value.sum + d.value.disp) == Effective(a.at, regs, next)
  {
    hide Top, Middle, Low, IndexValue, RegField, RegBit, DispAt, DispBytes, OperandBytes, OperationOk, Wrap, Factor, ModRm, Sib, Bit;
    var at := a.at;
    ScaledBytes(at, RegField(a), tail);
    IndexRead(regs, at.index, at.scale, RegBit(rex, 2));
    if at.sbase.Some? { BaseRead(at.sbase.value, RegBit(rex, 1)); }
    WrapSum(Value(regs, at.sbase), Value(regs, at.index) * Factor(at.scale), at.disp);
  }

  lemma RipRead(a: Asm, tail: seq<Byte>, rex: nat, regs: seq<Word>, next: Word)
    requires Shaped(a) && a.at.RipRelative? && |regs| == 16 && OperandBytes(a.at, RegField(a)) <= tail
    ensures var d := DecodeOperand(tail, rex, regs);
            && d.Good? && d.value.len == |OperandBytes(a.at, RegField(a))| && d.value.regField == RegField(a)
            && d.value.ripRel && Wrap(next + d.value.disp) == Effective(a.at, regs, next)
  {
    hide Top, Middle, Low, IndexValue, RegField, RegBit, DispAt, DispBytes, OperationOk, Wrap, ModRm;
    PlainBytes(0, RegField(a), 5, a.at.disp, D4, tail);
  }

  /** The address bytes read back as the address, given the REX byte they go with. */
  lemma OperandRead(a: Asm, tail: seq<Byte>, rex: nat, regs: seq<Word>, next: Word)
    requires Shaped(a) && |regs| == 16 && OperandBytes(a.at, RegField(a)) <= tail
    requires RegBit(rex, 2) == 8 * Bit(RexX(a)) && RegBit(rex, 1) == 8 * Bit(RexB(a))
    ensures var d := DecodeOperand(tail, rex, regs);
            && d.Good? && d.value.len == |OperandBytes(a.at, RegField(a))| && d.value.regField == RegField(a)
            && d.value.ripRel == a.at.RipRelative?
            && (if d.value.ripRel then Wrap(next + d.value.disp) else Wrap(d.value.sum + d.value.disp)) == Effective(a.at, regs, next)
  {
    if a.at.RipRelative? { RipRead(a, tail, rex, regs, next); }
    else if a.at.Direct? { DirectRead(a, a.at.base, a.at.disp, a.at.size, tail, rex, regs, next); }
    else { ScaledRead(a, tail, rex, regs, next); }
    hide *;
  }

  lemma WrapSum(b: int, x: int, d: int)
    ensures Wrap(b + Wrap(x) + d) == Wrap(b + x + d)
  {
    var q := x / WORD;
    assert x == WORD * q + Wrap(x);
    var y := b + Wrap(x) + d;
    assert b + x + d == WORD * (y / WORD + q) + Wrap(y);
    ModUnique(b + x + d, WORD, y / WORD + q, Wrap(y));
  }

  /** The REX bits as the decoder takes them apart. */
  lemma RexFields(w: bool, r: bool, x: bool, b: bool)
    ensures var rex := 0x40 + 8 * Bit(w) + 4 * Bit(r) + 2 * Bit(x) + Bit(b);
            && RegBit(rex, 8) == 8 * Bit(w) && RegBit(rex, 4) == 8 * Bit(r)
            && RegBit(rex, 2) == 8 * Bit(x) && RegBit(rex, 1) == 8 * Bit(b) && 0x40 <= rex <= 0x4f
  {
  }

  /** The REX byte an encoding has, or 0. */
  function RexOf(a: Asm): nat {
    if HasRex(a) then RexByte(a) else 0
  }

  lemma RexRead(a: Asm)
    ensures RegBit(RexOf(a), 8) == 8 * Bit(RexW(a)) && RegBit(RexOf(a), 4) == 8 * Bit(RexR(a))
    ensures RegBit(RexOf(a), 2) == 8 * Bit(RexX(a)) && RegBit(RexOf(a), 1) == 8 * Bit(RexB(a))
    ensures RexOf(a) == 0 <==> !HasRex(a)
  {
    RexFields(RexW(a), RexR(a), RexX(a), RexB(a));
  }

  /** Where the parts of an encoding lie in the bytes it begins. */
  lemma PartsAt(a: Asm, code: seq<Byte>)
    requires Shaped(a) && Encode(a) <= code
    ensures var n, r := |a.prefixes|, |RexBytes(a)|;
            var j := n + r + |Opcode(a.op)|;
            var k := j + |OperandBytes(a.at, RegField(a))|;
            && k + ImmSize(a.op) == |Encode(a)| <= |code|
            && code[..n] == a.prefixes
            && RexBytes(a) <= code[n..] && Opcode(a.op) <= code[n + r..]
            && OperandBytes(a.at, RegField(a)) <= code[j..]
            && code[k..k + ImmSize(a.op)] == ImmBytes(a.op)
  {
    hide Opcode, OperandBytes, RexBytes;
    var e := Encode(a);
    var n, r, o := |a.prefixes|, |RexBytes(a)|, |Opcode(a.op)|;
    var k := n + r + o + |OperandBytes(a.at, RegField(a))|;
    assert code[..|e|] == e;
    assert code[..n] == e[..n] == a.prefixes;
    assert e[n..n + r] == RexBytes(a);
    assert e[n + r..n + r + o] == Opcode(a.op);
    assert e[n + r + o..k] == OperandBytes(a.at, RegField(a));
    assert e[k..] == ImmBytes(a.op);
    assert code[n..][..r] == e[n..n + r];
    assert code[n + r..][..o] == e[n + r..n + r + o];
    assert code[n + r + o..][..k - (n + r + o)] == e[n + r + o..k];
    assert code[k..|e|] == e[k..];
  }

  /** The prefixes and the REX byte read back. */
  lemma PrefixesRead(a: Asm, code: seq<Byte>)
    requires Shaped(a) && Encode(a) <= code
    ensures Scan(code, 0, false, false) == Good(Prefixes(|a.prefixes|, 0x64 in a.prefixes, 0x66 in a.prefixes))
    ensures RexAt(code, |a.prefixes|) == RexOf(a)
  {
    PartsAt(a, code);
    var n := |a.prefixes|;
    var head := RexBytes(a) + Opcode(a.op);
    assert code[n] == code[n..][0];
    if !HasRex(a) { assert code[n] == Opcode(a.op)[0]; } else { assert code[n] == RexByte(a); }
    assert forall i :: 0 <= i < n ==> code[i] == code[..n][i];
    ScanStops(code, n, 0, false, false);
    assert code[0..n] == a.prefixes;
  }

  /** The instruction read is the one encoded. */
  ghost predicate Means(i: Insn, a: Asm, regs: seq<Word>, rip: Word)
    requires Shaped(a) && |regs| == 16
  {
    && i.len == |Encode(a)| && i.segFs == (0x64 in a.prefixes)
    && i.store == (a.op.Store? || a.op.StoreImm?) && i.memSize == MemSize(a.op)
    && i.hasReg == !a.op.StoreImm? && (i.hasReg ==> i.reg == a.op.reg)
    && (a.op.StoreImm? ==> i.imm == a.op.imm)
    && (!i.store ==> i.dstSize == (if a.op.Extend? then a.op.to else a.op.size))
    && i.signExtend == (a.op.Extend? && a.op.signed)
    && i.ea == Effective(a.at, regs, Wrap(rip + i.len))
  }

  function KindOf(op: Operation): Kind {
    Kind(|Opcode(op)|, op.Store? || op.StoreImm?, MemSize(op),
         if op.Load? then op.size else if op.Extend? then op.to else 0,
         op.Extend? && op.signed, !op.StoreImm?, ImmSize(op))
  }

  lemma FinishMeans(a: Asm, at: Place, imm: int, regs: seq<Word>, rip: Word)
    requires Shaped(a) && |regs| == 16
    requires at.regField == RegField(a) && at.ripRel == a.at.RipRelative? && (a.op.StoreImm? ==> imm == a.op.imm)
    requires (if at.ripRel then Wrap(Wrap(rip + |Encode(a)|) + at.disp) else Wrap(at.sum + at.disp))
             == Effective(a.at, regs, Wrap(rip + |Encode(a)|))
    ensures var p := Prefixes(|a.prefixes|, 0x64 in a.prefixes, 0x66 in a.prefixes);
            var d := Finish(p, RexOf(a), KindOf(a.op), at, |Encode(a)|, imm, rip);
            d.Good? && Means(d.value, a, regs, rip)
  {
    hide Encode, Effective, RegBit, Wrap, HasRex, RexOf, Opcode, OperandOk, RexR;
    RexRead(a);
    RegRead(a);
    WrapSum(at.disp, rip + |Encode(a)|, 0);
  }

  /** The stages of the decoder, put together. */
  lemma ReadingOf(code: seq<Byte>, regs: seq<Word>, rip: Word, p: Prefixes, rex: nat, r: nat, kind: Kind, at: Place, imm: int)
    requires |regs| == 16 && Scan(code, 0, false, false) == Good(p) && RexAt(code, p.len) == rex
    requires r == if rex == 0 then 0 else 1
    requires p.len + r + kind.len <= |code|
    requires DecodeOpcode(code[p.len + r..], if RegBit(rex, 8) == 8 then 8 else if p.small then 2 else 4) == Good(kind)
    requires DecodeOperand(code[p.len + r + kind.len..], rex, regs) == Good(at)
    requires if kind.immSize == 0 then imm == 0 else DispAt(code, p.len + r + kind.len + at.len, kind.immSize) == Good(imm)
    ensures Reading(code, regs, rip) == Finish(p, rex, kind, at, p.len + r + kind.len + at.len + kind.immSize, imm, rip)
  {
    hide Scan, RexAt, DecodeOpcode, DecodeOperand, DispAt, Finish, RegBit;
  }

  /** Decoding undoes encoding: every form, every prefix, every register and
      displacement, whatever bytes follow. */
  lemma DecodeEncode(a: Asm, code: seq<Byte>, regs: seq<Word>, rip: Word)
    requires Shaped(a) && |regs| == 16 && Encode(a) <= code
    ensures var d := Reading(code, regs, rip); d.Good? && Means(d.value, a, regs, rip)
  {
    hide Scan, RexAt, DecodeOpcode, DecodeOperand, Encode, OperandBytes, Opcode, RexBytes, ImmBytes, Effective, RegBit, Wrap, HasRex, RexOf;
    hide Finish, IsPrefix, OperationOk, OperandOk, Means, Reading, DispAt, ImmSize;
    PartsAt(a, code);
    PrefixesRead(a, code);
    RexRead(a);
    RexLength(a);
    var n, r := |a.prefixes|, |RexBytes(a)|;
    var j := n + r + |Opcode(a.op)|;
    var k := j + |OperandBytes(a.at, RegField(a))|;
    RegRead(a);
    OpcodeRead(a, code[n + r..]);
    var next := Wrap(rip + |Encode(a)|);
    OperandRead(a, code[j..], RexOf(a), regs, next);
    var d := DecodeOperand(code[j..], RexOf(a), regs).value;
    ImmRead(a, code, k);
    var imm := if a.op.StoreImm? then a.op.imm else 0;
    ReadingOf(code, regs, rip, Prefixes(n, 0x64 in a.prefixes, 0x66 in a.prefixes), RexOf(a), r, KindOf(a.op), d, imm);
    FinishMeans(a, d, imm, regs, rip);
  }

  lemma RexLength(a: Asm)
    ensures |RexBytes(a)| == if HasRex(a) then 1 else 0
  {
  }

  lemma ImmRead(a: Asm, code: seq<Byte>, k: nat)
    requires Shaped(a) && k + ImmSize(a.op) <= |code| && code[k..k + ImmSize(a.op)] == ImmBytes(a.op)
    ensures a.op.StoreImm? <==> ImmSize(a.op) > 0
    ensures a.op.StoreImm? ==> DispAt(code, k, ImmSize(a.op)) == Good(a.op.imm)
  {
    if a.op.StoreImm? { SignedOfLe(ImmSize(a.op), a.op.imm); }
  }

  /** The register number read back, and no byte register taken for a high half. */
  lemma RegRead(a: Asm)
    requires Shaped(a)
    ensures !a.op.StoreImm? ==> RegField(a) + 8 * Bit(RexR(a)) == a.op.reg
    ensures !HasRex(a) && (a.op.Load? || a.op.Store?) && a.op.size == 1 ==> a.op.reg < 4
    ensures OpSizeOf(a) == if RexW(a) then 8 else if 0x66 in a.prefixes then 2 else 4
  {
  }

  // ---- and reads nothing else ----

  lemma {:induction false} ScanBack(code: seq<Byte>, i: nat, fs: bool, small: bool)
    requires i <= |code| && Scan(code, i, fs, small).Good?
    ensures var p := Scan(code, i, fs, small).value;
            && i <= p.len < |code| && p.fs == (fs || 0x64 in code[i..p.len]) && p.small == (small || 0x66 in code[i..p.len])
            && forall k :: i <= k < p.len ==> IsPrefix(code[k]) || code[k] == 0xf0
    decreases |code| - i
  {
    var b := code[i];
    if b == 0x64 || Skipped(b) || b == 0x66 {
      ScanBack(code, i + 1, fs || b == 0x64, small || b == 0x66);
      var p := Scan(code, i + 1, fs || b == 0x64, small || b == 0x66).value;
      assert code[i..p.len] == [b] + code[i + 1..p.len];
    }
  }

  /** A displacement that was read is the one that is written there. */
  lemma DispBack(tail: seq<Byte>, i: nat, size: DispSize)
    requires size != D0 ==> DispAt(tail, i, if size == D1 then 1 else 4).Good?
    ensures var n := if size == D0 then 0 else if size == D1 then 1 else 4;
            var disp := if size == D0 then 0 else DispAt(tail, i, n).value;
            DispFits(disp, size) && (i + n <= |tail| ==> DispBytes(disp, size) == tail[i..i + n]) && (size != D0 ==> i + n <= |tail|)
  {
    hide Le, Signed;
    Spans();
    if size == D1 { LeOfSigned(tail[i..i + 1]); }
    if size == D4 { LeOfSigned(tail[i..i + 4]); }
  }

  /** A byte is its three fields. */
  lemma FieldsMake(b: Byte)
    ensures ModRm(Top(b), Middle(b), Low(b)) == b
  {
    assert b == 8 * (b / 8) + b % 8;
    assert b / 8 == 8 * (b / 64) + (b / 8) % 8;
  }

  /** The size a ModRM byte's top field gives a displacement. */
  function SizeFor(mod: nat): DispSize {
    if mod == 1 then D1 else if mod == 2 then D4 else D0
  }

  /** The operand behind the bytes of one that was read; `w`, `x` and `b` are its REX bits. */
  lemma OperandBack(tail: seq<Byte>, rex: nat, regs: seq<Word>) returns (at: Operand)
    requires |regs| == 16 && DecodeOperand(tail, rex, regs).Good?
    ensures var d := DecodeOperand(tail, rex, regs).value;
            && OperandOk(at) && d.regField < 8 && d.len <= |tail| && OperandBytes(at, d.regField) == tail[..d.len]
    ensures BitsOf(at, rex)
  {
    hide Le, Signed, RegBit, IndexValue, Top, Middle, Low, ModRm, DispAt, DispFits, DispBytes, OperandBytes, OperandOk, BitsOf;
    if Low(tail[0]) == 4 {
      at := ScaledBack(tail, rex, regs);
    } else {
      at := PlainBack(tail, rex, regs);
    }
  }

  lemma PlainBack(tail: seq<Byte>, rex: nat, regs: seq<Word>) returns (at: Operand)
    requires |regs| == 16 && DecodeOperand(tail, rex, regs).Good? && tail != [] && Low(tail[0]) != 4
    ensures var d := DecodeOperand(tail, rex, regs).value;
            && OperandOk(at) && d.regField < 8 && d.len <= |tail| && OperandBytes(at, d.regField) == tail[..d.len]
    ensures BitsOf(at, rex)
  {
    hide Le, Signed, RegBit, IndexValue, Top, Middle, Low, ModRm, DispAt, DispFits, DispBytes;
    var mod, rm := Top(tail[0]), Low(tail[0]);
    FieldsMake(tail[0]);
    if rm == 5 && mod == 0 {
      DispBack(tail, 1, D4);
      at := RipRelative(DispAt(tail, 1, 4).value);
      assert tail[..5] == [tail[0]] + tail[1..5];
    } else {
      var size := SizeFor(mod);
      DispBack(tail, 1, size);
      var n := if size == D0 then 0 else if size == D1 then 1 else 4;
      var disp := if size == D0 then 0 else DispAt(tail, 1, n).value;
      LowPart(rm, RegBit(rex, 1));
      at := Direct(rm + RegBit(rex, 1), disp, size);
      assert tail[..1 + n] == [tail[0]] + tail[1..1 + n];
    }
  }

  lemma LowPart(field: nat, high: nat)
    requires field < 8 && (high == 0 || high == 8)
    ensures field + high < 16 && (field + high) % 8 == field && (field + high >= 8 <==> high == 8)
  {
  }

  lemma SibFields(sib: Byte, b: nat, x: nat)
    requires (b == 0 || b == 8) && (x == 0 || x == 8)
    ensures var index: Opt<Reg> := if Middle(sib) == 4 && x == 0 then None else Some(Middle(sib) + x);
            && (index.Some? ==> index.value != 4) && ((index.Some? && index.value >= 8) <==> x == 8)
            && Sib(Some(Low(sib) + b), index, Top(sib)) == sib
            && (Low(sib) == 5 ==> Sib(None, index, Top(sib)) == sib)
  {
    hide Top, Middle, Low;
    FieldsMake(sib);
    LowPart(Middle(sib), x);
    LowPart(Low(sib), b);
  }

  lemma ScaledBack(tail: seq<Byte>, rex: nat, regs: seq<Word>) returns (at: Operand)
    requires |regs| == 16 && DecodeOperand(tail, rex, regs).Good? && tail != [] && Low(tail[0]) == 4
    ensures var d := DecodeOperand(tail, rex, regs).value;
            && at.Scaled? && OperandOk(at) && d.regField < 8 && d.len <= |tail| && OperandBytes(at, d.regField) == tail[..d.len]
    ensures BitsOf(at, rex)
  {
    hide Le, Signed, RegBit, IndexValue, Top, Middle, Low, ModRm, DispAt, DispFits, DispBytes;
    var mod, sib := Top(tail[0]), tail[1];
    var b, x := RegBit(rex, 1), RegBit(rex, 2);
    FieldsMake(tail[0]);
    FieldsMake(sib);
    SibFields(sib, b, x);
    LowPart(Middle(sib), x);
    LowPart(Low(sib), b);
    var index := if Middle(sib) == 4 && x == 0 then None else Some(Middle(sib) + x);
    if Low(sib) == 5 && mod == 0 {
      DispBack(tail, 2, D4);
      at := Scaled(None, index, Top(sib), DispAt(tail, 2, 4).value, D4);
      assert tail[..6] == [tail[0], sib] + tail[2..6];
    } else {
      var size := SizeFor(mod);
      DispBack(tail, 2, size);
      var n := if size == D0 then 0 else if size == D1 then 1 else 4;
      var disp := if size == D0 then 0 else DispAt(tail, 2, n).value;
      at := Scaled(Some(Low(sib) + b), index, Top(sib), disp, size);
      assert tail[..2 + n] == [tail[0], sib] + tail[2..2 + n];
    }
  }

  /** The operation behind an opcode that was read. */
  function OpBack(tail: seq<Byte>, opsize: nat, reg: Reg, imm: int): Operation
    requires DecodeOpcode(tail, opsize).Good?
  {
    match tail[0]
    case 0x88 => Operation.Store(1, reg)
    case 0x89 => Operation.Store(opsize, reg)
    case 0x8a => Load(1, reg)
    case 0x8b => Load(opsize, reg)
    case 0xc6 => StoreImm(1, imm)
    case 0xc7 => StoreImm(opsize, imm)
    case _ => Extend(if tail[1] % 2 == 0 then 1 else 2, opsize, tail[1] >= 0xbe, reg)
  }

  lemma OpcodeBack(tail: seq<Byte>, opsize: nat, reg: Reg, imm: int)
    requires opsize in {2, 4, 8} && DecodeOpcode(tail, opsize).Good?
    requires var n := DecodeOpcode(tail, opsize).value.immSize; n > 0 ==> -Span(n) <= 2 * imm < Span(n)
    ensures var op, kind := OpBack(tail, opsize, reg, imm), DecodeOpcode(tail, opsize).value;
            && OperationOk(op) && KindOf(op) == kind && kind.len <= |tail| && Opcode(op) == tail[..kind.len]
            && (SizeOf(op) == 0 || SizeOf(op) == opsize) && (!op.StoreImm? ==> op.reg == reg) && (op.StoreImm? ==> op.imm == imm)
  {
    hide Span;
    assert tail[..1] == [tail[0]];
    if tail[0] == 0x0f { assert tail[..2] == [tail[0], tail[1]]; }
  }

  /** The REX byte is its four bits. */
  lemma RexBack(rex: nat)
    requires 0x40 <= rex <= 0x4f
    ensures rex == 0x40 + RegBit(rex, 8) + RegBit(rex, 4) / 2 + RegBit(rex, 2) / 4 + RegBit(rex, 1) / 8
  {
  }

  /** The operand size the prefixes and the REX byte give. */
  function SizeAt(p: Prefixes, rex: nat): nat {
    if RegBit(rex, 8) == 8 then 8 else if p.small then 2 else 4
  }

  /** The operand's high register bits are the REX byte's. */
  predicate BitsOf(at: Operand, rex: nat) {
    match at
    case Direct(base, _, _) => base >= 8 <==> RegBit(rex, 1) == 8
    case Scaled(base, index, _, _, _) =>
      && (base.Some? ==> (base.value >= 8 <==> RegBit(rex, 1) == 8))
      && ((index.Some? && index.value >= 8) <==> RegBit(rex, 2) == 8)
    case RipRelative(_) => true
  }

  function SpareOf(rex: nat, field: nat): Spare {
    Spare(rex != 0, RegBit(rex, 8) == 8, RegBit(rex, 4) == 8, RegBit(rex, 2) == 8, RegBit(rex, 1) == 8, field)
  }

  /** The operation uses the registers and the size that were read. */
  predicate OpFits(op: Operation, p: Prefixes, rex: nat, field: nat) {
    && OperationOk(op) && (SizeOf(op) == 0 || SizeOf(op) == SizeAt(p, rex))
    && (!op.StoreImm? ==> op.reg == field + RegBit(rex, 4))
    && (rex == 0 && (op.Load? || op.Store?) && op.size == 1 ==> op.reg < 4)
  }

  /** The instruction behind the parts of one that was read. */
  lemma Assembled(prefixes: seq<Byte>, p: Prefixes, rex: nat, at: Operand, op: Operation, field: nat)
    requires (rex == 0 || 0x40 <= rex <= 0x4f) && field < 8 && OperandOk(at) && BitsOf(at, rex) && OpFits(op, p, rex, field)
    requires forall k :: 0 <= k < |prefixes| ==> IsPrefix(prefixes[k]) || prefixes[k] == 0xf0
    requires p.small == (0x66 in prefixes)
    ensures var a := Asm(prefixes, SpareOf(rex, field), op, at);
            Shaped(a) && RegField(a) == field && RexBytes(a) == if rex == 0 then [] else [rex]
  {
    hide IsPrefix, OperandOk, RegBit, OperationOk;
    var a := Asm(prefixes, SpareOf(rex, field), op, at);
    if !op.StoreImm? { LowPart(field, RegBit(rex, 4)); }
    assert Shaped(a) && RegField(a) == field;
    hide Shaped;
    RexSo(a, p, rex, field);
  }

  lemma RexSo(a: Asm, p: Prefixes, rex: nat, field: nat)
    requires (rex == 0 || 0x40 <= rex <= 0x4f) && a.spare == SpareOf(rex, field) && field < 8
    requires BitsOf(a.at, rex) && OpFits(a.op, p, rex, field)
    ensures RexBytes(a) == if rex == 0 then [] else [rex]
  {
    hide RegBit, OperationOk;
    NoRexBits();
    RexBits(a, p, rex, field);
    hide RexW, RexR, RexX, RexB, BitsOf, OpFits;
    if rex != 0 {
      RexBack(rex);
    } else {
      PlainRegs(a, p, field);
    }
  }

  lemma PlainRegs(a: Asm, p: Prefixes, field: nat)
    requires OpFits(a.op, p, 0, field)
    ensures !NewByteReg(a.op)
  {
  }

  lemma RexBits(a: Asm, p: Prefixes, rex: nat, field: nat)
    requires a.spare == SpareOf(rex, field) && field < 8 && BitsOf(a.at, rex) && OpFits(a.op, p, rex, field)
    ensures RexW(a) == (RegBit(rex, 8) == 8) && RexR(a) == (RegBit(rex, 4) == 8)
    ensures RexX(a) == (RegBit(rex, 2) == 8) && RexB(a) == (RegBit(rex, 1) == 8)
  {
    hide RegBit, OperationOk;
  }

  lemma NoRexBits()
    ensures RegBit(0, 8) == 0 && RegBit(0, 4) == 0 && RegBit(0, 2) == 0 && RegBit(0, 1) == 0
  {
  }

  /** What a reading went through. */
  lemma ReadingParts(code: seq<Byte>, regs: seq<Word>, rip: Word) returns (p: Prefixes, rex: nat, i: nat, kind: Kind, d: Place)
    requires |regs| == 16 && Reading(code, regs, rip).Good?
    ensures Scan(code, 0, false, false) == Good(p) && rex == RexAt(code, p.len)
    ensures i == (if rex == 0 then p.len else p.len + 1) && i <= |code|
    ensures DecodeOpcode(code[i..], SizeAt(p, rex)) == Good(kind) && i + kind.len <= |code|
    ensures DecodeOperand(code[i + kind.len..], rex, regs) == Good(d)
    ensures kind.immSize > 0 ==> DispAt(code, i + kind.len + d.len, kind.immSize).Good?
    ensures !(kind.memSize == 1 && rex == 0 && kind.hasReg && d.regField >= 4 && (kind.store || kind.dstSize == 1))
  {
    hide Scan, DecodeOperand, DecodeOpcode, DispAt, Wrap, RegBit, RexAt;
    p := Scan(code, 0, false, false).value;
    rex := RexAt(code, p.len);
    i := if rex == 0 then p.len else p.len + 1;
    kind := DecodeOpcode(Drop(code, i), SizeAt(p, rex)).value;
    OpcodeLen(Drop(code, i), SizeAt(p, rex));
    NoRexBits();
    d := DecodeOperand(Drop(code, i + kind.len), rex, regs).value;
  }

  lemma OpcodeLen(tail: seq<Byte>, opsize: nat)
    requires DecodeOpcode(tail, opsize).Good?
    ensures 0 < DecodeOpcode(tail, opsize).value.len <= |tail|
  {
  }

  /** Whatever is read is the encoding of one of these forms. */
  lemma EncodingRead(code: seq<Byte>, regs: seq<Word>, rip: Word) returns (a: Asm)
    requires |regs| == 16 && Reading(code, regs, rip).Good?
    ensures Shaped(a) && Encode(a) <= code
  {
    hide *;
    var p, rex, i, kind, d := ReadingParts(code, regs, rip);
    ScanBack(code, 0, false, false);
    var at := OperandBack(code[i + kind.len..], rex, regs);
    var k := i + kind.len + d.len;
    var imm := if kind.immSize == 0 then 0 else DispAt(code, k, kind.immSize).value;
    ImmBack(code, k, kind.immSize);
    var op := OperationBack(code[i..], p, rex, kind, d.regField, imm);
    Assembled(code[..p.len], p, rex, at, op, d.regField);
    a := Asm(code[..p.len], SpareOf(rex, d.regField), op, at);
    RexIn(code, p.len, rex);
    Gathered(a, code, i, kind.len, d.len, imm);
  }

  lemma RexIn(code: seq<Byte>, n: nat, rex: nat)
    requires n < |code| && rex == RexAt(code, n)
    ensures rex == 0 || 0x40 <= rex <= 0x4f
    ensures (if rex == 0 then [] else [rex]) == code[n..if rex == 0 then n else n + 1]
  {
  }

  /** The operation that was read, with its size and its register. */
  lemma OperationBack(tail: seq<Byte>, p: Prefixes, rex: nat, kind: Kind, field: nat, imm: int) returns (op: Operation)
    requires field < 8 && DecodeOpcode(tail, SizeAt(p, rex)) == Good(kind)
    requires kind.immSize > 0 ==> -Span(kind.immSize) <= 2 * imm < Span(kind.immSize)
    requires !(kind.memSize == 1 && rex == 0 && kind.hasReg && field >= 4 && (kind.store || kind.dstSize == 1))
    ensures OpFits(op, p, rex, field) && kind.len <= |tail| && Opcode(op) == tail[..kind.len] && ImmSize(op) == kind.immSize
    ensures ImmBytes(op) == if kind.immSize > 0 then Le(kind.immSize, imm) else []
  {
    hide DecodeOpcode, OpBack, Opcode, RegBit, Span, Le, OperationOk;
    LowPart(field, RegBit(rex, 4));
    var reg := field + RegBit(rex, 4);
    OpcodeBack(tail, SizeAt(p, rex), reg, imm);
    op := OpBack(tail, SizeAt(p, rex), reg, imm);
    KindTells(op);
    NoRexBits();
    hide KindOf, SizeOf;
  }

  lemma ImmBack(code: seq<Byte>, k: nat, n: nat)
    requires n > 0 ==> DispAt(code, k, n).Good?
    ensures n > 0 ==> k + n <= |code| && Le(n, DispAt(code, k, n).value) == code[k..k + n]
                      && -Span(n) <= 2 * DispAt(code, k, n).value < Span(n)
  {
    hide Le, Signed, Span;
    if n > 0 && k + n <= |code| { LeOfSigned(code[k..k + n]); }
  }

  /** What the kind of an operation says of it. */
  lemma KindTells(op: Operation)
    requires OperationOk(op)
    ensures var k := KindOf(op);
            && k.hasReg == !op.StoreImm? && k.immSize == ImmSize(op) && (op.StoreImm? <==> ImmSize(op) > 0)
            && ((op.Load? || op.Store?) && op.size == 1 ==> k.memSize == 1 && k.hasReg && (k.store || k.dstSize == 1))
  {
    hide Span;
  }

  /** The parts make up the front of the bytes. */
  lemma Together(a: Asm, code: seq<Byte>, i: nat, j: nat, k: nat)
    requires Shaped(a) && |a.prefixes| <= i <= j <= k && k + ImmSize(a.op) <= |code| && a.prefixes == code[..|a.prefixes|]
    requires RexBytes(a) == code[|a.prefixes|..i] && Opcode(a.op) == code[i..j]
    requires OperandBytes(a.at, RegField(a)) == code[j..k] && ImmBytes(a.op) == code[k..k + ImmSize(a.op)]
    ensures Encode(a) == code[..k + ImmSize(a.op)]
  {
    hide RexBytes, Opcode, OperandBytes, ImmBytes, ImmSize, Shaped, RegField;
    var n := |a.prefixes|;
    assert code[..n] + code[n..i] == code[..i];
    assert code[..i] + code[i..j] == code[..j];
    assert code[..j] + code[j..k] == code[..k];
  }

  lemma Gathered(a: Asm, code: seq<Byte>, i: nat, m: nat, n: nat, imm: int)
    requires Shaped(a) && |a.prefixes| <= i && i + m + n <= |code| && a.prefixes == code[..|a.prefixes|]
    requires RexBytes(a) == code[|a.prefixes|..i] && Opcode(a.op) == code[i..][..m] && OperandBytes(a.at, RegField(a)) == code[i + m..][..n]
    requires var k, size := i + m + n, ImmSize(a.op);
             if size == 0 then ImmBytes(a.op) == [] else k + size <= |code| && ImmBytes(a.op) == Le(size, imm) == code[k..k + size]
    ensures Encode(a) <= code
  {
    hide RexBytes, Opcode, OperandBytes, ImmBytes, ImmSize, Shaped, RegField, Encode, Le;
    assert code[i..][..m] == code[i..i + m] && code[i + m..][..n] == code[i + m..i + m + n];
    Together(a, code, i, i + m, i + m + n);
  }

  /** The decoder reads exactly the encodings of these forms: a byte string gives an instruction
      if and only if it begins with one, so no other opcode, no register operand and no 0x67. */
  lemma ReadsExactly(code: seq<Byte>, regs: seq<Word>, rip: Word)
    requires |regs| == 16
    ensures Reading(code, regs, rip).Good? <==> exists a: Asm :: Shaped(a) && Encode(a) <= code
  {
    hide Reading, Shaped, Encode;
    if Reading(code, regs, rip).Good? {
      var a := EncodingRead(code, regs, rip);
    }
    if a: Asm :| Shaped(a) && Encode(a) <= code {
      DecodeEncode(a, code, regs, rip);
    }
  }
}
