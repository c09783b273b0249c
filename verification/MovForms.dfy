/** The MOV, MOVZX and MOVSX memory forms of the x86-64 instruction set: what
    they are, how they are encoded (sections 2.1.5 and 2.2.1 of Intel SDM volume
    2A), and what they do. */
module MovForms {
  import opened Basics
  import opened Bytes

  type Reg = r: nat | r < 16

  /** What is moved. Registers are numbered as CONTEXT lists them. */
  datatype Operation =
    | Load(size: nat, reg: Reg)                         // 8A, 8B
    | Store(size: nat, reg: Reg)                        // 88, 89
    | StoreImm(size: nat, imm: int)                     // C6 /0, C7 /0
    | Extend(from: nat, to: nat, signed: bool, reg: Reg) // 0F B6, B7, BE, BF

  /** How many bytes of displacement are written. */
  datatype DispSize = D0 | D1 | D4

  /** Where it is moved to or from, relative to the segment base. */
  datatype Operand =
    | Direct(base: Reg, disp: int, size: DispSize)
    | Scaled(sbase: Opt<Reg>, index: Opt<Reg>, scale: nat, disp: int, size: DispSize)
    | RipRelative(disp: int)

  /** REX bits an instruction has no use for may be anything; `ext` is the field that names no
      register when a constant is stored. */
  datatype Spare = Spare(present: bool, w: bool, r: bool, x: bool, b: bool, ext: nat)

  /** One encoded instruction. */
  datatype Asm = Asm(prefixes: seq<Byte>, spare: Spare, op: Operation, at: Operand)

  // ---- which forms there are ----

  /** The segment overrides, the operand size, and the repeat prefixes a move pays no heed to.
      LOCK makes no move, and 0x67 is none of these forms. */
  predicate IsPrefix(b: Byte) {
    b in {0x26, 0x2e, 0x36, 0x3e, 0x64, 0x65, 0x66, 0xf2, 0xf3}
  }

  /** The segment an access is relative to in 64-bit mode, where only FS and GS have a base. */
  datatype Segment = Flat | Fs | Gs

  /** The last override counts. */
  function SegmentOf(prefixes: seq<Byte>): Segment {
    if prefixes == [] then Flat
    else
      var last := prefixes[|prefixes| - 1];
      if last == 0x64 then Fs else if last == 0x65 then Gs else SegmentOf(prefixes[..|prefixes| - 1])
  }

  predicate DispFits(disp: int, size: DispSize) {
    match size
    case D0 => disp == 0
    case D1 => -0x80 <= disp < 0x80
    case D4 => -0x8000_0000 <= disp < 0x8000_0000
  }

  predicate OperandOk(at: Operand) {
    match at
    case Direct(base, disp, size) => base % 8 != 4 && (base % 8 == 5 ==> size != D0) && DispFits(disp, size)
    case Scaled(base, index, scale, disp, size) =>
      && scale < 4 && DispFits(disp, size) && (index.Some? ==> index.value != 4)
      && (if base.Some? then base.value % 8 == 5 ==> size != D0 else size == D4)
    case RipRelative(disp) => DispFits(disp, D4)
  }

  /** The bytes of immediate an operation carries. */
  function ImmSize(op: Operation): nat {
    if !op.StoreImm? then 0 else if op.size == 8 then 4 else op.size
  }

  predicate OperationOk(op: Operation) {
    match op
    case Load(size, _) => size in {1, 2, 4, 8}
    case Store(size, _) => size in {1, 2, 4, 8}
    case StoreImm(size, imm) => size in {1, 2, 4, 8} && -Span(ImmSize(op)) <= 2 * imm < Span(ImmSize(op))
    case Extend(from, to, _, _) => from in {1, 2} && to in {2, 4, 8}
  }

  /** The operand size the prefixes must give; 0 if a byte operation does not care. */
  function SizeOf(op: Operation): nat {
    if op.Extend? then op.to else if op.size == 1 then 0 else op.size
  }

  /** The layout of these forms, with what the processor refuses to execute among them: behind
      LOCK, or C6 and C7 with another field than 0. */
  predicate Shaped(a: Asm) {
    && (forall k :: 0 <= k < |a.prefixes| ==> IsPrefix(a.prefixes[k]) || a.prefixes[k] == 0xf0)
    && OperationOk(a.op) && OperandOk(a.at) && a.spare.ext < 8
    && (SizeOf(a.op) == 2 ==> 0x66 in a.prefixes)
    && (SizeOf(a.op) == 4 ==> 0x66 !in a.prefixes)
  }

  /** An instruction the processor executes. */
  predicate WellFormed(a: Asm) {
    Shaped(a) && 0xf0 !in a.prefixes && (a.op.StoreImm? ==> a.spare.ext == 0)
  }

  // ---- the encoding ----

  function Bit(b: bool): (n: nat)
    ensures n < 2
  {
    if b then 1 else 0
  }

  function RegOf(op: Operation): Opt<Reg> {
    if op.StoreImm? then None else Some(op.reg)
  }

  function RexW(a: Asm): bool {
    if SizeOf(a.op) == 0 then a.spare.w else SizeOf(a.op) == 8
  }

  function RexR(a: Asm): bool {
    if RegOf(a.op).Some? then RegOf(a.op).value >= 8 else a.spare.r
  }

  function RexX(a: Asm): bool {
    if !a.at.Scaled? then a.spare.x else a.at.index.Some? && a.at.index.value >= 8
  }

  function RexB(a: Asm): bool {
    match a.at
    case Direct(base, _, _) => base >= 8
    case Scaled(base, _, _, _, _) => if base.Some? then base.value >= 8 else a.spare.b
    case RipRelative(_) => a.spare.b
  }

  /** SPL, BPL, SIL and DIL are reached only under a REX prefix. */
  predicate NewByteReg(op: Operation) {
    (op.Load? || op.Store?) && op.size == 1 && 4 <= op.reg < 8
  }

  predicate HasRex(a: Asm) {
    a.spare.present || NewByteReg(a.op) || RexW(a) || RexR(a) || RexX(a) || RexB(a)
  }

  function RexByte(a: Asm): Byte {
    0x40 + 8 * Bit(RexW(a)) + 4 * Bit(RexR(a)) + 2 * Bit(RexX(a)) + Bit(RexB(a))
  }

  function RexBytes(a: Asm): seq<Byte> {
    if HasRex(a) then [RexByte(a)] else []
  }

  function Opcode(op: Operation): seq<Byte> {
    match op
    case Load(size, _) => [if size == 1 then 0x8a else 0x8b]
    case Store(size, _) => [if size == 1 then 0x88 else 0x89]
    case StoreImm(size, _) => [if size == 1 then 0xc6 else 0xc7]
    case Extend(from, _, signed, _) => [0x0f, (if signed then 0xbe else 0xb6) + (if from == 2 then 1 else 0)]
  }

  function RegField(a: Asm): (n: nat)
    ensures n < 8
  {
    if a.op.StoreImm? then a.spare.ext % 8 else a.op.reg % 8
  }

  function Mod(size: DispSize): nat {
    match size case D0 => 0 case D1 => 1 case D4 => 2
  }

  function DispBytes(disp: int, size: DispSize): seq<Byte> {
    match size case D0 => [] case D1 => Le(1, disp) case D4 => Le(4, disp)
  }

  function ModRm(mod: nat, reg: nat, rm: nat): Byte
    requires mod < 4 && reg < 8 && rm < 8
  {
    64 * mod + 8 * reg + rm
  }

  function Sib(base: Opt<Reg>, index: Opt<Reg>, scale: nat): Byte
    requires scale < 4
  {
    64 * scale + 8 * (if index.Some? then index.value % 8 else 4) + (if base.Some? then base.value % 8 else 5)
  }

  /** ModRM, SIB and displacement. */
  function OperandBytes(at: Operand, reg: nat): seq<Byte>
    requires reg < 8 && OperandOk(at)
  {
    match at
    case Direct(base, disp, size) => [ModRm(Mod(size), reg, base % 8)] + DispBytes(disp, size)
    case Scaled(base, index, scale, disp, size) =>
      [ModRm(if base.Some? then Mod(size) else 0, reg, 4), Sib(base, index, scale)] + DispBytes(disp, size)
    case RipRelative(disp) => [ModRm(0, reg, 5)] + DispBytes(disp, D4)
  }

  function ImmBytes(op: Operation): seq<Byte> {
    if op.StoreImm? then Le(ImmSize(op), op.imm) else []
  }

  function Encode(a: Asm): (s: seq<Byte>)
    requires Shaped(a)
    ensures |s| > 0
  {
    a.prefixes + RexBytes(a) + Opcode(a.op) + OperandBytes(a.at, RegField(a)) + ImmBytes(a.op)
  }

  // ---- what an instruction does ----

  /** The registers, the instruction pointer and the mapped memory. */
  datatype State = State(regs: seq<Word>, rip: Word, mem: map<Word, Byte>)

  function Wrap(v: int): Word {
    v % WORD
  }

  function Value(regs: seq<Word>, r: Opt<Reg>): Word
    requires |regs| == 16
  {
    if r.Some? then regs[r.value] else 0
  }

  /** The factor a SIB byte's scale stands for. */
  function Factor(scale: nat): int {
    match scale case 0 => 1 case 1 => 2 case 2 => 4 case _ => 8
  }

  /** The effective address: the offset from the segment base. */
  function Effective(at: Operand, regs: seq<Word>, next: Word): Word
    requires |regs| == 16
  {
    match at
    case Direct(base, disp, _) => Wrap(regs[base] + disp)
    case Scaled(base, index, scale, disp, _) => Wrap(Value(regs, base) + Value(regs, index) * Factor(scale) + disp)
    case RipRelative(disp) => Wrap(next + disp)
  }

  function MemSize(op: Operation): nat {
    if op.Extend? then op.from else op.size
  }

  /** Byte `k` of an access at `at`, wrapping at 2^64. */
  function Slot(at: int, k: int): Word {
    Wrap(at + k)
  }

  predicate Mapped(mem: map<Word, Byte>, at: int, n: nat) {
    forall k :: 0 <= k < n ==> Slot(at, k) in mem
  }

  function BytesAt(mem: map<Word, Byte>, at: int, n: nat): (s: seq<Byte>)
    requires Mapped(mem, at, n)
    ensures |s| == n
  {
    seq(n, k requires 0 <= k < n => mem[Slot(at, k)])
  }

  /** The value an operation brings to its destination, before it is fitted in. */
  function Loaded(op: Operation, bytes: seq<Byte>): int
    requires op.Load? || op.Extend?
  {
    if op.Extend? && op.signed then Signed(bytes) else Unsigned(bytes)
  }

  /** The architecture's rule for a destination of `size` bytes: 8 and 4 fill the
      register, 2 and 1 replace its low bytes and keep the rest. */
  predicate Fitted(size: nat, v: int, before: Word, after: Word) {
    match size
    case 8 => Le(8, after) == Le(8, v)
    case 4 => Le(8, after) == Le(4, v) + Le(4, 0)
    case 2 => Le(8, after) == Le(2, v) + Le(8, before)[2..]
    case _ => Le(8, after) == Le(1, v) + Le(8, before)[1..]
  }

  /** The bytes a store leaves in memory. */
  function Stored(op: Operation, regs: seq<Word>): seq<Byte>
    requires |regs| == 16 && (op.Store? || op.StoreImm?)
  {
    if op.StoreImm? then Le(op.size, op.imm) else Le(op.size, regs[op.reg])
  }

  /** The instruction `a`, executed with its segment's base at `base`: every register, byte
      and the instruction pointer afterwards. */
  ghost predicate Executes(a: Asm, base: Word, s: State, t: State)
    requires WellFormed(a) && |s.regs| == 16
  {
    var next := Wrap(s.rip + |Encode(a)|);
    var at := base + Effective(a.at, s.regs, next);
    && t.rip == next && |t.regs| == 16 && t.mem.Keys == s.mem.Keys
    && Mapped(s.mem, at, MemSize(a.op)) && Mapped(t.mem, at, MemSize(a.op))
    && if a.op.Load? || a.op.Extend? then
         && t.mem == s.mem
         && (forall r :: 0 <= r < 16 && r != a.op.reg ==> t.regs[r] == s.regs[r])
         && Fitted(if a.op.Extend? then a.op.to else a.op.size,
                   Loaded(a.op, BytesAt(s.mem, at, MemSize(a.op))), s.regs[a.op.reg], t.regs[a.op.reg])
       else
         && t.regs == s.regs
         && BytesAt(t.mem, at, MemSize(a.op)) == Stored(a.op, s.regs)
         && (forall x :: x in s.mem && (forall k :: 0 <= k < MemSize(a.op) ==> x != Slot(at, k)) ==> t.mem[x] == s.mem[x])
  }
}
