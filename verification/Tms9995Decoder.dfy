/** TMS9995 instruction words read back by their bit layout. */
module Tms9995Decoder {
  import opened Results
  import opened Tms9995

  // ----- operation codes, as they stand in the bits of a first word

  /** Bits 0 to 3: two general addresses. */
  function TwoAt(c: nat): Option<TwoOp> {
    match c
    case 4 => Some(SZC) case 5 => Some(SZCB) case 6 => Some(S) case 7 => Some(SB)
    case 8 => Some(C) case 9 => Some(CB) case 10 => Some(A) case 11 => Some(AB)
    case 12 => Some(MOV) case 13 => Some(MOVB) case 14 => Some(SOC) case 15 => Some(SOCB)
    case _ => None
  }

  /** Bits 0 to 9: one general address. */
  function OneAt(c: nat): Option<OneOp> {
    match c
    case 6 => Some(DIVS) case 7 => Some(MPYS)
    case 16 => Some(BLWP) case 17 => Some(B) case 18 => Some(X) case 19 => Some(CLR)
    case 20 => Some(NEG) case 21 => Some(INV) case 22 => Some(INC) case 23 => Some(INCT)
    case 24 => Some(DEC) case 25 => Some(DECT) case 26 => Some(BL) case 27 => Some(SWPB)
    case 28 => Some(SETO) case 29 => Some(ABS)
    case _ => None
  }

  /** Bits 0 to 7: jumps. */
  function JumpAt(c: nat): Option<JumpOp> {
    match c
    case 0x10 => Some(JMP) case 0x11 => Some(JLT) case 0x12 => Some(JLE) case 0x13 => Some(JEQ)
    case 0x14 => Some(JHE) case 0x15 => Some(JGT) case 0x16 => Some(JNE) case 0x17 => Some(JNC)
    case 0x18 => Some(JOC) case 0x19 => Some(JNO) case 0x1a => Some(JL) case 0x1b => Some(JH)
    case 0x1c => Some(JOP)
    case _ => None
  }

  /** Bits 0 to 7: the CRU. */
  function CruAt(c: nat): Option<CruOp> {
    match c
    case 0x1d => Some(SBO) case 0x1e => Some(SBZ) case 0x1f => Some(TB)
    case _ => None
  }

  /** Bits 0 to 7: shifts. */
  function ShiftAt(c: nat): Option<ShiftOp> {
    match c
    case 8 => Some(SRA) case 9 => Some(SRL) case 10 => Some(SLA) case 11 => Some(SRC)
    case _ => None
  }

  /** Bits 0 to 11: a register and an immediate. */
  function ImmAt(c: nat): Option<ImmOp> {
    match c
    case 0x20 => Some(LI) case 0x22 => Some(AI) case 0x24 => Some(ANDI) case 0x26 => Some(ORI) case 0x28 => Some(CI)
    case _ => None
  }

  /** Bits 0 to 11: a register alone. */
  function StateAt(c: nat): Option<StateOp> {
    match c
    case 8 => Some(LST) case 9 => Some(LWP) case 0x2a => Some(STWP) case 0x2c => Some(STST)
    case _ => None
  }

  /** Whole words. */
  function LoadAt(w: nat): Option<LoadOp> {
    match w
    case 0x2e0 => Some(LWPI) case 0x300 => Some(LIMI)
    case _ => None
  }

  function FixedAt(w: nat): Option<FixedOp> {
    match w
    case 0x340 => Some(IDLE) case 0x360 => Some(RSET) case 0x380 => Some(RTWP)
    case 0x3a0 => Some(CKON) case 0x3c0 => Some(CKOF) case 0x3e0 => Some(LREX)
    case _ => None
  }

  // ----- fields

  /** A general address: two bits of mode, four of register, and for mode 2 the next word. */
  function AddrAt(mode: nat, reg: Register, next: seq<nat>): Option<Addr<nat>> {
    if mode == 0 then Some(Direct(reg))
    else if mode == 1 then Some(Indirect(reg))
    else if mode == 3 then Some(Stepping(reg))
    else if next == [] then None
    else if reg == 0 then Some(Symbolic(next[0]))
    else Some(Indexed(next[0], reg))
  }

  /** The signed number in the low byte. */
  function LowSigned(w: nat): int { if w % 256 < 128 then w % 256 else w % 256 - 256 }

  /** A small signed number in 16 bits. */
  function In16(v: int): nat { v % 0x1_0000 }

  /** The instruction whose words these are. */
  function Decode(ws: seq<nat>, pc: nat): Option<Instr<nat>> {
    if ws == [] then None else
    var w, next := ws[0], ws[1..];
    if w / 4096 >= 4 then DecodeTwo(w, next)
    else if w / 1024 >= 8 then DecodeWide(w, next)
    else if w / 256 >= 0x1d then
      var op := CruAt(w / 256);
      if op == None then None else Some(Cru(op.value, In16(LowSigned(w))))
    else if w / 256 >= 0x10 then
      var op, target := JumpAt(w / 256), pc + 2 + 2 * LowSigned(w);
      if op == None || target < 0 then None else Some(Jump(op.value, target))
    else if w / 256 >= 8 then
      var op := ShiftAt(w / 256);
      if op == None then None else Some(Shift(op.value, w % 16, w / 16 % 16))
    else if w / 64 >= 16 || w / 64 == 6 || w / 64 == 7 then
      var op, src := OneAt(w / 64), AddrAt(w / 16 % 4, w % 16, next);
      if op == None || src == None then None else Some(One(op.value, src.value))
    else DecodeNarrow(w, next)
  }

  function DecodeTwo(w: nat, next: seq<nat>): Option<Instr<nat>> {
    var op, src := TwoAt(w / 4096), AddrAt(w / 16 % 4, w % 16, next);
    var dst := AddrAt(w / 1024 % 4, w / 64 % 16, if w / 16 % 4 == 2 && next != [] then next[1..] else next);
    if op == None || src == None || dst == None then None else Some(Two(op.value, src.value, dst.value))
  }

  /** Operations with a general address and a register or a count. */
  function DecodeWide(w: nat, next: seq<nat>): Option<Instr<nat>> {
    var src, field: Register := AddrAt(w / 16 % 4, w % 16, next), w / 64 % 16;
    if src == None then None else
    match w / 1024
    case 8 => Some(ToReg(COC, src.value, field))
    case 9 => Some(ToReg(CZC, src.value, field))
    case 10 => Some(ToReg(XOR, src.value, field))
    case 11 => Some(Xop(src.value, field))
    case 12 => Some(Transfer(LDCR, src.value, field))
    case 13 => Some(Transfer(STCR, src.value, field))
    case 14 => Some(ToReg(MPY, src.value, field))
    case 15 => Some(ToReg(DIV, src.value, field))
    case _ => None
  }

  /** Operations whose first word holds at most a register. */
  function DecodeNarrow(w: nat, next: seq<nat>): Option<Instr<nat>> {
    var imm, state, load, fixed := ImmAt(w / 16), StateAt(w / 16), LoadAt(w), FixedAt(w);
    if imm.Some? then if next == [] then None else Some(RegImm(imm.value, w % 16, next[0]))
    else if state.Some? then Some(State(state.value, w % 16))
    else if load.Some? then if next == [] then None else Some(Load(load.value, next[0]))
    else if fixed.Some? then Some(Fixed(fixed.value))
    else None
  }

  // ----- the codes agree

  lemma TwoCodes(op: TwoOp)
    ensures TwoAt(TwoBase(op) / 4096) == Some(op)
  {
  }

  lemma OneCodes(op: OneOp)
    ensures OneAt(OneBase(op) / 64) == Some(op)
  {
  }

  lemma NarrowCodes(r: Register)
    ensures forall op :: ImmAt((ImmBase(op) + r) / 16) == Some(op) && (ImmBase(op) + r) % 16 == r
    ensures forall op :: StateAt((StateBase(op) + r) / 16) == Some(op) && (StateBase(op) + r) % 16 == r
    ensures forall op :: ImmAt((StateBase(op) + r) / 16) == None
  {
  }

  lemma WordCodes()
    ensures forall op :: LoadAt(LoadBase(op)) == Some(op)
    ensures forall op :: ImmAt(LoadBase(op) / 16) == None && StateAt(LoadBase(op) / 16) == None
    ensures forall op :: FixedAt(FixedBase(op)) == Some(op) && LoadAt(FixedBase(op)) == None
    ensures forall op :: ImmAt(FixedBase(op) / 16) == None && StateAt(FixedBase(op) / 16) == None
  {
  }

  // ----- decoding what was encoded

  lemma AddrDecodes(a: Addr<nat>, more: seq<nat>)
    requires Addressable(a)
    ensures AddrAt(Mode(a), RegField(a), Extras(a) + more) == Some(a)
  {
    if a.Symbolic? || a.Indexed? {
      assert (Extras(a) + more)[0] == a.val;
    }
  }

  lemma TwoDecodes(i: Instr<nat>, pc: nat)
    requires i.Two? && Encode(i, pc, false).Some?
    ensures Decode(Encode(i, pc, false).value, pc) == Some(i)
  {
    hide Mode, RegField, Extras, TwoWord, TwoBase, AddrAt, TwoAt;
    var ws := Encode(i, pc, false).value;
    var w, next := ws[0], ws[1..];
    HighParts();
    TwoParts(TwoBase(i.two) / 4096, i.src, i.dst);
    TwoCodes(i.two);
    assert next == Extras(i.src) + Extras(i.dst);
    AddrDecodes(i.src, Extras(i.dst));
    ExtrasCount(i.src);
    assert (if Mode(i.src) == 2 && next != [] then next[1..] else next) == Extras(i.dst) + [];
    AddrDecodes(i.dst, []);
  }

  /** A word with a general address in its low six bits. */
  lemma FieldedDecodes(high: nat, src: Addr<nat>)
    requires Addressable(src)
    ensures var ws := Fielded(high, src).value;
      ws[0] / 64 == high && ws[0] / 16 % 4 == Mode(src) && ws[0] % 16 == RegField(src) &&
      AddrAt(ws[0] / 16 % 4, ws[0] % 16, ws[1..]) == Some(src)
  {
    hide Mode, RegField, Extras, Field6, AddrAt;
    FieldParts(high, src);
    AddrDecodes(src, []);
    assert Fielded(high, src).value[1..] == Extras(src) + [];
  }

  lemma WideSplit(w: nat, high: nat)
    requires w / 64 == high && 128 <= high < 256
    ensures w / 1024 == high / 16 && w / 64 % 16 == high % 16 && 8 <= w / 1024 < 16 && w / 4096 < 4
  {
  }

  /** With the top six bits below 16 and at least 8, the word is read as one of the wide operations. */
  lemma WideBranch(ws: seq<nat>, high: nat, src: Addr<nat>, pc: nat)
    requires Addressable(src) && 128 <= high < 256 && ws == Fielded(high, src).value
    ensures Decode(ws, pc) == DecodeWide(ws[0], ws[1..])
    ensures ws[0] / 1024 == high / 16 && ws[0] / 64 % 16 == high % 16
    ensures AddrAt(ws[0] / 16 % 4, ws[0] % 16, ws[1..]) == Some(src)
  {
    hide Fielded, AddrAt, DecodeTwo, DecodeWide, CruAt, JumpAt, ShiftAt, OneAt, DecodeNarrow;
    FieldedDecodes(high, src);
    WideSplit(ws[0], high);
  }

  lemma ToRegDecodes(i: Instr<nat>, pc: nat)
    requires i.ToReg? && Encode(i, pc, false).Some?
    ensures Decode(Encode(i, pc, false).value, pc) == Some(i)
  {
    hide Fielded, AddrAt, Decode;
    WideBranch(Encode(i, pc, false).value, RegBase(i.toReg) / 64 + i.reg, i.src, pc);
  }

  lemma XopDecodes(i: Instr<nat>, pc: nat)
    requires i.Xop? && Legal(i) && Encode(i, pc, false).Some?
    ensures Decode(Encode(i, pc, false).value, pc) == Some(i)
  {
    hide Fielded, AddrAt, Decode;
    WideBranch(Encode(i, pc, false).value, XOP_BASE / 64 + i.val, i.src, pc);
  }

  lemma TransferDecodes(i: Instr<nat>, pc: nat)
    requires i.Transfer? && Legal(i) && Encode(i, pc, false).Some?
    ensures Decode(Encode(i, pc, false).value, pc) == Some(Canon(i, pc))
  {
    hide Fielded, AddrAt, Decode;
    var count := if i.val == 16 then 0 else i.val;
    WideBranch(Encode(i, pc, false).value, TransferBase(i.transfer) / 64 + count, i.src, pc);
  }

  lemma OneSplit(w: nat, high: nat)
    requires w / 64 == high && (6 <= high < 8 || 16 <= high < 32)
    ensures w / 4096 < 4 && w / 1024 < 8 && w / 256 < 8
  {
  }

  lemma OneDecodes(i: Instr<nat>, pc: nat)
    requires (i.One? || i.Rt?) && Encode(i, pc, false).Some?
    ensures Decode(Encode(i, pc, false).value, pc) == Some(Canon(i, pc))
  {
    hide Fielded, AddrAt, DecodeTwo, DecodeWide, CruAt, JumpAt, ShiftAt, OneAt, DecodeNarrow, OneBase;
    var op, src := if i.Rt? then B else i.one, if i.Rt? then Indirect(11) else i.src;
    var w := Encode(i, pc, false).value[0];
    HighParts();
    OneCodes(op);
    FieldedDecodes(OneBase(op) / 64, src);
    OneSplit(w, OneBase(op) / 64);
  }

  lemma LowByteBack(base: nat, d: int)
    requires base % 256 == 0 && -128 <= d <= 127
    ensures LowSigned(base + d % 256) == d && (base + d % 256) / 256 == base / 256
  {
    assert base == base / 256 * 256;
    Digit256(base / 256, d % 256);
    assert d % 256 == if d >= 0 then d else d + 256;
  }

  lemma Digit256(q: nat, r: nat)
    requires r < 256
    ensures (q * 256 + r) / 256 == q && (q * 256 + r) % 256 == r
  {
  }

  /** A jump holds the distance to its target, in words from the next instruction on, and is an error if that does
      not fit. */
  lemma JumpReaches(op: JumpOp, target: nat, pc: nat)
    ensures Encode(Jump(op, target), pc, false).Some? <==>
      exists d :: -128 <= d <= 127 && target == pc + 2 + 2 * d
    ensures Encode(Jump(op, target), pc, false).Some? ==>
      target == pc + 2 + 2 * LowSigned(Encode(Jump(op, target), pc, false).value[0])
  {
    if Encode(Jump(op, target), pc, false).Some? {
      var d := Displacement(target, pc, false).value;
      assert target == pc + 2 + 2 * d;
      assert JumpBase(op) % 256 == 0;
      LowByteBack(JumpBase(op), d);
    }
    if d :| -128 <= d <= 127 && target == pc + 2 + 2 * d {
      Halved(target - (pc + 2), d);
    }
  }

  lemma Halved(distance: int, d: int)
    requires distance == 2 * d
    ensures distance % 2 == 0 && distance / 2 == d
  {
  }

  lemma JumpDecodes(i: Instr<nat>, pc: nat)
    requires (i.Jump? || i.Nop?) && Encode(i, pc, false).Some?
    ensures Decode(Encode(i, pc, false).value, pc) == Some(Canon(i, pc))
  {
    var op, target := if i.Nop? then JMP else i.jump, if i.Nop? then pc + 2 else i.val;
    if i.Nop? {
      assert LowSigned(0x1000) == 0 && JumpAt(0x1000 / 256) == Some(JMP);
    } else {
      JumpReaches(op, target, pc);
      LowByteBack(JumpBase(op), Displacement(target, pc, false).value);
      assert JumpAt(JumpBase(op) / 256) == Some(op) && 0x10 <= JumpBase(op) / 256 < 0x1d;
    }
  }

  lemma CruDecodes(i: Instr<nat>, pc: nat)
    requires i.Cru? && Legal(i) && Encode(i, pc, false).Some?
    ensures Decode(Encode(i, pc, false).value, pc) == Some(i)
  {
    assert CruBase(i.cru) % 256 == 0 && CruAt(CruBase(i.cru) / 256) == Some(i.cru);
    LowByteBack(CruBase(i.cru), Signed(i.val));
  }

  lemma ShiftDecodes(i: Instr<nat>, pc: nat)
    requires i.Shift? && Legal(i) && Encode(i, pc, false).Some?
    ensures Decode(Encode(i, pc, false).value, pc) == Some(i)
  {
    assert ShiftBase(i.shift) % 256 == 0 && ShiftAt(ShiftBase(i.shift) / 256) == Some(i.shift);
    ShiftSplit(ShiftBase(i.shift), i.val, i.reg);
  }

  lemma ShiftSplit(base: nat, count: nat, reg: nat)
    requires base % 256 == 0 && count < 16 && reg < 16
    ensures var w := base + count * 16 + reg; w / 256 == base / 256 && w / 16 % 16 == count && w % 16 == reg
  {
    var q, w := base / 256, base + count * 16 + reg;
    assert w == (q * 16 + count) * 16 + reg;
    Digit16(q * 16 + count, reg);
    Digit16(q, count);
    assert w / 256 == w / 16 / 16;
  }

  lemma NarrowDecodes(i: Instr<nat>, pc: nat)
    requires i.RegImm? || i.Load? || i.State? || i.Fixed?
    ensures Decode(Encode(i, pc, false).value, pc) == Some(i)
  {
    hide AddrAt, DecodeTwo, DecodeWide, CruAt, JumpAt, ShiftAt, OneAt, ImmAt, StateAt, LoadAt, FixedAt;
    WordCodes();
    if i.RegImm? || i.State? { NarrowCodes(i.reg); }
  }

  /** Whatever the encoder accepts is read back from its words, up to the spelling: operation, addressing modes,
      registers, counts, values and targets. */
  lemma DecodesEncoded(i: Instr<nat>, pc: nat)
    requires Legal(i) && Encode(i, pc, false).Some?
    ensures Decode(Encode(i, pc, false).value, pc) == Some(Canon(i, pc))
  {
    hide Encode, Decode;
    match i
    case Two(_, _, _) => TwoDecodes(i, pc);
    case ToReg(_, _, _) => ToRegDecodes(i, pc);
    case Xop(_, _) => XopDecodes(i, pc);
    case Transfer(_, _, _) => TransferDecodes(i, pc);
    case One(_, _) => OneDecodes(i, pc);
    case Rt => OneDecodes(i, pc);
    case Jump(_, _) => JumpDecodes(i, pc);
    case Nop => JumpDecodes(i, pc);
    case Cru(_, _) => CruDecodes(i, pc);
    case Shift(_, _, _) => ShiftDecodes(i, pc);
    case RegImm(_, _, _) => NarrowDecodes(i, pc);
    case Load(_, _) => NarrowDecodes(i, pc);
    case State(_, _) => NarrowDecodes(i, pc);
    case Fixed(_) => NarrowDecodes(i, pc);
  }

  /** When the encoder refuses: an address indexed by R0, a number outside its field, a target out of reach. */
  lemma EncodesIff(i: Instr<nat>, pc: nat)
    requires Legal(i)
    ensures Encode(i, pc, false).Some? <==>
      match i
      case Two(_, src, dst) => !IndexedByZero(src) && !IndexedByZero(dst)
      case ToReg(_, src, _) => !IndexedByZero(src)
      case One(_, src) => !IndexedByZero(src)
      case Xop(src, v) => !IndexedByZero(src) && v <= 15
      case Transfer(_, src, v) => !IndexedByZero(src) && v <= 16
      case Shift(_, _, v) => v <= 15
      case Cru(_, v) => v <= 127 || v >= 0xff80
      case Jump(_, v) => exists d :: -128 <= d <= 127 && v == pc + 2 + 2 * d
      case _ => true
  {
    if i.Jump? {
      JumpReaches(i.jump, i.val, pc);
    }
  }

  predicate IndexedByZero(a: Addr<nat>) { a.Indexed? && a.reg == 0 }
}
