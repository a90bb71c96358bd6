/** TMS9995 instruction words: one to three per instruction, and no two programs alike.  The fields of a
    word do not overlap, so `|` and shifts are written as sums and products. */
module Tms9995 {
  import opened Results

  datatype TwoOp = SZC | SZCB | S | SB | C | CB | A | AB | MOV | MOVB | SOC | SOCB
  datatype JumpOp = JMP | JLT | JLE | JEQ | JHE | JGT | JNE | JNC | JOC | JNO | JL | JH | JOP
  datatype CruOp = SBO | SBZ | TB
  datatype RegOp = COC | CZC | XOR | MPY | DIV
  datatype TransferOp = LDCR | STCR
  datatype ShiftOp = SRA | SRL | SLA | SRC
  datatype OneOp = BLWP | B | X | CLR | NEG | INV | INC | INCT | DEC | DECT | BL | SWPB | SETO | ABS | DIVS | MPYS
  datatype ImmOp = LI | AI | ANDI | ORI | CI
  datatype LoadOp = LWPI | LIMI
  datatype StateOp = STWP | STST | LST | LWP
  datatype FixedOp = IDLE | RSET | RTWP | CKON | CKOF | LREX

  type Register = r: nat | r < 16

  datatype Addr<V> = Direct(reg: Register) | Indirect(reg: Register) | Symbolic(val: V)
                   | Indexed(val: V, reg: Register) | Stepping(reg: Register)

  /** An instruction whose operand values are of type `V`: expressions before evaluation, numbers after. */
  datatype Instr<V> =
    | Two(two: TwoOp, src: Addr<V>, dst: Addr<V>)
    | ToReg(toReg: RegOp, src: Addr<V>, reg: Register)
    | Xop(src: Addr<V>, val: V)
    | Transfer(transfer: TransferOp, src: Addr<V>, val: V)
    | One(one: OneOp, src: Addr<V>)
    | Shift(shift: ShiftOp, reg: Register, val: V)
    | Jump(jump: JumpOp, val: V)
    | Cru(cru: CruOp, val: V)
    | RegImm(imm: ImmOp, reg: Register, val: V)
    | Load(load: LoadOp, val: V)
    | State(state: StateOp, reg: Register)
    | Fixed(fixed: FixedOp)
    | Nop
    | Rt

  // ----- opcode tables

  function TwoBase(op: TwoOp): nat {
    match op
    case SZC => 0x4000 case SZCB => 0x5000 case S => 0x6000 case SB => 0x7000
    case C => 0x8000 case CB => 0x9000 case A => 0xa000 case AB => 0xb000
    case MOV => 0xc000 case MOVB => 0xd000 case SOC => 0xe000 case SOCB => 0xf000
  }

  function JumpBase(op: JumpOp): nat {
    match op
    case JMP => 0x1000 case JLT => 0x1100 case JLE => 0x1200 case JEQ => 0x1300
    case JHE => 0x1400 case JGT => 0x1500 case JNE => 0x1600 case JNC => 0x1700
    case JOC => 0x1800 case JNO => 0x1900 case JL => 0x1a00 case JH => 0x1b00 case JOP => 0x1c00
  }

  function CruBase(op: CruOp): nat {
    match op
    case SBO => 0x1d00 case SBZ => 0x1e00 case TB => 0x1f00
  }

  function RegBase(op: RegOp): nat {
    match op
    case COC => 0x2000 case CZC => 0x2400 case XOR => 0x2800 case MPY => 0x3800 case DIV => 0x3c00
  }

  const XOP_BASE: nat := 0x2c00

  function TransferBase(op: TransferOp): nat { if op.LDCR? then 0x3000 else 0x3400 }

  function ShiftBase(op: ShiftOp): nat {
    match op
    case SRA => 0x0800 case SRL => 0x0900 case SLA => 0x0a00 case SRC => 0x0b00
  }

  function OneBase(op: OneOp): nat {
    match op
    case BLWP => 0x0400 case B => 0x0440 case X => 0x0480 case CLR => 0x04c0
    case NEG => 0x0500 case INV => 0x0540 case INC => 0x0580 case INCT => 0x05c0
    case DEC => 0x0600 case DECT => 0x0640 case BL => 0x0680 case SWPB => 0x06c0
    case SETO => 0x0700 case ABS => 0x0740 case DIVS => 0x0180 case MPYS => 0x01c0
  }

  function ImmBase(op: ImmOp): nat {
    match op
    case LI => 0x0200 case AI => 0x0220 case ANDI => 0x0240 case ORI => 0x0260 case CI => 0x0280
  }

  function LoadBase(op: LoadOp): nat { if op.LWPI? then 0x02e0 else 0x0300 }

  function StateBase(op: StateOp): nat {
    match op
    case STWP => 0x02a0 case STST => 0x02c0 case LST => 0x0080 case LWP => 0x0090
  }

  function FixedBase(op: FixedOp): nat {
    match op
    case IDLE => 0x0340 case RSET => 0x0360 case RTWP => 0x0380
    case CKON => 0x03a0 case CKOF => 0x03c0 case LREX => 0x03e0
  }

  // ----- encoding

  function Mode<V>(a: Addr<V>): nat {
    match a
    case Direct(_) => 0 case Indirect(_) => 1 case Symbolic(_) => 2 case Indexed(_, _) => 2 case Stepping(_) => 3
  }

  function RegField<V>(a: Addr<V>): nat { if a.Symbolic? then 0 else a.reg }

  function Field6<V>(a: Addr<V>): nat { Mode(a) * 16 + RegField(a) }

  function Extras(a: Addr<nat>): seq<nat> { if a.Symbolic? || a.Indexed? then [a.val] else [] }

  /** Indexing by R0 cannot be written. */
  predicate Addressable<V>(a: Addr<V>) { a.Indexed? ==> a.reg != 0 }

  function Signed(v: nat): int { if v >= 0x8000 then v - 0x1_0000 else v }

  /** While sizing, a range is not checked and the field is 0. */
  function Ranged(v: nat, lo: int, hi: int, sizing: bool): Option<int> {
    if sizing then Some(0) else if lo <= Signed(v) <= hi then Some(Signed(v)) else None
  }

  function Displacement(target: nat, pc: nat, sizing: bool): Option<int> {
    var distance := target - (pc + 2);
    if sizing then Some(0)
    else if distance % 2 != 0 || distance / 2 < -128 || distance / 2 > 127 then None
    else Some(distance / 2)
  }

  /** One word with a general address in its low six bits, and the address's own word. */
  function Fielded(high: nat, src: Addr<nat>): (w: Option<seq<nat>>)
    ensures w.Some? <==> Addressable(src)
    ensures w.Some? ==> w.value != []
  {
    if !Addressable(src) then None else Some([high * 64 + Field6(src)] + Extras(src))
  }

  function TwoWord(high: nat, src: Addr<nat>, dst: Addr<nat>): nat {
    ((high * 4 + Mode(dst)) * 16 + RegField(dst)) * 64 + Field6(src)
  }

  function Encode(i: Instr<nat>, pc: nat, sizing: bool): (w: Option<seq<nat>>)
    ensures w.Some? ==> w.value != []
  {
    match i
    case Rt => Fielded(OneBase(B) / 64, Indirect(11))
    case Nop => Some([0x1000])
    case Fixed(op) => Some([FixedBase(op)])
    case Load(op, v) => Some([LoadBase(op), v])
    case State(op, r) => Some([StateBase(op) + r])
    case RegImm(op, r, v) => Some([ImmBase(op) + r, v])
    case Cru(op, v) =>
      var disp := Ranged(v, -128, 127, sizing);
      if disp == None then None else Some([CruBase(op) + disp.value % 256])
    case Jump(op, v) =>
      var disp := Displacement(v, pc, sizing);
      if disp == None then None else Some([JumpBase(op) + disp.value % 256])
    case Shift(op, r, v) =>
      var count := Ranged(v, 0, 15, sizing);
      if count == None then None else Some([ShiftBase(op) + count.value % 16 * 16 + r])
    case ToReg(op, src, r) => Fielded(RegBase(op) / 64 + r, src)
    case Transfer(op, src, v) =>
      var bits := Ranged(v, 0, 16, sizing);
      if bits == None then None
      else Fielded(TransferBase(op) / 64 + (if bits.value == 16 then 0 else bits.value % 16), src)
    case Xop(src, v) =>
      var n := Ranged(v, 0, 15, sizing);
      if n == None then None else Fielded(XOP_BASE / 64 + n.value % 16, src)
    case One(op, src) => Fielded(OneBase(op) / 64, src)
    case Two(op, src, dst) =>
      if !Addressable(src) || !Addressable(dst) then None
      else Some([TwoWord(TwoBase(op) / 4096, src, dst)] + Extras(src) + Extras(dst))
  }

  // ----- instruction lengths

  function ExtraWords(mode: nat): nat { if mode == 2 then 1 else 0 }

  /** The length of an instruction, read off its first word. */
  function Length(w: nat): nat {
    if w >= 0x4000 then 1 + ExtraWords(w / 16 % 4) + ExtraWords(w / 1024 % 4)
    else if w >= 0x2000 || 0x0400 <= w < 0x0800 || 0x0180 <= w < 0x0200 then 1 + ExtraWords(w / 16 % 4)
    else if 0x0200 <= w < 0x02a0 || 0x02e0 <= w < 0x0320 then 2
    else 1
  }

  lemma Digit16(q: nat, r: nat)
    requires r < 16
    ensures (q * 16 + r) / 16 == q && (q * 16 + r) % 16 == r
  {
  }

  lemma Digit4(q: nat, r: nat)
    requires r < 4
    ensures (q * 4 + r) / 4 == q && (q * 4 + r) % 4 == r
  {
  }

  lemma FieldParts(high: nat, a: Addr<nat>)
    ensures var w := high * 64 + Field6(a);
      w / 64 == high && w / 16 % 4 == Mode(a) && w % 16 == RegField(a) && 0 <= Field6(a) < 64
  {
    assert high * 64 + Field6(a) == (high * 4 + Mode(a)) * 16 + RegField(a);
    Digit16(high * 4 + Mode(a), RegField(a));
    Digit4(high, Mode(a));
  }

  lemma ExtrasCount(a: Addr<nat>)
    ensures |Extras(a)| == ExtraWords(Mode(a))
  {
  }

  lemma TwoParts(high: nat, src: Addr<nat>, dst: Addr<nat>)
    ensures var w := TwoWord(high, src, dst);
      w / 4096 == high && w / 1024 % 4 == Mode(dst) && w / 64 % 16 == RegField(dst) &&
      w / 16 % 4 == Mode(src) && w % 16 == RegField(src)
  {
    hide Field6;
    var w, middle := TwoWord(high, src, dst), (high * 4 + Mode(dst)) * 16 + RegField(dst);
    FieldParts(middle, src);
    Digit16(high * 4 + Mode(dst), RegField(dst));
    Digit4(high, Mode(dst));
    assert w / 64 == middle && w / 1024 == middle / 16 && w / 4096 == w / 1024 / 4;
  }

  /** Which words a fielded format covers, and that its length shows. */
  lemma FieldedLength(high: nat, src: Addr<nat>)
    requires Addressable(src) && (6 <= high < 8 || 16 <= high < 32 || 128 <= high < 256)
    ensures var w := Fielded(high, src).value; |w| == Length(w[0]) && w[0] / 64 == high
  {
    hide Field6, Mode, RegField, Extras, ExtraWords;
    FieldParts(high, src);
    ExtrasCount(src);
  }

  lemma TwoLength(high: nat, src: Addr<nat>, dst: Addr<nat>)
    requires 4 <= high < 16
    ensures var w := TwoWord(high, src, dst);
      0x4000 <= w < 0x1_0000 && Length(w) == 1 + |Extras(src)| + |Extras(dst)|
  {
    hide Field6, Mode, RegField, Extras, ExtraWords, TwoWord;
    TwoParts(high, src, dst);
    ExtrasCount(src);
    ExtrasCount(dst);
  }

  lemma HighParts()
    ensures forall op :: 4 <= TwoBase(op) / 4096 < 16
    ensures forall op :: 128 <= RegBase(op) / 64 <= 160 || 224 <= RegBase(op) / 64 <= 240
    ensures forall op :: 192 <= TransferBase(op) / 64 && TransferBase(op) / 64 + 16 <= 224
    ensures forall op :: 6 <= OneBase(op) / 64 < 8 || 16 <= OneBase(op) / 64 < 32
  {
  }

  /** The first word alone fixes the length. */
  lemma FirstWordFixesLength(i: Instr<nat>, pc: nat, sizing: bool)
    requires Encode(i, pc, sizing).Some?
    ensures var w := Encode(i, pc, sizing).value; |w| == Length(w[0]) && w[0] < 0x1_0000
  {
    if i.Two? || i.ToReg? || i.Xop? || i.Transfer? || i.One? || i.Rt? {
      FieldedFixesLength(i, pc, sizing);
    }
  }

  lemma FieldedFixesLength(i: Instr<nat>, pc: nat, sizing: bool)
    requires Encode(i, pc, sizing).Some?
    requires i.Two? || i.ToReg? || i.Xop? || i.Transfer? || i.One? || i.Rt?
    ensures var w := Encode(i, pc, sizing).value; |w| == Length(w[0]) && w[0] < 0x1_0000
  {
    hide Fielded, TwoWord, Length, Ranged, TwoBase, RegBase, TransferBase, OneBase, Extras;
    HighParts();
    match i
    case Two(op, src, dst) =>
      TwoLength(TwoBase(op) / 4096, src, dst);
    case ToReg(op, src, r) =>
      FieldedLength(RegBase(op) / 64 + r, src);
    case Xop(src, v) =>
      FieldedLength(XOP_BASE / 64 + Ranged(v, 0, 15, sizing).value % 16, src);
    case Transfer(op, src, v) =>
      var bits := Ranged(v, 0, 16, sizing).value;
      FieldedLength(TransferBase(op) / 64 + if bits == 16 then 0 else bits % 16, src);
    case One(op, src) =>
      FieldedLength(OneBase(op) / 64, src);
    case Rt =>
      FieldedLength(OneBase(B) / 64, Indirect(11));
  }

  /** Operand values put in for expressions. */
  function FillAddr<V, W>(a: Addr<V>, f: V -> W): Addr<W> {
    match a
    case Direct(r) => Direct(r)
    case Indirect(r) => Indirect(r)
    case Symbolic(v) => Symbolic(f(v))
    case Indexed(v, r) => Indexed(f(v), r)
    case Stepping(r) => Stepping(r)
  }

  function Fill<V, W>(i: Instr<V>, f: V -> W): Instr<W> {
    match i
    case Two(op, src, dst) => Two(op, FillAddr(src, f), FillAddr(dst, f))
    case ToReg(op, src, r) => ToReg(op, FillAddr(src, f), r)
    case Xop(src, v) => Xop(FillAddr(src, f), f(v))
    case Transfer(op, src, v) => Transfer(op, FillAddr(src, f), f(v))
    case One(op, src) => One(op, FillAddr(src, f))
    case Shift(op, r, v) => Shift(op, r, f(v))
    case Jump(op, v) => Jump(op, f(v))
    case Cru(op, v) => Cru(op, f(v))
    case RegImm(op, r, v) => RegImm(op, r, f(v))
    case Load(op, v) => Load(op, f(v))
    case State(op, r) => State(op, r)
    case Fixed(op) => Fixed(op)
    case Nop => Nop
    case Rt => Rt
  }

  function ValuesOfAddr<V>(a: Addr<V>): seq<V> { if a.Symbolic? || a.Indexed? then [a.val] else [] }

  /** The expressions an instruction evaluates. */
  function ValuesOf<V>(i: Instr<V>): seq<V> {
    match i
    case Two(_, src, dst) => ValuesOfAddr(src) + ValuesOfAddr(dst)
    case ToReg(_, src, _) => ValuesOfAddr(src)
    case Xop(src, v) => ValuesOfAddr(src) + [v]
    case Transfer(_, src, v) => [v] + ValuesOfAddr(src)
    case One(_, src) => ValuesOfAddr(src)
    case Shift(_, _, v) => [v]
    case Jump(_, v) => [v]
    case Cru(_, v) => [v]
    case RegImm(_, _, v) => [v]
    case Load(_, v) => [v]
    case State(_, _) => []
    case Fixed(_) => []
    case Nop => []
    case Rt => []
  }

  predicate Evaluates<V>(i: Instr<V>, eval: V -> Option<nat>) {
    var values := ValuesOf(i);
    forall k | 0 <= k < |values| :: eval(values[k]).Some?
  }

  /** An instruction is an error as soon as one of its expressions is. */
  function Assemble<V>(i: Instr<V>, eval: V -> Option<nat>, pc: nat, sizing: bool): Option<seq<nat>> {
    if !Evaluates(i, eval) then None
    else Encode(Fill(i, (v: V) => if eval(v) == None then 0 else eval(v).value), pc, sizing)
  }

  ghost predicate SameOn<V(!new)>(values: seq<V>, f: V -> V, g: V -> V) {
    forall k | 0 <= k < |values| :: f(values[k]) == g(values[k])
  }

  lemma SameOnBoth<V(!new)>(a: seq<V>, b: seq<V>, f: V -> V, g: V -> V)
    ensures SameOn(a + b, f, g) <==> SameOn(a, f, g) && SameOn(b, f, g)
  {
    var all := a + b;
    assert forall k | 0 <= k < |a| :: all[k] == a[k];
    assert forall k | 0 <= k < |b| :: all[|a| + k] == b[k];
  }

  lemma SameOnOne<V(!new)>(v: V, f: V -> V, g: V -> V)
    ensures SameOn([v], f, g) <==> f(v) == g(v)
  {
    assert [v][0] == v;
  }

  lemma FillAddrIs<V(!new)>(a: Addr<V>, f: V -> V, g: V -> V)
    ensures FillAddr(a, (v: V) => v) == a
    ensures FillAddr(a, f) == FillAddr(a, g) <==> SameOn(ValuesOfAddr(a), f, g)
  {
    if a.Symbolic? || a.Indexed? { SameOnOne(a.val, f, g); }
  }

  /** Putting values in changes nothing else, and the values put in are those of the expressions evaluated. */
  lemma FillIs<V(!new)>(i: Instr<V>, f: V -> V, g: V -> V)
    ensures Fill(i, (v: V) => v) == i
    ensures Fill(i, f) == Fill(i, g) <==> SameOn(ValuesOf(i), f, g)
  {
    hide FillAddr, SameOn, ValuesOfAddr;
    NoneDiffer(f, g);
    if i.Two? || i.ToReg? || i.Xop? || i.Transfer? || i.One? {
      FillAddrIs(i.src, f, g);
    }
    match i
    case Two(_, src, dst) =>
      FillAddrIs(dst, f, g);
      SameOnBoth(ValuesOfAddr(src), ValuesOfAddr(dst), f, g);
    case Xop(src, v) =>
      SameOnOne(v, f, g);
      SameOnBoth(ValuesOfAddr(src), [v], f, g);
    case Transfer(_, src, v) =>
      SameOnOne(v, f, g);
      SameOnBoth([v], ValuesOfAddr(src), f, g);
    case Shift(_, _, v) => SameOnOne(v, f, g);
    case Jump(_, v) => SameOnOne(v, f, g);
    case Cru(_, v) => SameOnOne(v, f, g);
    case RegImm(_, _, v) => SameOnOne(v, f, g);
    case Load(_, v) => SameOnOne(v, f, g);
    case _ =>
  }

  lemma NoneDiffer<V(!new)>(f: V -> V, g: V -> V)
    ensures SameOn([], f, g)
  {
  }

  /** One expression that cannot be evaluated is enough for an error. */
  lemma MissingValue<V>(i: Instr<V>, eval: V -> Option<nat>, pc: nat, sizing: bool, v: V)
    requires v in ValuesOf(i) && eval(v) == None
    ensures Assemble(i, eval, pc, sizing) == None
  {
  }

  /** The bytes of an instruction as the first pass sees them: at address 0, with no symbol defined. */
  function InstructionSize<V>(i: Instr<V>, guess: V -> Option<nat>): Option<nat> {
    var w := Assemble(i, guess, 0, true);
    if w == None then None else Some(2 * |w.value|)
  }

  /** The size of an instruction that can be assembled is that of its words, whatever the symbols stand
      for and wherever it goes, or there is none, exactly if the first pass cannot evaluate an operand. */
  lemma SizeIsLength<V>(i: Instr<V>, guess: V -> Option<nat>, symbols: V -> Option<nat>, pc: nat)
    requires Assemble(i, symbols, pc, false).Some?
    ensures InstructionSize(i, guess) ==
      if Evaluates(i, guess) then Some(2 * |Assemble(i, symbols, pc, false).value|) else None
  {
    hide Field6, Ranged, Displacement, RegBase, TransferBase, OneBase, TwoBase, TwoWord, Evaluates;
    SizingPasses();
  }

  lemma SizingPasses()
    ensures forall v, lo, hi :: Ranged(v, lo, hi, true) == Some(0)
    ensures forall v, pc :: Displacement(v, pc, true) == Some(0)
  {
  }

  // ----- unique decoding

  /** One spelling for instructions that share their words. */
  function Canon(i: Instr<nat>, pc: nat): Instr<nat> {
    if i.Nop? then Jump(JMP, pc + 2)
    else if i.Rt? then One(B, Indirect(11))
    else if i.Transfer? && i.val == 16 then Transfer(i.transfer, i.src, 0)
    else i
  }

  /** Operand values are 16-bit numbers. */
  predicate Legal(i: Instr<nat>) {
    (i.Transfer? || i.Xop? || i.Shift? || i.Jump? || i.Cru? || i.RegImm? || i.Load? ==> i.val < 0x1_0000)
  }

  lemma CanonSame(i: Instr<nat>, pc: nat)
    requires Encode(i, pc, false).Some?
    ensures Encode(Canon(i, pc), pc, false) == Encode(i, pc, false)
  {
  }

  /** Which format a first word belongs to. */
  function Format(w: nat): nat {
    if w >= 0x4000 then 0
    else if w >= 0x3800 || 0x2000 <= w < 0x2c00 then 1
    else if w >= 0x3000 then 2
    else if w >= 0x2c00 then 3
    else if w >= 0x1d00 then 4
    else if w >= 0x1000 then 5
    else if w >= 0x0800 then 6
    else if w >= 0x0400 || 0x0180 <= w < 0x0200 then 7
    else if w >= 0x0340 then 8
    else if w >= 0x02e0 then 9
    else if w >= 0x02a0 || w < 0x0180 then 10
    else 11
  }

  function FormatOf(i: Instr<nat>): nat {
    match i
    case Two(_, _, _) => 0
    case ToReg(_, _, _) => 1
    case Transfer(_, _, _) => 2
    case Xop(_, _) => 3
    case Cru(_, _) => 4
    case Jump(_, _) => 5
    case Nop => 5
    case Shift(_, _, _) => 6
    case One(_, _) => 7
    case Rt => 7
    case Fixed(_) => 8
    case Load(_, _) => 9
    case State(_, _) => 10
    case RegImm(_, _, _) => 11
  }

  lemma FormatFits(i: Instr<nat>, pc: nat)
    requires Encode(i, pc, false).Some?
    ensures Format(Encode(i, pc, false).value[0]) == FormatOf(i)
  {
    hide Ranged, Displacement;
    if i.Two? || i.ToReg? || i.Xop? || i.Transfer? || i.One? || i.Rt? {
      FieldedFormatFits(i, pc);
    }
  }

  lemma FieldedFormatFits(i: Instr<nat>, pc: nat)
    requires Encode(i, pc, false).Some?
    requires i.Two? || i.ToReg? || i.Xop? || i.Transfer? || i.One? || i.Rt?
    ensures Format(Encode(i, pc, false).value[0]) == FormatOf(i)
  {
    hide Field6, Mode, RegField, Extras, TwoWord, Ranged, TwoBase, RegBase, TransferBase, OneBase;
    HighParts();
    if i.Two? {
      TwoLength(TwoBase(i.two) / 4096, i.src, i.dst);
    } else if i.ToReg? {
      FieldParts(RegBase(i.toReg) / 64 + i.reg, i.src);
    } else if i.Xop? {
      FieldParts(XOP_BASE / 64 + Ranged(i.val, 0, 15, false).value % 16, i.src);
    } else if i.Transfer? {
      var bits := Ranged(i.val, 0, 16, false).value;
      FieldParts(TransferBase(i.transfer) / 64 + if bits == 16 then 0 else bits % 16, i.src);
    } else if i.One? {
      FieldParts(OneBase(i.one) / 64, i.src);
    } else {
      FieldParts(OneBase(B) / 64, Indirect(11));
    }
  }

  lemma SameAddr(a: Addr<nat>, b: Addr<nat>)
    requires Addressable(a) && Addressable(b)
    requires Mode(a) == Mode(b) && RegField(a) == RegField(b) && Extras(a) == Extras(b)
    ensures a == b
  {
    if a.Symbolic? || a.Indexed? {
      assert Extras(a)[0] == a.val && Extras(b)[0] == b.val;
    }
  }

  lemma SameTwo(i: Instr<nat>, j: Instr<nat>, pc: nat)
    requires i.Two? && j.Two? && Encode(i, pc, false).Some? && Encode(i, pc, false) == Encode(j, pc, false)
    ensures i == j
  {
    hide Mode, RegField, Extras, TwoWord, TwoBase;
    var w, v := Encode(i, pc, false).value, Encode(j, pc, false).value;
    assert w[0] == v[0];
    TwoParts(TwoBase(i.two) / 4096, i.src, i.dst);
    TwoParts(TwoBase(j.two) / 4096, j.src, j.dst);
    SameTwoOp(i.two, j.two);
    ExtrasCount(i.src);
    ExtrasCount(j.src);
    var k := |Extras(i.src)|;
    assert w[1..1 + k] == Extras(i.src) && v[1..1 + k] == Extras(j.src);
    assert w[1 + k..] == Extras(i.dst) && v[1 + k..] == Extras(j.dst);
    SameAddr(i.src, j.src);
    SameAddr(i.dst, j.dst);
  }

  lemma SameTwoOp(a: TwoOp, b: TwoOp)
    requires TwoBase(a) / 4096 == TwoBase(b) / 4096
    ensures a == b
  {
  }

  /** A first word made of a high part and an address field, and the extra words, give both back. */
  lemma SameFielded(h: nat, a: Addr<nat>, k: nat, b: Addr<nat>)
    requires Addressable(a) && Addressable(b) && Fielded(h, a) == Fielded(k, b)
    ensures h == k && a == b
  {
    hide Field6, Extras, Mode, RegField;
    var w, v := Fielded(h, a).value, Fielded(k, b).value;
    assert w[0] == v[0] && w[1..] == Extras(a) && v[1..] == Extras(b);
    FieldParts(h, a);
    FieldParts(k, b);
    SameAddr(a, b);
  }

  lemma SameRegOp(a: RegOp, r: Register, b: RegOp, s: Register)
    requires RegBase(a) / 64 + r == RegBase(b) / 64 + s
    ensures a == b && r == s
  {
  }

  lemma SameTransferOp(a: TransferOp, r: nat, b: TransferOp, s: nat)
    requires TransferBase(a) / 64 + r == TransferBase(b) / 64 + s && r < 16 && s < 16
    ensures a == b && r == s
  {
  }

  lemma SameOneOp(a: OneOp, b: OneOp)
    requires OneBase(a) / 64 == OneBase(b) / 64
    ensures a == b
  {
  }

  /** Instructions of one format with the same words are the same, up to the spelling. */
  lemma SameFormat(i: Instr<nat>, j: Instr<nat>, pc: nat)
    requires Legal(i) && Legal(j) && FormatOf(i) == FormatOf(j)
    requires !i.Nop? && !i.Rt? && !j.Nop? && !j.Rt?
    requires (i.Transfer? ==> i.val != 16) && (j.Transfer? ==> j.val != 16)
    requires Encode(i, pc, false).Some? && Encode(i, pc, false) == Encode(j, pc, false)
    ensures i == j
  {
    hide Fielded, RegBase, TransferBase, OneBase, TwoWord;
    if i.Two? {
      SameTwo(i, j, pc);
    } else if i.ToReg? {
      SameFielded(RegBase(i.toReg) / 64 + i.reg, i.src, RegBase(j.toReg) / 64 + j.reg, j.src);
      SameRegOp(i.toReg, i.reg, j.toReg, j.reg);
    } else if i.Transfer? {
      SameFielded(TransferBase(i.transfer) / 64 + i.val, i.src, TransferBase(j.transfer) / 64 + j.val, j.src);
      SameTransferOp(i.transfer, i.val, j.transfer, j.val);
    } else if i.Xop? {
      SameFielded(XOP_BASE / 64 + i.val, i.src, XOP_BASE / 64 + j.val, j.src);
    } else if i.One? {
      SameFielded(OneBase(i.one) / 64, i.src, OneBase(j.one) / 64, j.src);
      SameOneOp(i.one, j.one);
    } else {
      SameSimple(i, j, pc);
    }
  }

  /** The formats without a general address. */
  lemma SameSimple(i: Instr<nat>, j: Instr<nat>, pc: nat)
    requires Legal(i) && Legal(j) && FormatOf(i) == FormatOf(j)
    requires i.Shift? || i.Jump? || i.Cru? || i.RegImm? || i.Load? || i.State? || i.Fixed?
    requires !j.Nop? && !j.Rt?
    requires Encode(i, pc, false).Some? && Encode(i, pc, false) == Encode(j, pc, false)
    ensures i == j
  {
    hide Displacement, JumpBase, CruBase, ShiftBase, ImmBase, StateBase, FixedBase, Fielded, TwoWord;
    var w, v := Encode(i, pc, false).value, Encode(j, pc, false).value;
    assert w[0] == v[0];
    if i.Jump? {
      SameJump(i.jump, i.val, j.jump, j.val, pc);
    } else if i.Cru? {
      SameCru(i.cru, i.val, j.cru, j.val);
    } else if i.Shift? {
      SameShift(i.shift, i.val, i.reg, j.shift, j.val, j.reg);
    } else if i.RegImm? {
      SameImmOp(i.imm, i.reg, j.imm, j.reg);
      assert w[1] == v[1];
    } else if i.Load? {
      assert w[1] == v[1];
    } else if i.State? {
      SameStateOp(i.state, i.reg, j.state, j.reg);
    } else {
      SameFixedOp(i.fixed, j.fixed);
    }
  }

  lemma SameImmOp(a: ImmOp, r: Register, b: ImmOp, s: Register)
    requires ImmBase(a) + r == ImmBase(b) + s
    ensures a == b && r == s
  {
  }

  lemma SameStateOp(a: StateOp, r: Register, b: StateOp, s: Register)
    requires StateBase(a) + r == StateBase(b) + s
    ensures a == b && r == s
  {
  }

  lemma SameFixedOp(a: FixedOp, b: FixedOp)
    requires FixedBase(a) == FixedBase(b)
    ensures a == b
  {
  }

  /** A low byte gives a displacement back. */
  lemma SameByte(a: int, b: int)
    requires -128 <= a <= 127 && -128 <= b <= 127 && a % 256 == b % 256
    ensures a == b
  {
  }

  lemma SameJump(a: JumpOp, v: nat, b: JumpOp, u: nat, pc: nat)
    requires Displacement(v, pc, false).Some? && Displacement(u, pc, false).Some?
    requires
      JumpBase(a) + Displacement(v, pc, false).value % 256 == JumpBase(b) + Displacement(u, pc, false).value % 256
    ensures a == b && v == u
  {
    assert a == b;
    SameByte(Displacement(v, pc, false).value, Displacement(u, pc, false).value);
  }

  lemma SameCru(a: CruOp, v: nat, b: CruOp, u: nat)
    requires v < 0x1_0000 && u < 0x1_0000
    requires Ranged(v, -128, 127, false).Some? && Ranged(u, -128, 127, false).Some?
    requires CruBase(a) + Signed(v) % 256 == CruBase(b) + Signed(u) % 256
    ensures a == b && v == u
  {
    assert a == b;
    SameByte(Signed(v), Signed(u));
  }

  lemma SameShift(a: ShiftOp, v: nat, r: Register, b: ShiftOp, u: nat, s: Register)
    requires v < 0x1_0000 && u < 0x1_0000
    requires Ranged(v, 0, 15, false).Some? && Ranged(u, 0, 15, false).Some?
    requires ShiftBase(a) + v * 16 + r == ShiftBase(b) + u * 16 + s
    ensures a == b && v == u && r == s
  {
  }

  /** Two instructions at one address share their words exactly when they differ in spelling only. */
  lemma SameWordsSameInstruction(i: Instr<nat>, j: Instr<nat>, pc: nat)
    requires Legal(i) && Legal(j) && Encode(i, pc, false).Some? && Encode(j, pc, false).Some?
    ensures Encode(i, pc, false) == Encode(j, pc, false) <==> Canon(i, pc) == Canon(j, pc)
  {
    hide Encode;
    CanonSame(i, pc);
    CanonSame(j, pc);
    if Encode(i, pc, false) == Encode(j, pc, false) {
      var c, d := Canon(i, pc), Canon(j, pc);
      FormatFits(c, pc);
      FormatFits(d, pc);
      SameCanon(c, d, pc);
    }
  }

  lemma SameCanon(c: Instr<nat>, d: Instr<nat>, pc: nat)
    requires FormatOf(c) == FormatOf(d) && !c.Nop? && !c.Rt? && !d.Nop? && !d.Rt?
    requires (c.Transfer? ==> c.val != 16) && (d.Transfer? ==> d.val != 16)
    requires (Legal(c) || c == Jump(JMP, pc + 2)) && (Legal(d) || d == Jump(JMP, pc + 2))
    requires Encode(c, pc, false).Some? && Encode(c, pc, false) == Encode(d, pc, false)
    ensures c == d
  {
    if c.Jump? {
      assert Encode(c, pc, false).value[0] == Encode(d, pc, false).value[0];
      SameJump(c.jump, c.val, d.jump, d.val, pc);
    } else {
      SameFormat(c, d, pc);
    }
  }

  // ----- programs

  /** A program's words from an address on; the address counts bytes in 16 bits. */
  function EncodeAll(ps: seq<Instr<nat>>, pc: nat): Option<seq<nat>> {
    if ps == [] then Some([]) else
    var w := Encode(ps[0], pc, false);
    if w == None then None else
    var rest := EncodeAll(ps[1..], (pc + 2 * |w.value|) % 0x1_0000);
    if rest == None then None else Some(w.value + rest.value)
  }

  function CanonAll(ps: seq<Instr<nat>>, pc: nat): seq<Instr<nat>>
    requires EncodeAll(ps, pc).Some?
  {
    if ps == [] then [] else
    [Canon(ps[0], pc)] + CanonAll(ps[1..], (pc + 2 * |Encode(ps[0], pc, false).value|) % 0x1_0000)
  }

  /** Two programs that encode to the same words from the same address are the same program, up to
      NOP = JMP to the next instruction, RT = B (R11), and a transfer of 0 = 16 bits. */
  lemma {:induction false} UniquelyDecodable(ps: seq<Instr<nat>>, qs: seq<Instr<nat>>, pc: nat)
    requires (forall i | i in ps :: Legal(i)) && forall j | j in qs :: Legal(j)
    requires EncodeAll(ps, pc).Some? && EncodeAll(qs, pc).Some?
    ensures EncodeAll(ps, pc) == EncodeAll(qs, pc) <==> CanonAll(ps, pc) == CanonAll(qs, pc)
    decreases |ps|
  {
    hide Encode, Canon, Legal, Length;
    if ps != [] && qs != [] {
      var w, v := Encode(ps[0], pc, false).value, Encode(qs[0], pc, false).value;
      var next := (pc + 2 * |w|) % 0x1_0000;
      SameWordsSameInstruction(ps[0], qs[0], pc);
      FirstWordFixesLength(ps[0], pc, false);
      FirstWordFixesLength(qs[0], pc, false);
      var all, both := EncodeAll(ps, pc).value, EncodeAll(qs, pc).value;
      assert all[0] == w[0] && both[0] == v[0];
      if w[0] == v[0] {
        assert all[..|w|] == w && all[|w|..] == EncodeAll(ps[1..], next).value;
        assert both[..|w|] == v && both[|w|..] == EncodeAll(qs[1..], next).value;
        UniquelyDecodable(ps[1..], qs[1..], next);
        assert CanonAll(ps, pc)[1..] == CanonAll(ps[1..], next) && CanonAll(qs, pc)[1..] == CanonAll(qs[1..], next);
        assert CanonAll(ps, pc)[0] == Canon(ps[0], pc) && CanonAll(qs, pc)[0] == Canon(qs[0], pc);
      } else {
        assert CanonAll(ps, pc)[0] != CanonAll(qs, pc)[0];
      }
    }
  }
}
