/** The two assembly passes of the MN1613: the first gives every label its address, the second emits
    words and relocations.  Both walk the same lines with a counter per area. */
module Assembler {
  import opened Results
  import opened Assembly
  import opened Expression

  // ----- source lines

  /** An operand: an expression, a lone symbol (with or without `#`, `@` or brackets), or `*symbol`. */
  datatype Arg = Plain(e: Expr) | Ref(name: string) | Star(name: string)

  /** An instruction, reduced to what its words are made of.  `AiSi` is `AI`/`SI` with two operands, the
      second being the immediate; its opcode fills the upper twelve bits.  `TwoWord` has an opcode word
      and the value of one operand; `imm` says that the value must fit 16 bits. */
  datatype Instr =
    | AiSi(head: nat, args: seq<Arg>)
    | TwoWord(first: nat, imm: bool, operand: nat, args: seq<Arg>)
    | OneWord(code: (nat, SymbolTable) -> Result<nat>, args: seq<Arg>)

  datatype Op =
    | NoOp
    | Equ(name: string, e: Expr)
    | Org(e: Expr)
    | Area(name: string, noload: bool)
    | Ignored
    | Reserve(e: Expr)
    | Data(args: seq<Arg>)
    | OtherDirective
    | Code(i: Instr)

  datatype Line = Line(labelName: Option<string>, op: Op)

  function ArgExpr(a: Arg): Expr { if a.Plain? then a.e else Name(a.name) }

  function ArgsOf(i: Instr): seq<Arg> { i.args }

  // ----- area counters

  datatype Loc = Loc(pc: nat, noload: bool)

  /** The current area and every area's counter; `order` is the order the areas were opened in. */
  datatype Ctx = Ctx(current: string, order: seq<string>, locs: map<string, Loc>) {
    ghost predicate Valid() {
      current in locs && forall n :: n in order <==> n in locs
    }
  }

  const START: Ctx := Ctx("", [""], map["" := Loc(0, false)])

  function Pc(c: Ctx): nat { if c.current in c.locs then c.locs[c.current].pc else 0 }

  function Noload(c: Ctx): bool { c.current in c.locs && c.locs[c.current].noload }

  /** Counters are 16 bits wide. */
  function WithPc(c: Ctx, pc: int): Ctx {
    c.(locs := c.locs[c.current := Loc(pc % 0x1_0000, Noload(c))])
  }

  function Switched(c: Ctx, name: string, noload: bool): Ctx {
    var key := Upper(name);
    if key in c.locs then
      Ctx(key, c.order, if noload then c.locs[key := Loc(c.locs[key].pc, true)] else c.locs)
    else
      Ctx(key, c.order + [key], c.locs[key := Loc(0, noload)])
  }

  // ----- AI / SI immediates

  /** `#imm` of `AI`/`SI` in steps of at most 15. */
  function Steps(imm: nat): seq<nat> {
    if imm <= 15 then [imm] else StepsDown(imm)
  }

  function StepsDown(remain: nat): seq<nat> {
    if remain == 0 then []
    else
      var step := if remain < 15 then remain else 15;
      [step] + StepsDown(remain - step)
  }

  // ----- pass 1

  datatype Pass1State = Pass1State(ctx: Ctx, symbols: SymbolTable, symbolAreas: map<string, string>)

  function DefineLabel(s: Pass1State, labelName: string): Result<Pass1State> {
    var key := Upper(labelName);
    if key in s.symbols then Err("Duplicate symbol")
    else Ok(s.(symbols := s.symbols[key := Pc(s.ctx)],
               symbolAreas := s.symbolAreas[key := CanonicalAreaName(s.ctx.current)]))
  }

  /** The words an instruction will take; `AI`/`SI` depends on the immediate's value. */
  function InstrSize(i: Instr, symbols: SymbolTable): Result<nat> {
    match i
    case AiSi(_, args) =>
      if |args| != 2 then Ok(1)
      else
        var imm :- Eval(ArgExpr(args[1]), symbols, true);
        if imm < 0 then Err("I4 out of 4-bit range") else Ok(|Steps(imm)|)
    case TwoWord(_, _, _, _) => Ok(2)
    case OneWord(_, _) => Ok(1)
  }

  /** What a line does to the counters in the first pass. */
  function Move1(c: Ctx, op: Op, symbols: SymbolTable): Result<Ctx> {
    match op
    case Org(e) => var v :- Eval(e, symbols, true); Ok(WithPc(c, v))
    case Area(name, noload) => Ok(Switched(c, name, noload))
    case Reserve(e) =>
      var n :- Eval(e, symbols, true);
      if n < 0 then Err("count must not be negative") else Ok(WithPc(c, Pc(c) + n % 0x1_0000))
    case Data(args) => if Noload(c) then Err("cannot have initial values") else Ok(WithPc(c, Pc(c) + |args|))
    case OtherDirective => Ok(WithPc(c, Pc(c)))
    case Code(i) =>
      if Noload(c) then Err("cannot emit instructions in noload area")
      else
        var size :- InstrSize(i, symbols);
        Ok(WithPc(c, Pc(c) + size))
    case _ => Ok(c)
  }

  function Step1(s: Pass1State, line: Line): Result<Pass1State> {
    var t :- if line.labelName.Some? && !line.op.Equ? then DefineLabel(s, line.labelName.value) else Ok(s);
    if line.op.Equ? then
      var v :- Eval(line.op.e, t.symbols, true);
      Ok(t.(symbols := t.symbols[Upper(line.op.name) := v]))
    else
      var c :- Move1(t.ctx, line.op, t.symbols);
      Ok(t.(ctx := c))
  }

  function Run1(s: Pass1State, lines: seq<Line>): Result<Pass1State>
    decreases lines
  {
    if lines == [] then Ok(s)
    else
      var t :- Step1(s, lines[0]);
      Run1(t, lines[1..])
  }

  const START1: Pass1State := Pass1State(START, map[], map[])

  // ----- symbol kinds

  datatype Kind = Local | Global | External

  datatype SymbolInfo = SymbolInfo(value: int, kind: Kind, area: Option<string>)

  type Infos = map<string, SymbolInfo>

  function BuildInfos(s: Pass1State, globl: set<string>): Infos {
    map n | n in s.symbols.Keys + globl ::
      if n in s.symbols then
        SymbolInfo(s.symbols[n], if n in globl then Kind.Global else Local,
                   if n in s.symbolAreas then Some(s.symbolAreas[n]) else None)
      else SymbolInfo(0, External, None)
  }

  function RelocatableArea(area: string): bool {
    area == "_CODE" || area == "_DATA" || area == "_WORK" || area == "_SYS_PAGE0" || area == "_USR_PAGE0"
  }

  function ZeroPage(area: string): bool { area == "_SYS_PAGE0" || area == "_USR_PAGE0" }

  function InfoOperand(info: SymbolInfo, name: string, areas: string -> bool): Option<Operand> {
    if info.kind != Local then Some(Symbol(name))
    else if info.area.Some? && areas(info.area.value) then Some(Word(Low16(info.value), info.area))
    else None
  }

  /** The 16-bit relocation an operand asks for. */
  function MatchAbs(a: Arg, infos: Infos): Option<Operand> {
    if a.Ref? && a.name in infos then InfoOperand(infos[a.name], a.name, RelocatableArea) else None
  }

  /** The 8-bit zero-page relocation of `*symbol`. */
  function MatchStar(a: Arg, infos: Infos): Option<Operand> {
    if a.Star? && a.name in infos then InfoOperand(infos[a.name], a.name, ZeroPage) else None
  }

  function Mentions(e: Expr): set<string> {
    match e
    case Lit(_) => {}
    case Name(s) => {s}
    case Un(_, x) => Mentions(x)
    case Bin(_, l, r) => Mentions(l) + Mentions(r)
    case Paren(x) => Mentions(x)
  }

  predicate MentionsExternal(e: Expr, infos: Infos) {
    exists n | n in Mentions(e) :: n in infos && infos[n].kind == External
  }

  // ----- pass 2

  datatype Pass2State = Pass2State(ctx: Ctx, words: seq<EmittedWord>, relocs: seq<Reloc>)

  function Emit(s: Pass2State, address: nat, value: int): Pass2State {
    s.(words := s.words + [EmittedWord(address, Low16(value), CanonicalAreaName(s.ctx.current))])
  }

  function AddReloc(s: Pass2State, byteAddr: nat, left: Operand, width: Width): Pass2State {
    s.(relocs := s.relocs + [Reloc(byteAddr, left, Const(0), Some(CanonicalAreaName(s.ctx.current)), width)])
  }

  function U16(v: int): Result<nat> {
    if v < -0x8000 || v > 0xffff then Err("out of 16-bit range") else Ok(Low16(v))
  }

  /** One word of `.dw`. */
  function DataWord(s: Pass2State, a: Arg, symbols: SymbolTable, infos: Infos): Result<Pass2State> {
    var pc := Pc(s.ctx);
    match MatchAbs(a, infos)
    case Some(left) =>
      var v :- if left.Symbol? then Ok(0) else Eval(ArgExpr(a), symbols, false);
      var t := AddReloc(Emit(s, pc, if left.Word? then Low16(v) * 2 else v), pc * 2, left, Word16);
      Ok(t.(ctx := WithPc(t.ctx, pc + 1)))
    case None =>
      if a.Star? then Err("Undefined symbol")
      else if MentionsExternal(ArgExpr(a), infos) then Err("unsupported external expression")
      else
        var v :- Eval(ArgExpr(a), symbols, false);
        var w :- U16(v);
        var t := Emit(s, pc, w);
        Ok(t.(ctx := WithPc(t.ctx, pc + 1)))
  }

  function DataWords(s: Pass2State, args: seq<Arg>, symbols: SymbolTable, infos: Infos): Result<Pass2State>
    decreases args
  {
    if args == [] then Ok(s)
    else
      var t :- DataWord(s, args[0], symbols, infos);
      DataWords(t, args[1..], symbols, infos)
  }

  /** External names count as 0 while an instruction is encoded. */
  function ForEncode(symbols: SymbolTable, infos: Infos): SymbolTable {
    map n | n in symbols.Keys + infos.Keys && (n in symbols || infos[n].kind == External) ::
      if n in symbols then symbols[n] else 0
  }

  function Encode(i: Instr, pc: nat, symbols: SymbolTable): Result<seq<nat>> {
    match i
    case AiSi(head, args) =>
      if |args| != 2 then Err("operands")
      else
        var imm :- Eval(ArgExpr(args[1]), symbols, false);
        if imm < 0 then Err("I4 out of 4-bit range")
        else Ok(seq(|Steps(imm)|, k requires 0 <= k < |Steps(imm)| => Low16(head * 16 + Steps(imm)[k])))
    case TwoWord(first, imm, operand, args) =>
      if operand >= |args| then Err("operands")
      else
        var v :- Eval(ArgExpr(args[operand]), symbols, false);
        var w :- if imm then U16(v) else Ok(Low16(v));
        Ok([Low16(first), w])
    case OneWord(code, _) => var w :- code(pc, symbols); Ok([Low16(w)])
  }

  function EmitAll(s: Pass2State, pc: nat, ws: seq<nat>): Pass2State
    decreases ws
  {
    if ws == [] then s else EmitAll(Emit(s, pc, ws[0]), pc + 1, ws[1..])
  }

  /** The first operand that asks for a relocation. */
  function FirstMatch(args: seq<Arg>, infos: Infos, star: bool): Option<Operand> {
    if args == [] then None
    else
      var m := if star then MatchStar(args[0], infos) else MatchAbs(args[0], infos);
      if m.Some? then m else FirstMatch(args[1..], infos, star)
  }

  function SetLast(s: Pass2State, value: nat): Pass2State
    requires s.words != []
  {
    var k := |s.words| - 1;
    s.(words := s.words[k := s.words[k].(value := value)])
  }

  /** The relocation of an instruction of two or more words patches its last word; that of a one-word
      instruction patches the word's low byte. */
  function Relocated(s: Pass2State, pc: nat, ws: seq<nat>, args: seq<Arg>, infos: Infos): Pass2State
    requires ws != [] ==> s.words != []
  {
    if |ws| >= 2 then
      var last := s.words[|s.words| - 1];
      match FirstMatch(args, infos, false)
      case None => s
      case Some(left) =>
        AddReloc(SetLast(s, if left.Word? then last.value * 2 % 0x1_0000 else 0), last.address * 2, left, Word16)
    else if |ws| == 1 then
      var last := s.words[|s.words| - 1];
      match FirstMatch(args, infos, true)
      case None => s
      case Some(left) =>
        var low := if left.Word? then left.value * 2 % 256 else 0;
        AddReloc(SetLast(s, last.value / 256 * 256 + low), pc * 2 + 1, left, Low8)
    else s
  }

  lemma {:induction false} EmitAllWords(s: Pass2State, pc: nat, ws: seq<nat>)
    ensures EmitAll(s, pc, ws).ctx == s.ctx && EmitAll(s, pc, ws).relocs == s.relocs
    ensures EmitAll(s, pc, ws).words == s.words +
      seq(|ws|, k requires 0 <= k < |ws| => EmittedWord(pc + k, Low16(ws[k]), CanonicalAreaName(s.ctx.current)))
    decreases ws
  {
    hide CanonicalAreaName;
    if ws != [] {
      EmitAllWords(Emit(s, pc, ws[0]), pc + 1, ws[1..]);
    }
  }

  function CodeWords(s: Pass2State, i: Instr, symbols: SymbolTable, infos: Infos): Result<Pass2State> {
    var pc := Pc(s.ctx);
    var ws :- Encode(i, pc, ForEncode(symbols, infos));
    var t := EmitAll(s, pc, ws);
    EmitAllWords(s, pc, ws);
    var u := Relocated(t, pc, ws, ArgsOf(i), infos);
    Ok(u.(ctx := WithPc(u.ctx, pc + |ws|)))
  }

  function Step2(s: Pass2State, line: Line, symbols: SymbolTable, infos: Infos): Result<Pass2State> {
    match line.op
    case Org(e) => var v :- Eval(e, symbols, false); Ok(s.(ctx := WithPc(s.ctx, v)))
    case Area(name, noload) => Ok(s.(ctx := Switched(s.ctx, name, noload)))
    case Reserve(e) =>
      var n :- Eval(e, symbols, false);
      if n < 0 then Err("count must not be negative")
      else Ok(s.(ctx := WithPc(s.ctx, Pc(s.ctx) + n % 0x1_0000)))
    case Data(args) =>
      if Noload(s.ctx) then Err("cannot have initial values") else DataWords(s, args, symbols, infos)
    case OtherDirective => Err("Unsupported opcode")
    case Code(i) =>
      if Noload(s.ctx) then Err("cannot emit instructions in noload area") else CodeWords(s, i, symbols, infos)
    case _ => Ok(s)
  }

  function Run2(s: Pass2State, lines: seq<Line>, symbols: SymbolTable, infos: Infos): Result<Pass2State>
    decreases lines
  {
    if lines == [] then Ok(s)
    else
      var t :- Step2(s, lines[0], symbols, infos);
      Run2(t, lines[1..], symbols, infos)
  }

  const START2: Pass2State := Pass2State(START, [], [])

  // ----- area sizes

  /** The size an area is recorded with: the unnamed area counts as `_CODE`. */
  function FinalSize(c: Ctx, key: string): nat {
    var own := if key in c.locs then c.locs[key].pc else 0;
    var unnamed := if key == "_CODE" && "" in c.locs then c.locs[""].pc else 0;
    if unnamed > own then unnamed else own
  }

  /** The areas that are recorded: all that were opened, without an unnamed area nobody used. */
  function UsedNames(c: Ctx, order: seq<string>): seq<string> {
    if order == [] then []
    else (if order[0] == "" && "" in c.locs && c.locs[""].pc == 0 then [] else [order[0]]) + UsedNames(c, order[1..])
  }

  function IsNoload(c: Ctx, key: string): bool {
    key == "_WORK" || (key in c.locs && c.locs[key].noload) ||
    (key == "_CODE" && "" in c.locs && c.locs[""].pc > 0 && c.locs[""].noload)
  }

  function SnapshotAreas(c: Ctx): seq<AreaInfo> {
    var names := OrderLinkAreaNames(UsedNames(c, c.order));
    seq(|names|, k requires 0 <= k < |names| => AreaInfo(names[k], FinalSize(c, names[k]), IsNoload(c, names[k])))
  }
}
