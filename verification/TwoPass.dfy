/** When the two passes agree: on every line, or else on which line they part. */
module TwoPass {
  import opened Results
  import opened Assembly
  import opened Expression
  import opened Assembler

  // ----- AI / SI splitting

  function Sum(s: seq<nat>): nat { if s == [] then 0 else s[0] + Sum(s[1..]) }

  lemma {:induction false} StepsDownSum(remain: nat)
    ensures var s := StepsDown(remain);
      Sum(s) == remain && |s| == (remain + 14) / 15 && forall k | 0 <= k < |s| :: 1 <= s[k] <= 15
  {
    if remain > 0 {
      var step := if remain < 15 then remain else 15;
      StepsDownSum(remain - step);
      assert StepsDown(remain) == [step] + StepsDown(remain - step);
    }
  }

  /** The steps fit four bits, add up to the immediate, and are as few as they can be. */
  lemma StepsAddUp(imm: nat)
    ensures var s := Steps(imm);
      Sum(s) == imm && (forall k | 0 <= k < |s| :: s[k] <= 15) &&
      |s| == (if imm == 0 then 1 else (imm + 14) / 15)
  {
    StepsDownSum(imm);
    if imm <= 15 {
      assert Sum([imm]) == imm + Sum([imm][1..]);
    }
  }

  lemma {:induction false} SumOfSteps(s: seq<nat>)
    requires forall k | 0 <= k < |s| :: s[k] <= 15
    ensures Sum(s) <= 15 * |s|
  {
    if s != [] {
      SumOfSteps(s[1..]);
    }
  }

  /** Fewer steps of four bits do not add up to the immediate. */
  lemma NoShorterSplit(imm: nat, s: seq<nat>)
    requires s != [] && (forall k | 0 <= k < |s| :: s[k] <= 15) && Sum(s) == imm
    ensures |Steps(imm)| <= |s|
  {
    SumOfSteps(s);
    StepsAddUp(imm);
  }

  /** The loop of the encoder that cuts an immediate. */
  method SplitImmediate(imm: nat) returns (chunks: seq<nat>)
    ensures chunks == Steps(imm)
  {
    if imm <= 15 {
      return [imm];
    }
    chunks := [];
    var remain := imm;
    while remain > 0
      invariant StepsDown(imm) == chunks + StepsDown(remain)
    {
      var step := if remain < 15 then remain else 15;
      chunks := chunks + [step];
      remain := remain - step;
    }
  }

  // ----- one line in both passes

  ghost predicate Counted(c: Ctx) {
    c.current in c.locs && forall n | n in c.locs :: c.locs[n].pc < 0x1_0000
  }

  lemma WithPcEqual(c: Ctx, a: int, b: int)
    requires Counted(c)
    ensures WithPc(c, a) == WithPc(c, b) <==> a % 0x1_0000 == b % 0x1_0000
    ensures Counted(WithPc(c, a)) && Pc(WithPc(c, a)) == a % 0x1_0000 && Noload(WithPc(c, a)) == Noload(c)
    ensures WithPc(c, Pc(c)) == c
  {
    var x, y := WithPc(c, a), WithPc(c, b);
    assert x.locs[c.current].pc == a % 0x1_0000 && y.locs[c.current].pc == b % 0x1_0000;
    assert WithPc(c, Pc(c)).locs == c.locs;
  }

  lemma WithPcTwice(c: Ctx, a: int, b: int)
    requires Counted(c)
    ensures WithPc(WithPc(c, a), b) == WithPc(c, b)
  {
    assert WithPc(WithPc(c, a), b).locs == WithPc(c, b).locs;
  }

  lemma {:induction false} DataMoves(s: Pass2State, args: seq<Arg>, symbols: SymbolTable, infos: Infos)
    requires Counted(s.ctx) && DataWords(s, args, symbols, infos).Ok?
    ensures DataWords(s, args, symbols, infos).value.ctx == WithPc(s.ctx, Pc(s.ctx) + |args|)
    decreases args
  {
    hide MatchAbs, Eval, U16, MentionsExternal, Mentions, CanonicalAreaName, WithPc, Pc, Counted, Noload;
    var pc := Pc(s.ctx);
    WithPcEqual(s.ctx, pc + |args|, pc);
    if args != [] {
      DataWordMoves(s, args[0], symbols, infos);
      var t := DataWord(s, args[0], symbols, infos).value;
      WithPcEqual(s.ctx, pc + 1, pc);
      DataMoves(t, args[1..], symbols, infos);
      WithPcTwice(s.ctx, pc + 1, Pc(t.ctx) + |args| - 1);
      WithPcEqual(s.ctx, Pc(t.ctx) + |args| - 1, pc + |args|);
      AddAfterWrap(pc + 1, |args| - 1);
    }
  }

  lemma AddAfterWrap(a: int, n: int)
    ensures (a % 0x1_0000 + n) % 0x1_0000 == (a + n) % 0x1_0000
  {
  }

  lemma DataWordMoves(s: Pass2State, a: Arg, symbols: SymbolTable, infos: Infos)
    requires DataWord(s, a, symbols, infos).Ok?
    ensures DataWord(s, a, symbols, infos).value.ctx == WithPc(s.ctx, Pc(s.ctx) + 1)
  {
    hide MatchAbs, Eval, U16, MentionsExternal, CanonicalAreaName, WithPc, Pc;
  }

  /** The values a line's size or place depends on, as the two passes see them. */
  ghost predicate SizingAgrees(op: Op, early: SymbolTable, final: SymbolTable, infos: Infos) {
    match op
    case Org(e) => SameLow16(Eval(e, early, true), Eval(e, final, false))
    case Reserve(e) => SameLow16(Eval(e, early, true), Eval(e, final, false))
    case Code(AiSi(_, args)) =>
      |args| == 2 ==>
        SameSteps(Eval(ArgExpr(args[1]), early, true), Eval(ArgExpr(args[1]), ForEncode(final, infos), false))
    case _ => true
  }

  ghost predicate SameLow16(a: Result<int>, b: Result<int>) {
    a.Ok? && b.Ok? && a.value % 0x1_0000 == b.value % 0x1_0000
  }

  /** Two immediates that are cut into equally many words, as far as a 16-bit counter can tell. */
  ghost predicate SameSteps(a: Result<int>, b: Result<int>) {
    a.Ok? && b.Ok? && a.value >= 0 && b.value >= 0 && |Steps(a.value)| % 0x1_0000 == |Steps(b.value)| % 0x1_0000
  }

  lemma CodeMoves(s: Pass2State, i: Instr, symbols: SymbolTable, infos: Infos)
    requires CodeWords(s, i, symbols, infos).Ok?
    ensures var ws := Encode(i, Pc(s.ctx), ForEncode(symbols, infos));
      ws.Ok? && CodeWords(s, i, symbols, infos).value.ctx == WithPc(s.ctx, Pc(s.ctx) + |ws.value|)
  {
    hide Encode, EmitAll, FirstMatch, ForEncode, WithPc, Pc, CanonicalAreaName;
    var pc := Pc(s.ctx);
    var ws := Encode(i, pc, ForEncode(symbols, infos)).value;
    EmitAllWords(s, pc, ws);
  }

  lemma AddCancels(p: int, a: int, b: int)
    ensures (p + a) % 0x1_0000 == (p + b) % 0x1_0000 <==> a % 0x1_0000 == b % 0x1_0000
  {
    AddAfterWrap(a, p);
    AddAfterWrap(b, p);
    AddAfterWrap(p + a, -p);
    AddAfterWrap(p + b, -p);
  }

  /** Two moves from one counter agree exactly when they agree modulo 64K. */
  lemma MovesAlike(c: Ctx, a: int, b: int)
    requires Counted(c)
    ensures Counted(WithPc(c, Pc(c) + a))
    ensures WithPc(c, Pc(c) + a) == WithPc(c, Pc(c) + b) <==> a % 0x1_0000 == b % 0x1_0000
  {
    hide WithPc, Counted, Pc;
    WithPcEqual(c, Pc(c) + a, Pc(c) + b);
    AddCancels(Pc(c), a, b);
  }

  /** From equal counters, the two passes reach equal counters exactly when the line's sizing agrees. */
  lemma LineAgrees(c: Ctx, s2: Pass2State, op: Op, early: SymbolTable, final: SymbolTable, infos: Infos)
    requires Counted(c) && s2.ctx == c
    requires Move1(c, op, early).Ok? && Step2(s2, Line(None, op), final, infos).Ok? && !op.Equ?
    ensures Counted(Move1(c, op, early).value)
    ensures Step2(s2, Line(None, op), final, infos).value.ctx == Move1(c, op, early).value <==>
            SizingAgrees(op, early, final, infos)
  {
    hide Eval, WithPc, Pc, Counted, Noload, DataWords, CodeWords, ForEncode, Encode, InstrSize, Steps, Switched;
    match op
    case Org(e) =>
      WithPcEqual(c, Eval(e, early, true).value, Eval(e, final, false).value);
    case Reserve(e) =>
      MovesAlike(c, Eval(e, early, true).value % 0x1_0000, Eval(e, final, false).value % 0x1_0000);
    case Data(args) =>
      DataMoves(s2, args, final, infos);
      WithPcEqual(c, Pc(c) + |args|, 0);
    case Code(i) =>
      CodeMoves(s2, i, final, infos);
      MovesAlike(c, InstrSize(i, early).value, |Encode(i, Pc(c), ForEncode(final, infos)).value|);
      CodeSizes(i, Pc(c), early, final, infos);
    case Area(name, noload) => SwitchCounts(c, name, noload);
    case OtherDirective => WithPcEqual(c, Pc(c), 0);
    case _ =>
  }

  lemma SwitchCounts(c: Ctx, name: string, noload: bool)
    requires Counted(c)
    ensures Counted(Switched(c, name, noload))
  {
    hide Upper;
  }

  lemma CodeSizes(i: Instr, pc: nat, early: SymbolTable, final: SymbolTable, infos: Infos)
    requires InstrSize(i, early).Ok? && Encode(i, pc, ForEncode(final, infos)).Ok?
    ensures InstrSize(i, early).value % 0x1_0000 == |Encode(i, pc, ForEncode(final, infos)).value| % 0x1_0000 <==>
            SizingAgrees(Code(i), early, final, infos)
  {
    hide Eval, ForEncode, Steps;
  }

  // ----- whole sources

  lemma {:induction false} Run1Snoc(s: Pass1State, lines: seq<Line>, line: Line)
    ensures Run1(s, lines + [line]) == (var t :- Run1(s, lines); Step1(t, line))
    decreases lines
  {
    hide Step1;
    if lines == [] {
      assert lines + [line] == [line];
      assert [line][1..] == [];
    } else {
      assert (lines + [line])[0] == lines[0] && (lines + [line])[1..] == lines[1..] + [line];
      var t := Step1(s, lines[0]);
      if t.Ok? { Run1Snoc(t.value, lines[1..], line); }
    }
  }

  lemma {:induction false} Run2Snoc(s: Pass2State, lines: seq<Line>, line: Line, symbols: SymbolTable, infos: Infos)
    ensures Run2(s, lines + [line], symbols, infos) ==
      (var t :- Run2(s, lines, symbols, infos); Step2(t, line, symbols, infos))
    decreases lines
  {
    hide Step2;
    if lines == [] {
      assert lines + [line] == [line];
      assert [line][1..] == [];
    } else {
      assert (lines + [line])[0] == lines[0] && (lines + [line])[1..] == lines[1..] + [line];
      var t := Step2(s, lines[0], symbols, infos);
      if t.Ok? { Run2Snoc(t.value, lines[1..], line, symbols, infos); }
    }
  }

  /** A successful run succeeds up to every line. */
  lemma {:induction false} Run1Upto(s: Pass1State, lines: seq<Line>, i: nat)
    requires i <= |lines| && Run1(s, lines).Ok?
    ensures Run1(s, lines[..i]).Ok?
    ensures i < |lines| ==> Run1(s, lines[..i + 1]) == Step1(Run1(s, lines[..i]).value, lines[i])
    decreases |lines| - i
  {
    hide Step1, Run1;
    if i == |lines| {
      assert lines[..i] == lines;
    } else {
      Run1Upto(s, lines, i + 1);
      assert lines[..i + 1] == lines[..i] + [lines[i]];
      Run1Snoc(s, lines[..i], lines[i]);
    }
  }

  lemma {:induction false} Run2Upto(s: Pass2State, lines: seq<Line>, symbols: SymbolTable, infos: Infos, i: nat)
    requires i <= |lines| && Run2(s, lines, symbols, infos).Ok?
    ensures Run2(s, lines[..i], symbols, infos).Ok?
    ensures i < |lines| ==>
      Run2(s, lines[..i + 1], symbols, infos) ==
      Step2(Run2(s, lines[..i], symbols, infos).value, lines[i], symbols, infos)
    decreases |lines| - i
  {
    hide Step2, Run2;
    if i == |lines| {
      assert lines[..i] == lines;
    } else {
      Run2Upto(s, lines, symbols, infos, i + 1);
      assert lines[..i + 1] == lines[..i] + [lines[i]];
      Run2Snoc(s, lines[..i], lines[i], symbols, infos);
    }
  }

  /** An assembly: the source, the names declared global, and the results of both passes. */
  datatype Assembled = Assembled(lines: seq<Line>, globl: set<string>) {
    function Pass1(): Result<Pass1State> { Run1(START1, lines) }

    function Symbols(): SymbolTable { if Pass1().Ok? then Pass1().value.symbols else map[] }

    function Kinds(): Infos { if Pass1().Ok? then BuildInfos(Pass1().value, globl) else map[] }

    function Pass2(): Result<Pass2State> { Run2(START2, lines, Symbols(), Kinds()) }

    predicate Succeeds() { Pass1().Ok? && Pass2().Ok? }

    /** The first pass before line `i`. */
    function Before1(i: nat): Pass1State
      requires i <= |lines|
    {
      var s := Run1(START1, lines[..i]);
      if s.Ok? then s.value else START1
    }

    /** The second pass before line `i`. */
    function Before2(i: nat): Pass2State
      requires i <= |lines|
    {
      var s := Run2(START2, lines[..i], Symbols(), Kinds());
      if s.Ok? then s.value else START2
    }

    /** The symbols the first pass knows when it sizes line `i`: the line's own label included. */
    function Early(i: nat): SymbolTable
      requires i < |lines|
    {
      var s := Before1(i);
      if lines[i].labelName.Some? && !lines[i].op.Equ?
      then s.symbols[Upper(lines[i].labelName.value) := Pc(s.ctx)]
      else s.symbols
    }
  }

  lemma Step1Moves(s: Pass1State, line: Line)
    requires Step1(s, line).Ok?
    ensures !line.op.Equ? ==>
      var early := if line.labelName.Some? then s.symbols[Upper(line.labelName.value) := Pc(s.ctx)] else s.symbols;
      Move1(s.ctx, line.op, early) == Ok(Step1(s, line).value.ctx)
    ensures line.op.Equ? ==> Step1(s, line).value.ctx == s.ctx
  {
    hide Eval, Upper, Pc, CanonicalAreaName, WithPc, Noload, Switched, InstrSize;
  }

  lemma Step2Unlabelled(s: Pass2State, line: Line, symbols: SymbolTable, infos: Infos)
    ensures Step2(s, line, symbols, infos) == Step2(s, Line(None, line.op), symbols, infos)
  {
    hide Eval, DataWords, CodeWords, WithPc, Switched, Noload;
  }

  /** One step of both passes, from equal counters. */
  lemma StepAgrees(a: Assembled, i: nat)
    requires a.Succeeds() && i < |a.lines| && a.Before1(i).ctx == a.Before2(i).ctx && Counted(a.Before1(i).ctx)
    ensures Counted(a.Before1(i + 1).ctx)
    ensures a.Before1(i + 1).ctx == a.Before2(i + 1).ctx <==>
            SizingAgrees(a.lines[i].op, a.Early(i), a.Symbols(), a.Kinds())
  {
    hide Run1, Run2, Step1, Step2, Move1, SizingAgrees, Counted, Upper, Pc, BuildInfos;
    Run1Upto(START1, a.lines, i);
    Run1Upto(START1, a.lines, i + 1);
    Run2Upto(START2, a.lines, a.Symbols(), a.Kinds(), i);
    Run2Upto(START2, a.lines, a.Symbols(), a.Kinds(), i + 1);
    var s1, s2, line := a.Before1(i), a.Before2(i), a.lines[i];
    Step1Moves(s1, line);
    Step2Unlabelled(s2, line, a.Symbols(), a.Kinds());
    if line.op.Equ? {
      EquAgrees(s2, line.op, a.Early(i), a.Symbols(), a.Kinds());
    } else {
      LineAgrees(s1.ctx, s2, line.op, a.Early(i), a.Symbols(), a.Kinds());
    }
  }

  lemma EquAgrees(s2: Pass2State, op: Op, early: SymbolTable, final: SymbolTable, infos: Infos)
    requires op.Equ?
    ensures Step2(s2, Line(None, op), final, infos) == Ok(s2) && SizingAgrees(op, early, final, infos)
  {
  }

  /** Equal counters before every line up to `n`. */
  ghost predicate AgreeUpto(a: Assembled, n: nat)
    requires n <= |a.lines|
  {
    forall i | 0 <= i <= n :: a.Before1(i).ctx == a.Before2(i).ctx
  }

  lemma StartCounted()
    ensures Counted(START)
  {
  }

  lemma {:induction false} AgreeIffUpto(a: Assembled, n: nat)
    requires a.Succeeds() && n <= |a.lines|
    ensures AgreeUpto(a, n) <==>
      forall i | 0 <= i < n :: SizingAgrees(a.lines[i].op, a.Early(i), a.Symbols(), a.Kinds())
    ensures AgreeUpto(a, n) ==> Counted(a.Before1(n).ctx)
  {
    hide Run1, Run2, SizingAgrees, Counted;
    if n == 0 {
      assert a.lines[..0] == [];
      NothingRun(a);
      StartCounted();
    } else {
      AgreeIffUpto(a, n - 1);
      if AgreeUpto(a, n - 1) {
        StepAgrees(a, n - 1);
      }
    }
  }

  lemma NothingRun(a: Assembled)
    ensures Run1(START1, []) == Ok(START1) && Run2(START2, [], a.Symbols(), a.Kinds()) == Ok(START2)
  {
  }

  /** Pass agreement: the current area and every counter are the same in both passes before every line
      exactly when every `.org`, `.ds`, `.blkw` and split `AI`/`SI` sees the same size in both. */
  lemma PassesAgree(a: Assembled)
    requires a.Succeeds()
    ensures (forall i | 0 <= i <= |a.lines| :: a.Before1(i).ctx == a.Before2(i).ctx) <==>
            (forall i | 0 <= i < |a.lines| :: SizingAgrees(a.lines[i].op, a.Early(i), a.Symbols(), a.Kinds()))
  {
    hide Run1, Run2, SizingAgrees;
    AgreeIffUpto(a, |a.lines|);
  }

  // ----- a condition on the source text

  /** An expression means the same under two tables that give its names the same values. */
  lemma {:induction false} EvalFrame(e: Expr, early: SymbolTable, final: SymbolTable)
    requires forall n | n in Mentions(e) :: n in early && n in final && early[n] == final[n]
    ensures Eval(e, early, true) == Eval(e, final, false)
  {
    hide Apply, ApplyUnary;
    match e
    case Un(_, x) => EvalFrame(x, early, final);
    case Bin(_, l, r) => EvalFrame(l, early, final); EvalFrame(r, early, final);
    case Paren(x) => EvalFrame(x, early, final);
    case _ =>
  }

  /** The expression that sizes or places a line, if there is one. */
  function SizingExpr(op: Op): Option<Expr> {
    match op
    case Org(e) => Some(e)
    case Reserve(e) => Some(e)
    case Code(AiSi(_, args)) => if |args| == 2 then Some(ArgExpr(args[1])) else None
    case _ => None
  }

  /** No sizing expression refers forward, and no name it uses changes its value later. */
  ghost predicate SizesAreSettled(a: Assembled) {
    forall i | 0 <= i < |a.lines| && SizingExpr(a.lines[i].op).Some? ::
      forall n | n in Mentions(SizingExpr(a.lines[i].op).value) ::
        n in a.Early(i) && n in a.Symbols() && a.Early(i)[n] == a.Symbols()[n]
  }

  lemma SettledAgrees(op: Op, early: SymbolTable, final: SymbolTable, infos: Infos)
    requires SizingExpr(op).Some? ==>
      forall n | n in Mentions(SizingExpr(op).value) :: n in early && n in final && early[n] == final[n]
    requires op.Org? || op.Reserve? ==> Eval(SizingExpr(op).value, final, false).Ok?
    requires op.Code? && SizingExpr(op).Some? ==>
      Eval(SizingExpr(op).value, ForEncode(final, infos), false).Ok? && Eval(SizingExpr(op).value, early, true).Ok? &&
      Eval(SizingExpr(op).value, early, true).value >= 0
    ensures SizingAgrees(op, early, final, infos)
  {
    hide Eval, Steps;
    if SizingExpr(op).Some? {
      EvalFrame(SizingExpr(op).value, early, final);
      EvalFrame(SizingExpr(op).value, early, ForEncode(final, infos));
    }
  }

  /** A line both passes accept evaluates its sizing expression in both. */
  lemma SizingSucceeds(s1: Ctx, s2: Pass2State, op: Op, early: SymbolTable, final: SymbolTable, infos: Infos)
    requires Move1(s1, op, early).Ok? && Step2(s2, Line(None, op), final, infos).Ok?
    ensures op.Org? || op.Reserve? ==> Eval(SizingExpr(op).value, final, false).Ok?
    ensures op.Code? && SizingExpr(op).Some? ==>
      Eval(SizingExpr(op).value, ForEncode(final, infos), false).Ok? && Eval(SizingExpr(op).value, early, true).Ok? &&
      Eval(SizingExpr(op).value, early, true).value >= 0
  {
    hide Eval, Steps, ForEncode, EmitAll, Relocated;
  }

  /** Sources whose sizes are settled are assembled alike by both passes. */
  lemma SettledSourcesAgree(a: Assembled)
    requires a.Succeeds() && SizesAreSettled(a)
    ensures forall i | 0 <= i <= |a.lines| :: a.Before1(i).ctx == a.Before2(i).ctx
  {
    hide Run1, Run2, SizingAgrees, SizesAreSettled;
    PassesAgree(a);
    forall i | 0 <= i < |a.lines| ensures SizingAgrees(a.lines[i].op, a.Early(i), a.Symbols(), a.Kinds()) {
      SettledLine(a, i);
    }
  }

  lemma SettledLine(a: Assembled, i: nat)
    requires a.Succeeds() && SizesAreSettled(a) && i < |a.lines|
    ensures SizingAgrees(a.lines[i].op, a.Early(i), a.Symbols(), a.Kinds())
  {
    hide Run1, Run2, Step1, Step2, Move1, SizingAgrees, Upper, Pc, BuildInfos, Mentions, Eval, ForEncode, SizingExpr;
    Run1Upto(START1, a.lines, i);
    Run1Upto(START1, a.lines, i + 1);
    Run2Upto(START2, a.lines, a.Symbols(), a.Kinds(), i);
    Run2Upto(START2, a.lines, a.Symbols(), a.Kinds(), i + 1);
    var s1, s2, line := a.Before1(i), a.Before2(i), a.lines[i];
    Step1Moves(s1, line);
    Step2Unlabelled(s2, line, a.Symbols(), a.Kinds());
    if line.op.Equ? {
      EquAgrees(s2, line.op, a.Early(i), a.Symbols(), a.Kinds());
    } else {
      SizingSucceeds(s1.ctx, s2, line.op, a.Early(i), a.Symbols(), a.Kinds());
      SettledAgrees(line.op, a.Early(i), a.Symbols(), a.Kinds());
    }
  }

  // ----- labels

  /** The symbol a line sets without asking whether it is there. */
  ghost predicate Sets(line: Line, key: string) { line.op.Equ? && Upper(line.op.name) == key }

  lemma Step1Keeps(s: Pass1State, line: Line, key: string)
    requires Step1(s, line).Ok? && key in s.symbols && !Sets(line, key)
    ensures key in Step1(s, line).value.symbols && Step1(s, line).value.symbols[key] == s.symbols[key]
  {
    hide Eval, Upper, Move1, Pc, CanonicalAreaName;
  }

  lemma {:induction false} Run1Keeps(s: Pass1State, lines: seq<Line>, key: string)
    requires Run1(s, lines).Ok? && key in s.symbols && forall k | 0 <= k < |lines| :: !Sets(lines[k], key)
    ensures key in Run1(s, lines).value.symbols && Run1(s, lines).value.symbols[key] == s.symbols[key]
    decreases lines
  {
    hide Step1, Sets;
    if lines != [] {
      Step1Keeps(s, lines[0], key);
      assert forall k | 0 <= k < |lines| - 1 :: lines[1..][k] == lines[k + 1];
      Run1Keeps(Step1(s, lines[0]).value, lines[1..], key);
    }
  }

  lemma {:induction false} Run1Rest(s: Pass1State, lines: seq<Line>, i: nat)
    requires i <= |lines| && Run1(s, lines).Ok? && Run1(s, lines[..i]).Ok?
    ensures Run1(s, lines) == Run1(Run1(s, lines[..i]).value, lines[i..])
    decreases i
  {
    hide Step1;
    if i == 0 {
      assert lines[..0] == [] && lines[0..] == lines;
    } else {
      assert lines[..i][0] == lines[0] && lines[..i][1..] == lines[1..][..i - 1];
      assert lines[1..][i - 1..] == lines[i..];
      Run1Rest(Step1(s, lines[0]).value, lines[1..], i - 1);
    }
  }

  lemma LabelDefined(s: Pass1State, line: Line)
    requires Step1(s, line).Ok? && line.labelName.Some? && !line.op.Equ?
    ensures var key := Upper(line.labelName.value);
      key in Step1(s, line).value.symbols && Step1(s, line).value.symbols[key] == Pc(s.ctx)
  {
    hide Eval, Upper, Move1, Pc, CanonicalAreaName;
  }

  /** When the passes agree, a label that no later `.equ` overwrites names the address at which the
      second pass emits or reserves its line. */
  lemma LabelsAreEmissionAddresses(a: Assembled, i: nat)
    requires a.Succeeds() && forall k | 0 <= k < |a.lines| ::
      SizingAgrees(a.lines[k].op, a.Early(k), a.Symbols(), a.Kinds())
    requires i < |a.lines| && a.lines[i].labelName.Some? && !a.lines[i].op.Equ?
    requires forall k | i < k < |a.lines| :: !Sets(a.lines[k], Upper(a.lines[i].labelName.value))
    ensures var key := Upper(a.lines[i].labelName.value);
      key in a.Symbols() && a.Symbols()[key] == Pc(a.Before2(i).ctx)
  {
    hide Run1, Run2, Step1, Step2, SizingAgrees, Upper, Pc, BuildInfos, Sets;
    PassesAgree(a);
    var key := Upper(a.lines[i].labelName.value);
    Run1Upto(START1, a.lines, i);
    Run1Upto(START1, a.lines, i + 1);
    LabelDefined(a.Before1(i), a.lines[i]);
    Run1Rest(START1, a.lines, i + 1);
    var rest := a.lines[i + 1..];
    forall k | 0 <= k < |rest| ensures !Sets(rest[k], key) {
      assert rest[k] == a.lines[i + 1 + k];
    }
    Run1Keeps(a.Before1(i + 1), a.lines[i + 1..], key);
  }

  // ----- sources given line by line

  /** States that follow one another by the lines' steps are the states of the run. */
  lemma {:induction false} Trace1(lines: seq<Line>, s: seq<Pass1State>)
    requires |s| == |lines| + 1
    requires forall i | 0 <= i < |lines| :: Step1(s[i], lines[i]) == Ok(s[i + 1])
    ensures Run1(s[0], lines) == Ok(s[|lines|])
    decreases |lines|
  {
    hide Step1;
    if lines != [] {
      Trace1(lines[1..], s[1..]);
    }
  }

  lemma {:induction false} Trace2(lines: seq<Line>, s: seq<Pass2State>, symbols: SymbolTable, infos: Infos)
    requires |s| == |lines| + 1
    requires forall i | 0 <= i < |lines| :: Step2(s[i], lines[i], symbols, infos) == Ok(s[i + 1])
    ensures Run2(s[0], lines, symbols, infos) == Ok(s[|lines|])
    decreases |lines|
  {
    hide Step2;
    if lines != [] {
      Trace2(lines[1..], s[1..], symbols, infos);
    }
  }

  /** Both runs of a source, from a list of states for each pass. */
  lemma Traced(a: Assembled, s: seq<Pass1State>, t: seq<Pass2State>)
    requires |s| == |t| == |a.lines| + 1 && s[0] == START1 && t[0] == START2
    requires forall i | 0 <= i < |a.lines| :: Step1(s[i], a.lines[i]) == Ok(s[i + 1])
    requires var last := s[|a.lines|];
      forall i | 0 <= i < |a.lines| ::
        Step2(t[i], a.lines[i], last.symbols, BuildInfos(last, a.globl)) == Ok(t[i + 1])
    ensures a.Pass1() == Ok(s[|a.lines|]) && a.Pass2() == Ok(t[|a.lines|]) && a.Succeeds()
    ensures a.Symbols() == s[|a.lines|].symbols && a.Kinds() == BuildInfos(s[|a.lines|], a.globl)
    ensures forall i | 0 <= i <= |a.lines| :: a.Before1(i) == s[i] && a.Before2(i) == t[i]
  {
    hide Step1, Step2, Run1, Run2, BuildInfos;
    Trace1(a.lines, s);
    Trace2(a.lines, t, a.Symbols(), a.Kinds());
    forall i | 0 <= i <= |a.lines| ensures a.Before1(i) == s[i] && a.Before2(i) == t[i] {
      Trace1(a.lines[..i], s[..i + 1]);
      Trace2(a.lines[..i], t[..i + 1], a.Symbols(), a.Kinds());
    }
  }

  // ----- a source the passes do not agree on

  /** `.ds N`, then a label, then `N .equ 4`. */
  function ForwardReserve(): Assembled {
    Assembled([Line(None, Reserve(Name("N"))), Line(Some("LAB"), NoOp), Line(None, Equ("N", Lit(4)))], {})
  }

  /** A forward reference in `.ds` counts as 0 in the first pass: the label behind it is 0 in the symbol
      table, while the second pass reaches it at 4. */
  lemma ForwardReserveParts()
    ensures var a := ForwardReserve();
      a.Succeeds() && a.Symbols() == map["LAB" := 0, "N" := 4] && Pc(a.Before2(1).ctx) == 4
  {
    hide Step1, Step2, Eval;
    var a := ForwardReserve();
    var s1, s2, s3 := ReserveSteps1();
    var t := Pass2State(WithPc(START, 4), [], []);
    ReserveSteps2(BuildInfos(s3, {}));
    Traced(a, [START1, s1, s2, s3], [START2, t, t, t]);
  }

  lemma ReserveSteps1() returns (s1: Pass1State, s2: Pass1State, s3: Pass1State)
    ensures s3.symbols == map["LAB" := 0, "N" := 4]
    ensures var lines := ForwardReserve().lines;
      Step1(START1, lines[0]) == Ok(s1) && Step1(s1, lines[1]) == Ok(s2) && Step1(s2, lines[2]) == Ok(s3)
  {
    assert Upper("LAB") == "LAB" && Upper("N") == "N";
    var c := WithPc(START, 0);
    s1 := Pass1State(c, map[], map[]);
    s2 := Pass1State(c, map["LAB" := 0], map["LAB" := "_CODE"]);
    s3 := Pass1State(c, map["LAB" := 0, "N" := 4], map["LAB" := "_CODE"]);
  }

  lemma ReserveSteps2(infos: Infos)
    ensures var t, lines := Pass2State(WithPc(START, 4), [], []), ForwardReserve().lines;
      var symbols := map["LAB" := 0, "N" := 4];
      Step2(START2, lines[0], symbols, infos) == Ok(t) && Step2(t, lines[1], symbols, infos) == Ok(t) &&
      Step2(t, lines[2], symbols, infos) == Ok(t)
  {
    assert Eval(Name("N"), map["LAB" := 0, "N" := 4], false) == Ok(4);
  }
}
