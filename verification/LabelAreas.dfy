/** The areas labels lie in: whatever the sizes, both passes open the same areas, and every label's area is
    one of them. */
module LabelAreas {
  import opened Results
  import opened Assembly
  import opened Expression
  import opened Assembler
  import opened TwoPass

  ghost predicate SameAreas(c: Ctx, d: Ctx) { c.current == d.current && c.locs.Keys == d.locs.Keys }

  /** What the line does to the areas, counters aside. */
  function Opened(c: Ctx, op: Op): Ctx { if op.Area? then Switched(c, op.name, op.noload) else c }

  lemma OpenedSame(c: Ctx, d: Ctx, op: Op)
    requires SameAreas(c, d)
    ensures SameAreas(Opened(c, op), Opened(d, op))
  {
    hide Upper;
  }

  lemma MovedSame(c: Ctx, pc: int)
    requires Counted(c)
    ensures SameAreas(c, WithPc(c, pc)) && Counted(WithPc(c, pc))
  {
  }

  lemma Move1Areas(c: Ctx, op: Op, symbols: SymbolTable)
    requires Counted(c) && Move1(c, op, symbols).Ok?
    ensures var d := Move1(c, op, symbols).value; Counted(d) && SameAreas(d, Opened(c, op))
  {
    hide Eval, WithPc, Counted, Pc, Noload, InstrSize, Switched, SameAreas;
    SameAsItself(c);
    match op
    case Org(e) => MovedTo(c, Eval(e, symbols, true).value);
    case Reserve(e) => MovedTo(c, Pc(c) + Eval(e, symbols, true).value % 0x1_0000);
    case Data(args) => MovedTo(c, Pc(c) + |args|);
    case OtherDirective => MovedTo(c, Pc(c));
    case Code(i) => MovedTo(c, Pc(c) + InstrSize(i, symbols).value);
    case Area(name, noload) =>
      SwitchCounts(c, name, noload);
      SameAsItself(Switched(c, name, noload));
    case _ =>
  }

  lemma SameAsItself(c: Ctx)
    ensures SameAreas(c, c)
  {
  }

  lemma MovedTo(c: Ctx, pc: int)
    requires Counted(c)
    ensures Counted(WithPc(c, pc)) && SameAreas(WithPc(c, pc), c)
  {
    MovedSame(c, pc);
  }

  lemma Step2Areas(s: Pass2State, op: Op, symbols: SymbolTable, infos: Infos)
    requires Counted(s.ctx) && Step2(s, Line(None, op), symbols, infos).Ok?
    ensures var d := Step2(s, Line(None, op), symbols, infos).value.ctx; Counted(d) && SameAreas(d, Opened(s.ctx, op))
  {
    hide Eval, WithPc, Counted, Pc, Noload, DataWords, CodeWords, Encode, ForEncode, Switched, SameAreas;
    SameAsItself(s.ctx);
    match op
    case Org(e) => MovedTo(s.ctx, Eval(e, symbols, false).value);
    case Reserve(e) => MovedTo(s.ctx, Pc(s.ctx) + Eval(e, symbols, false).value % 0x1_0000);
    case Data(args) =>
      DataMoves(s, args, symbols, infos);
      MovedTo(s.ctx, Pc(s.ctx) + |args|);
    case Code(i) =>
      CodeMoves(s, i, symbols, infos);
      MovedTo(s.ctx, Pc(s.ctx) + |Encode(i, Pc(s.ctx), ForEncode(symbols, infos)).value|);
    case Area(name, noload) =>
      SwitchCounts(s.ctx, name, noload);
      SameAsItself(Switched(s.ctx, name, noload));
    case _ =>
  }

  // ----- where labels lie

  ghost predicate KnownArea(c: Ctx, area: string) {
    area == "_CODE" || (area != "" && Upper(area) == area && area in c.locs)
  }

  /** Named areas are spelled in capitals, and every label's area was opened. */
  ghost predicate Known(s: Pass1State) {
    s.ctx.current in s.ctx.locs && (forall n | n in s.ctx.locs :: n == "" || Upper(n) == n) &&
    forall n | n in s.symbolAreas :: KnownArea(s.ctx, s.symbolAreas[n])
  }

  lemma CurrentKnown(s: Pass1State)
    requires Known(s)
    ensures KnownArea(s.ctx, CanonicalAreaName(s.ctx.current))
  {
  }

  lemma KnownKept(s: Pass1State, c: Ctx, op: Op)
    requires Known(s) && SameAreas(c, Opened(s.ctx, op))
    ensures Known(s.(ctx := c))
  {
    if op.Area? {
      assert Upper(Upper(op.name)) == Upper(op.name);
    }
    hide Upper;
  }

  lemma Step1Known(s: Pass1State, line: Line)
    requires Known(s) && Counted(s.ctx) && Step1(s, line).Ok?
    ensures Known(Step1(s, line).value) && Counted(Step1(s, line).value.ctx)
    ensures SameAreas(Step1(s, line).value.ctx, Opened(s.ctx, line.op))
  {
    hide Eval, Move1, CanonicalAreaName, KnownArea, Upper, Pc, Counted, Switched, SameAreas;
    CurrentKnown(s);
    var t := if line.labelName.Some? && !line.op.Equ? then DefineLabel(s, line.labelName.value).value else s;
    assert Known(t);
    if line.op.Equ? {
      SameAsItself(s.ctx);
    } else {
      Move1Areas(t.ctx, line.op, t.symbols);
      KnownKept(t, Move1(t.ctx, line.op, t.symbols).value, line.op);
    }
  }

  lemma StartsAlike()
    ensures Known(START1) && Counted(START) && SameAreas(START1.ctx, START2.ctx)
  {
  }

  /** Before every line both passes have opened the same areas. */
  lemma {:induction false} AreasAgree(a: Assembled, i: nat)
    requires a.Succeeds() && i <= |a.lines|
    ensures Known(a.Before1(i)) && Counted(a.Before1(i).ctx) && Counted(a.Before2(i).ctx)
    ensures SameAreas(a.Before1(i).ctx, a.Before2(i).ctx)
  {
    hide Run1, Run2, Step1, Step2, Known, Counted, SameAreas, BuildInfos, Opened;
    if i == 0 {
      assert a.lines[..0] == [];
      NothingRun(a);
      StartsAlike();
    } else {
      AreasAgree(a, i - 1);
      Run1Upto(START1, a.lines, i - 1);
      Run1Upto(START1, a.lines, i);
      Run2Upto(START2, a.lines, a.Symbols(), a.Kinds(), i - 1);
      Run2Upto(START2, a.lines, a.Symbols(), a.Kinds(), i);
      var line := a.lines[i - 1];
      Step1Known(a.Before1(i - 1), line);
      Step2Unlabelled(a.Before2(i - 1), line, a.Symbols(), a.Kinds());
      Step2Areas(a.Before2(i - 1), line.op, a.Symbols(), a.Kinds());
      SameThrice(a.Before1(i).ctx, a.Before1(i - 1).ctx, a.Before2(i - 1).ctx, a.Before2(i).ctx, line.op);
    }
  }

  lemma SameThrice(c': Ctx, c: Ctx, d: Ctx, d': Ctx, op: Op)
    requires SameAreas(c, d) && SameAreas(c', Opened(c, op)) && SameAreas(d', Opened(d, op))
    ensures SameAreas(c', d')
  {
    OpenedSame(c, d, op);
    hide Opened;
  }

  /** The area of every label is `_CODE`, or one the second pass has opened. */
  lemma LabelAreaOpened(a: Assembled, n: string)
    requires a.Succeeds() && n in a.Kinds() && a.Kinds()[n].area.Some?
    ensures KnownArea(a.Pass2().value.ctx, a.Kinds()[n].area.value)
  {
    hide Run1, Run2, KnownArea, Counted;
    AreasAgree(a, |a.lines|);
    assert a.lines[..|a.lines|] == a.lines;
    assert KnownArea(a.Pass1().value.ctx, a.Kinds()[n].area.value);
    KnownAlike(a.Pass1().value.ctx, a.Pass2().value.ctx, a.Kinds()[n].area.value);
  }

  lemma KnownAlike(c: Ctx, d: Ctx, area: string)
    requires SameAreas(c, d) && KnownArea(c, area)
    ensures KnownArea(d, area)
  {
    hide Upper;
  }

  // ----- a label keeps its area

  lemma Step1KeepsArea(s: Pass1State, line: Line, key: string)
    requires Step1(s, line).Ok? && key in s.symbols && key in s.symbolAreas
    ensures var t := Step1(s, line).value;
      key in t.symbols && key in t.symbolAreas && t.symbolAreas[key] == s.symbolAreas[key]
  {
    hide Eval, Upper, Move1, Pc, CanonicalAreaName;
  }

  lemma {:induction false} Run1KeepsArea(s: Pass1State, lines: seq<Line>, key: string)
    requires Run1(s, lines).Ok? && key in s.symbols && key in s.symbolAreas
    ensures var t := Run1(s, lines).value;
      key in t.symbols && key in t.symbolAreas && t.symbolAreas[key] == s.symbolAreas[key]
    decreases lines
  {
    hide Step1;
    if lines != [] {
      Step1KeepsArea(s, lines[0], key);
      Run1KeepsArea(Step1(s, lines[0]).value, lines[1..], key);
    }
  }

  lemma LabelHasArea(s: Pass1State, line: Line)
    requires Step1(s, line).Ok? && line.labelName.Some? && !line.op.Equ?
    ensures var t, key := Step1(s, line).value, Upper(line.labelName.value);
      key in t.symbols && key in t.symbolAreas && t.symbolAreas[key] == CanonicalAreaName(s.ctx.current)
  {
    hide Eval, Upper, Move1, Pc, CanonicalAreaName;
  }

  /** A label's recorded area is the one the second pass is in at its line. */
  lemma LabelArea(a: Assembled, k: nat)
    requires a.Succeeds() && k < |a.lines| && a.lines[k].labelName.Some? && !a.lines[k].op.Equ?
    ensures var n := Upper(a.lines[k].labelName.value);
      n in a.Kinds() && a.Kinds()[n].area == Some(CanonicalAreaName(a.Before2(k).ctx.current))
  {
    hide Run1, Run2, Step1, Upper, CanonicalAreaName, Known, Counted;
    AreasAgree(a, k);
    var key := Upper(a.lines[k].labelName.value);
    Run1Upto(START1, a.lines, k);
    Run1Upto(START1, a.lines, k + 1);
    LabelHasArea(a.Before1(k), a.lines[k]);
    Run1Rest(START1, a.lines, k + 1);
    Run1KeepsArea(a.Before1(k + 1), a.lines[k + 1..], key);
  }
}
