/** The passes as they run: line by line, on area counters that are updated in place. */
module Passes {
  import opened Results
  import opened Assembly
  import opened Expression
  import opened Assembler

  /** The current area and the counters of all areas. */
  class AreaContext {
    var current: string
    var order: seq<string>
    var locs: map<string, Loc>

    /** The value the context stands for. */
    function State(): Ctx
      reads this
    {
      Ctx(current, order, locs)
    }

    constructor ()
      ensures State() == START
    {
      current, order, locs := "", [""], map["" := Loc(0, false)];
    }

    method SetPc(pc: int)
      modifies this
      ensures State() == WithPc(old(State()), pc)
    {
      locs := locs[current := Loc(pc % 0x1_0000, Noload(State()))];
    }

    method Switch(name: string, noload: bool)
      modifies this
      ensures State() == Switched(old(State()), name, noload)
    {
      var key := Upper(name);
      if key in locs {
        if noload {
          locs := locs[key := Loc(locs[key].pc, true)];
        }
      } else {
        locs := locs[key := Loc(0, noload)];
        order := order + [key];
      }
      current := key;
    }
  }

  /** Pass 1: labels and sizes. */
  method RunFirstPass(lines: seq<Line>) returns (r: Result<Pass1State>)
    ensures r == Run1(START1, lines)
  {
    hide Eval, InstrSize, Switched, WithPc, Upper, CanonicalAreaName, Run1;
    var areas := new AreaContext();
    var symbols: SymbolTable, symbolAreas: map<string, string> := map[], map[];
    assert lines[0..] == lines;
    for k := 0 to |lines|
      invariant Run1(START1, lines) == Run1(Pass1State(areas.State(), symbols, symbolAreas), lines[k..])
    {
      var line := lines[k];
      ghost var before := Pass1State(areas.State(), symbols, symbolAreas);
      RunStep1(before, lines, k);
      if line.labelName.Some? && !line.op.Equ? {
        var key := Upper(line.labelName.value);
        if key in symbols {
          return Err("Duplicate symbol");
        }
        symbols := symbols[key := Pc(areas.State())];
        symbolAreas := symbolAreas[key := CanonicalAreaName(areas.current)];
      }
      match line.op {
        case Equ(name, e) =>
          var v := Eval(e, symbols, true);
          if v.Err? { return Err(v.error); }
          symbols := symbols[Upper(name) := v.value];
        case Org(e) =>
          var v := Eval(e, symbols, true);
          if v.Err? { return Err(v.error); }
          areas.SetPc(v.value);
        case Area(name, noload) =>
          areas.Switch(name, noload);
        case Reserve(e) =>
          var n := Eval(e, symbols, true);
          if n.Err? { return Err(n.error); }
          if n.value < 0 { return Err("count must not be negative"); }
          areas.SetPc(Pc(areas.State()) + n.value % 0x1_0000);
        case Data(args) =>
          if Noload(areas.State()) { return Err("cannot have initial values"); }
          areas.SetPc(Pc(areas.State()) + |args|);
        case OtherDirective =>
          areas.SetPc(Pc(areas.State()));
        case Code(i) =>
          if Noload(areas.State()) { return Err("cannot emit instructions in noload area"); }
          var size := InstrSize(i, symbols);
          if size.Err? { return Err(size.error); }
          areas.SetPc(Pc(areas.State()) + size.value);
        case _ =>
      }
    }
    assert lines[|lines|..] == [];
    Run1Nothing(Pass1State(areas.State(), symbols, symbolAreas));
    r := Ok(Pass1State(areas.State(), symbols, symbolAreas));
  }

  lemma RunStep1(s: Pass1State, lines: seq<Line>, k: nat)
    requires k < |lines|
    ensures match Step1(s, lines[k])
      case Err(e) => Run1(s, lines[k..]) == Err(e)
      case Ok(t) => Run1(s, lines[k..]) == Run1(t, lines[k + 1..])
  {
    hide Step1;
    assert lines[k..][0] == lines[k] && lines[k..][1..] == lines[k + 1..];
  }

  lemma Run1Nothing(s: Pass1State)
    ensures Run1(s, []) == Ok(s)
  {
  }

  lemma Run2Nothing(s: Pass2State, symbols: SymbolTable, infos: Infos)
    ensures Run2(s, [], symbols, infos) == Ok(s)
  {
  }

  lemma RunStep2(s: Pass2State, lines: seq<Line>, k: nat, symbols: SymbolTable, infos: Infos)
    requires k < |lines|
    ensures match Step2(s, lines[k], symbols, infos)
      case Err(e) => Run2(s, lines[k..], symbols, infos) == Err(e)
      case Ok(t) => Run2(s, lines[k..], symbols, infos) == Run2(t, lines[k + 1..], symbols, infos)
  {
    hide Step2;
    assert lines[k..][0] == lines[k] && lines[k..][1..] == lines[k + 1..];
  }

  /** Pass 2 in progress: the counters, and the words and relocations pushed so far. */
  class Emitter {
    const symbols: SymbolTable
    const infos: Infos
    const areas: AreaContext
    var words: seq<EmittedWord>
    var relocs: seq<Reloc>

    function State(): Pass2State
      reads this, areas
    {
      Pass2State(areas.State(), words, relocs)
    }

    constructor (symbols: SymbolTable, infos: Infos)
      ensures this.symbols == symbols && this.infos == infos && State() == START2 && fresh(areas)
    {
      this.symbols, this.infos := symbols, infos;
      areas := new AreaContext();
      words, relocs := [], [];
    }

    method PushWord(address: nat, value: int)
      modifies this
      ensures State() == Emit(old(State()), address, value)
    {
      words := words + [EmittedWord(address, Low16(value), CanonicalAreaName(areas.current))];
    }

    method PushReloc(byteAddr: nat, left: Operand, width: Width)
      modifies this
      ensures State() == AddReloc(old(State()), byteAddr, left, width)
    {
      relocs := relocs + [Reloc(byteAddr, left, Const(0), Some(CanonicalAreaName(areas.current)), width)];
    }

    /** The operands of one `.dw`. */
    method EmitData(args: seq<Arg>) returns (failed: Option<string>)
      modifies this, areas
      ensures match failed
        case Some(e) => DataWords(old(State()), args, symbols, infos) == Err(e)
        case None => DataWords(old(State()), args, symbols, infos) == Ok(State())
    {
      hide Eval, MatchAbs, MentionsExternal, U16, CanonicalAreaName, WithPc, DataWords, Pc;
      assert args[0..] == args;
      for k := 0 to |args|
        invariant DataWords(old(State()), args, symbols, infos) == DataWords(State(), args[k..], symbols, infos)
      {
        DataStep(State(), args, k, symbols, infos);
        var a, pc := args[k], Pc(areas.State());
        var m := MatchAbs(a, infos);
        if m.Some? {
          var left := m.value;
          var v: Result<int> := if left.Symbol? then Ok(0) else Eval(ArgExpr(a), symbols, false);
          if v.Err? { return Some(v.error); }
          PushWord(pc, if left.Word? then Low16(v.value) * 2 else v.value);
          PushReloc(pc * 2, left, Word16);
        } else {
          if a.Star? { return Some("Undefined symbol"); }
          if MentionsExternal(ArgExpr(a), infos) { return Some("unsupported external expression"); }
          var v := Eval(ArgExpr(a), symbols, false);
          if v.Err? { return Some(v.error); }
          var w := U16(v.value);
          if w.Err? { return Some(w.error); }
          PushWord(pc, w.value);
        }
        areas.SetPc(pc + 1);
      }
      assert args[|args|..] == [];
      DataNothing(State(), symbols, infos);
      failed := None;
    }

    /** The words of one instruction, its relocation, and the counter behind it. */
    method EmitCode(i: Instr) returns (failed: Option<string>)
      modifies this, areas
      ensures match failed
        case Some(e) => CodeWords(old(State()), i, symbols, infos) == Err(e)
        case None => CodeWords(old(State()), i, symbols, infos) == Ok(State())
    {
      hide Encode, ForEncode, WithPc, Pc, CanonicalAreaName, EmitAll, Relocated;
      ghost var start := State();
      var pc := Pc(areas.State());
      var ws := Encode(i, pc, ForEncode(symbols, infos));
      if ws.Err? { return Some(ws.error); }
      PushWords(pc, ws.value);
      EmitAllWords(start, pc, ws.value);
      RelocateLast(pc, ws.value, i);
      areas.SetPc(pc + |ws.value|);
      failed := None;
    }

    method PushWords(pc: nat, ws: seq<nat>)
      modifies this
      ensures State() == EmitAll(old(State()), pc, ws)
    {
      assert ws[0..] == ws;
      for k := 0 to |ws|
        invariant EmitAll(old(State()), pc, ws) == EmitAll(State(), pc + k, ws[k..])
      {
        assert ws[k..][0] == ws[k] && ws[k..][1..] == ws[k + 1..];
        PushWord(pc + k, ws[k]);
      }
    }

    method RelocateLast(pc: nat, ws: seq<nat>, i: Instr)
      requires ws != [] ==> words != []
      modifies this
      ensures State() == Relocated(old(State()), pc, ws, ArgsOf(i), infos)
    {
      hide FirstMatch, CanonicalAreaName;
      if |ws| >= 2 {
        var m := FirstMatch(ArgsOf(i), infos, false);
        if m.Some? {
          var last := words[|words| - 1];
          words := words[|words| - 1 := last.(value := if m.value.Word? then last.value * 2 % 0x1_0000 else 0)];
          PushReloc(last.address * 2, m.value, Word16);
        }
      } else if |ws| == 1 {
        var m := FirstMatch(ArgsOf(i), infos, true);
        if m.Some? {
          var last := words[|words| - 1];
          var low := if m.value.Word? then m.value.value * 2 % 256 else 0;
          words := words[|words| - 1 := last.(value := last.value / 256 * 256 + low)];
          PushReloc(pc * 2 + 1, m.value, Low8);
        }
      }
    }

    /** Pass 2: walk the lines again and emit. */
    method Run(lines: seq<Line>) returns (r: Result<Pass2State>)
      modifies this, areas
      ensures r == Run2(old(State()), lines, symbols, infos)
    {
      hide Eval, DataWords, CodeWords, Switched, WithPc, Run2, Pc, Noload;
      assert lines[0..] == lines;
      for k := 0 to |lines|
        invariant Run2(old(State()), lines, symbols, infos) == Run2(State(), lines[k..], symbols, infos)
      {
        RunStep2(State(), lines, k, symbols, infos);
        match lines[k].op {
          case Org(e) =>
            var v := Eval(e, symbols, false);
            if v.Err? { return Err(v.error); }
            areas.SetPc(v.value);
          case Area(name, noload) =>
            areas.Switch(name, noload);
          case Reserve(e) =>
            var n := Eval(e, symbols, false);
            if n.Err? { return Err(n.error); }
            if n.value < 0 { return Err("count must not be negative"); }
            areas.SetPc(Pc(areas.State()) + n.value % 0x1_0000);
          case Data(args) =>
            if Noload(areas.State()) { return Err("cannot have initial values"); }
            var failed := EmitData(args);
            if failed.Some? { return Err(failed.value); }
          case OtherDirective =>
            return Err("Unsupported opcode");
          case Code(i) =>
            if Noload(areas.State()) { return Err("cannot emit instructions in noload area"); }
            var failed := EmitCode(i);
            if failed.Some? { return Err(failed.value); }
          case _ =>
        }
      }
      assert lines[|lines|..] == [];
      Run2Nothing(State(), symbols, infos);
      r := Ok(State());
    }
  }

  lemma DataStep(s: Pass2State, args: seq<Arg>, k: nat, symbols: SymbolTable, infos: Infos)
    requires k < |args|
    ensures match DataWord(s, args[k], symbols, infos)
      case Err(e) => DataWords(s, args[k..], symbols, infos) == Err(e)
      case Ok(t) => DataWords(s, args[k..], symbols, infos) == DataWords(t, args[k + 1..], symbols, infos)
  {
    hide DataWord;
    assert args[k..][0] == args[k] && args[k..][1..] == args[k + 1..];
  }

  lemma DataNothing(s: Pass2State, symbols: SymbolTable, infos: Infos)
    ensures DataWords(s, [], symbols, infos) == Ok(s)
  {
  }
}
