/** Line by line: the word the second pass emits for an operand that is a lone name, and what stays of it. */
module EmittedLines {
  import opened Results
  import opened Assembly
  import opened Expression
  import opened Assembler
  import opened TwoPass
  import opened RelWriter
  import opened WordAddressLink
  import opened EmittedModules

  /** Word `d` of the line is the value of the lone name `n`: an argument of `.dw`, or the operand word of a
      two-word instruction. */
  ghost predicate Holds(op: Op, d: nat, n: string) {
    (op.Data? && d < |op.args| && op.args[d] == Ref(n)) ||
    (op.Code? && op.i.TwoWord? && d == 1 && op.i.operand < |op.i.args| && op.i.args[op.i.operand] == Ref(n))
  }

  // ----- what is emitted stays

  ghost predicate OnWord(r: Reloc, w: EmittedWord) { RelocArea(r) == w.area && Slot(r) == w.address }

  /** More words and relocations, and none of the new relocations on an old word. */
  ghost predicate Grows(s: Pass2State, t: Pass2State) {
    s.words <= t.words && s.relocs <= t.relocs &&
    forall w, k | w in s.words && |s.relocs| <= k < |t.relocs| :: !OnWord(t.relocs[k], w)
  }

  lemma GrowsTwice(s: Pass2State, t: Pass2State, u: Pass2State)
    requires Grows(s, t) && Grows(t, u)
    ensures Grows(s, u)
  {
    hide OnWord;
    forall w, k | w in s.words && |s.relocs| <= k < |u.relocs| ensures !OnWord(u.relocs[k], w) {
      if k < |t.relocs| {
        assert u.relocs[k] == t.relocs[k];
      } else {
        assert w in t.words;
      }
    }
  }

  lemma StaysGrown(s: Pass2State, t: Pass2State)
    requires t.words == s.words && t.relocs == s.relocs
    ensures Grows(s, t)
  {
  }

  /** Words of the current area lie below its counter. */
  lemma BelowCounter(s: Pass2State, infos: Infos, w: EmittedWord)
    requires Emission(s, infos) && Alone(s.ctx) && w in s.words && w.area == CanonicalAreaName(s.ctx.current)
    ensures w.address < Pc(s.ctx)
  {
    hide FinalSize, NoClash, GoodReloc, CanonicalAreaName, Pc, Keys, Alone, HasWord, DistinctSlots;
    PcIsSmall(s.ctx);
    SizeIsCounter(s.ctx, Pc(s.ctx));
    assert GoodWord(s.ctx, w);
  }

  lemma BatchGrows(s: Pass2State, ws: seq<EmittedWord>, rs: seq<Reloc>, infos: Infos, t: Pass2State)
    requires Emission(s, infos) && Batch(s, ws, rs, infos) && Alone(s.ctx)
    requires t.words == s.words + ws && t.relocs == s.relocs + rs
    ensures Grows(s, t)
  {
    hide Emission, GoodReloc, CanonicalAreaName, Pc, Alone, Slot, RelocArea;
    forall w, k | w in s.words && |s.relocs| <= k < |t.relocs| ensures !OnWord(t.relocs[k], w) {
      var r := t.relocs[k];
      assert r in rs;
      var w' :| w' in ws && w'.area == RelocArea(r) && Placeholder(w', r);
      if w.area == RelocArea(r) {
        BelowCounter(s, infos, w);
      }
    }
  }

  /** No relocation emitted so far is on a word that comes next. */
  lemma NextIsFree(s: Pass2State, infos: Infos, w: EmittedWord)
    requires Emission(s, infos) && Alone(s.ctx) && w.area == CanonicalAreaName(s.ctx.current) && Pc(s.ctx) <= w.address
    ensures forall r | r in s.relocs :: !OnWord(r, w)
  {
    hide CanonicalAreaName, Pc, Alone, Slot, RelocArea, NoClash, DistinctSlots, GoodReloc, Keys, GoodWord;
    forall r | r in s.relocs ensures !OnWord(r, w) {
      assert HasWord(s.words, r);
      var w' :| w' in s.words && w'.area == RelocArea(r) && Placeholder(w', r);
      if w'.area == w.area {
        BelowCounter(s, infos, w');
      }
    }
  }

  // ----- one operand

  /** The operand's word is emitted at the address: with the relocation asked for, or with the plain value
      and no relocation on it. */
  ghost predicate Emits(t: Pass2State, area: string, address: nat, asked: Option<Operand>, value: nat) {
    if asked.Some? then Reloc(address * 2, asked.value, Const(0), Some(area), Word16) in t.relocs
    else
      var w := EmittedWord(address, value, area);
      w in t.words && forall r | r in t.relocs :: !OnWord(r, w)
  }

  lemma EmitsStays(s: Pass2State, t: Pass2State, area: string, address: nat, asked: Option<Operand>, value: nat)
    requires Emits(s, area, address, asked, value) && Grows(s, t)
    ensures Emits(t, area, address, asked, value)
  {
    hide OnWord;
    if asked.None? {
      var w := EmittedWord(address, value, area);
      forall r | r in t.relocs ensures !OnWord(r, w) {
        var k :| 0 <= k < |t.relocs| && t.relocs[k] == r;
        assert k < |s.relocs| ==> s.relocs[k] == r && s.relocs[k] in s.relocs;
      }
    }
  }

  /** The value a name has in the symbol table, in 16 bits. */
  function ValueOf(symbols: SymbolTable, n: string): nat { if n in symbols then Low16(symbols[n]) else 0 }

  /** One argument of `.dw` that is a lone name. */
  lemma DatumEmits(s: Pass2State, n: string, symbols: SymbolTable, infos: Infos)
    requires DataWord(s, Ref(n), symbols, infos).Ok? && Emission(s, infos) && Alone(s.ctx)
    ensures Emits(DataWord(s, Ref(n), symbols, infos).value, CanonicalAreaName(s.ctx.current), Pc(s.ctx),
                  MatchAbs(Ref(n), infos), ValueOf(symbols, n))
  {
    hide WithPc, CanonicalAreaName, MatchAbs, Pc, Emission, Alone, MentionsExternal, OnWord;
    var t, area, pc := DataWord(s, Ref(n), symbols, infos).value, CanonicalAreaName(s.ctx.current), Pc(s.ctx);
    var m := MatchAbs(Ref(n), infos);
    if m.Some? {
      assert t.relocs[|s.relocs|] == Reloc(pc * 2, m.value, Const(0), Some(area), Word16);
    } else {
      NameIs(n, symbols);
      var w := EmittedWord(pc, ValueOf(symbols, n), area);
      assert t.words[|s.words|] == w;
      NextIsFree(s, infos, w);
    }
  }

  lemma NameIs(n: string, symbols: SymbolTable)
    ensures Eval(Name(n), symbols, false) == if n in symbols then Ok(symbols[n]) else Err("Undefined symbol")
  {
  }

  lemma DatumGrows(s: Pass2State, a: Arg, symbols: SymbolTable, infos: Infos)
    requires DataWord(s, a, symbols, infos).Ok? && Tied(symbols, infos) && Emission(s, infos) && Alone(s.ctx)
    ensures Grows(s, DataWord(s, a, symbols, infos).value)
  {
    hide DataWord, WithPc, Alone, Emission, Pc, Batch, Tied, Keys, Grows;
    EmissionKeys(s, infos);
    var ws, rs := DataBatch(s, a, symbols, infos);
    BatchGrows(s, ws, rs, infos, DataWord(s, a, symbols, infos).value);
  }

  lemma {:induction false} DataGrows(s: Pass2State, args: seq<Arg>, symbols: SymbolTable, infos: Infos)
    requires DataWords(s, args, symbols, infos).Ok? && Tied(symbols, infos) && Emission(s, infos) && Alone(s.ctx)
    requires Pc(s.ctx) + |args| < 0x8000
    ensures Grows(s, DataWords(s, args, symbols, infos).value)
    decreases args
  {
    hide DataWord, WithPc, Alone, Emission, Pc, Tied, Grows;
    if args == [] {
      StaysGrown(s, s);
    } else {
      var t := DataWord(s, args[0], symbols, infos).value;
      DatumKeeps(s, args[0], symbols, infos);
      DatumGrows(s, args[0], symbols, infos);
      DataGrows(t, args[1..], symbols, infos);
      GrowsTwice(s, t, DataWords(t, args[1..], symbols, infos).value);
    }
  }

  lemma DatumStays(s: Pass2State, a: Arg, symbols: SymbolTable, infos: Infos)
    requires DataWord(s, a, symbols, infos).Ok?
    ensures DataWord(s, a, symbols, infos).value.ctx.current == s.ctx.current
  {
    hide Eval, MatchAbs, MentionsExternal, CanonicalAreaName;
  }

  /** Argument `d` of a `.dw` line. */
  lemma {:induction false} DataEmits(s: Pass2State, args: seq<Arg>, d: nat, n: string, symbols: SymbolTable,
                                     infos: Infos)
    requires DataWords(s, args, symbols, infos).Ok? && Tied(symbols, infos) && Emission(s, infos) && Alone(s.ctx)
    requires Pc(s.ctx) + |args| < 0x8000 && d < |args| && args[d] == Ref(n)
    ensures Emits(DataWords(s, args, symbols, infos).value, CanonicalAreaName(s.ctx.current), Pc(s.ctx) + d,
                  MatchAbs(Ref(n), infos), ValueOf(symbols, n))
    decreases args
  {
    hide DataWord, WithPc, Alone, Emission, Pc, Tied, Grows, Emits, CanonicalAreaName, MatchAbs, ValueOf;
    var t := DataWord(s, args[0], symbols, infos).value;
    DatumKeeps(s, args[0], symbols, infos);
    if d == 0 {
      DatumEmits(s, n, symbols, infos);
      DataGrows(t, args[1..], symbols, infos);
      EmitsStays(t, DataWords(t, args[1..], symbols, infos).value, CanonicalAreaName(s.ctx.current), Pc(s.ctx),
                 MatchAbs(Ref(n), infos), ValueOf(symbols, n));
    } else {
      DatumStays(s, args[0], symbols, infos);
      DataEmits(t, args[1..], d - 1, n, symbols, infos);
    }
  }

  /** The operand word of a two-word instruction. */
  lemma OperandEmits(s: Pass2State, i: Instr, n: string, symbols: SymbolTable, infos: Infos)
    requires CodeWords(s, i, symbols, infos).Ok? && Emission(s, infos) && Alone(s.ctx)
    requires PatchesOperand(i, symbols, infos)
    requires i.TwoWord? && i.operand < |i.args| && i.args[i.operand] == Ref(n)
    ensures Emits(CodeWords(s, i, symbols, infos).value, CanonicalAreaName(s.ctx.current), Pc(s.ctx) + 1,
                  MatchAbs(Ref(n), infos), ValueOf(symbols, n))
  {
    hide WithPc, CanonicalAreaName, MatchAbs, Pc, Emission, Alone, FirstMatch, EmitAll, ForEncode, OnWord, SetLast;
    var pc, area := Pc(s.ctx), CanonicalAreaName(s.ctx.current);
    var ws := Encode(i, pc, ForEncode(symbols, infos)).value;
    var t, u := EmitAll(s, pc, ws), CodeWords(s, i, symbols, infos).value;
    EmitAllWords(s, pc, ws);
    assert t.words == s.words + PlainBatch(pc, ws, area);
    var m := FirstMatch(i.args, infos, false);
    if m.Some? {
      RelocatedIs(s, t, pc, ws, i.args, infos, m.value);
      assert u.relocs[|s.relocs|] == Reloc((pc + 1) * 2, m.value, Const(0), Some(area), Word16);
    } else {
      AskedByOperand(i.args, i.operand, infos);
      OperandValue(i, pc, n, symbols, infos);
      var w := EmittedWord(pc + 1, ValueOf(symbols, n), area);
      assert u.words[|s.words| + 1] == w;
      NextIsFree(s, infos, w);
    }
  }

  lemma {:induction false} AskedByOperand(args: seq<Arg>, k: nat, infos: Infos)
    requires k < |args| && FirstMatch(args, infos, false) == None
    ensures MatchAbs(args[k], infos) == None
  {
    hide MatchAbs;
    if k > 0 {
      AskedByOperand(args[1..], k - 1, infos);
    }
  }

  lemma OperandValue(i: Instr, pc: nat, n: string, symbols: SymbolTable, infos: Infos)
    requires i.TwoWord? && i.operand < |i.args| && i.args[i.operand] == Ref(n)
    requires MatchAbs(Ref(n), infos) == None && Encode(i, pc, ForEncode(symbols, infos)).Ok?
    ensures var ws := Encode(i, pc, ForEncode(symbols, infos)).value;
      |ws| == 2 && Low16(ws[1]) == ValueOf(symbols, n)
  {
    NameIs(n, ForEncode(symbols, infos));
  }

  // ----- a line, and the lines behind it

  lemma LineGrows(s: Pass2State, op: Op, symbols: SymbolTable, infos: Infos)
    requires Step2(s, Line(None, op), symbols, infos).Ok? && Tied(symbols, infos) && Emission(s, infos)
    requires GoodLine(s.ctx, op, symbols, infos) && OneCode(Step2(s, Line(None, op), symbols, infos).value.ctx)
    ensures Grows(s, Step2(s, Line(None, op), symbols, infos).value)
  {
    hide Eval, WithPc, Pc, Counted, Noload, DataWords, CodeWords, ForEncode, Encode, Switched, Emission, OneCode,
      Alone, Batch, Keys, PatchesOperand, Tied, Grows;
    EmissionKeys(s, infos);
    var t := Step2(s, Line(None, op), symbols, infos).value;
    match op
    case Data(args) =>
      if args == [] {
        NoData(s, symbols, infos);
        StaysGrown(s, t);
      } else {
        DataMoves(s, args, symbols, infos);
        AloneFrom(s.ctx, Pc(s.ctx) + |args|);
        DataGrows(s, args, symbols, infos);
      }
    case Code(i) =>
      var ws, rs := CodeBatch(s, i, symbols, infos);
      if ws == [] {
        assert s.words + ws == s.words && s.relocs + rs == s.relocs;
        StaysGrown(s, t);
      } else {
        AloneFrom(s.ctx, Pc(s.ctx) + |ws|);
        BatchGrows(s, ws, rs, infos, t);
      }
    case _ => StaysGrown(s, t);
  }

  lemma LineEmits(s: Pass2State, op: Op, d: nat, n: string, symbols: SymbolTable, infos: Infos)
    requires Step2(s, Line(None, op), symbols, infos).Ok? && Tied(symbols, infos) && Emission(s, infos)
    requires GoodLine(s.ctx, op, symbols, infos) && OneCode(Step2(s, Line(None, op), symbols, infos).value.ctx)
    requires Holds(op, d, n)
    ensures Emits(Step2(s, Line(None, op), symbols, infos).value, CanonicalAreaName(s.ctx.current), Pc(s.ctx) + d,
                  MatchAbs(Ref(n), infos), ValueOf(symbols, n))
  {
    hide Eval, WithPc, Pc, Counted, Noload, DataWords, CodeWords, ForEncode, Encode, Switched, Emission, OneCode,
      Alone, Batch, Keys, PatchesOperand, Tied, Emits, CanonicalAreaName, MatchAbs, ValueOf;
    EmissionKeys(s, infos);
    if op.Data? {
      DataMoves(s, op.args, symbols, infos);
      AloneFrom(s.ctx, Pc(s.ctx) + |op.args|);
      DataEmits(s, op.args, d, n, symbols, infos);
    } else {
      var ws, rs := CodeBatch(s, op.i, symbols, infos);
      TwoWords(op.i, Pc(s.ctx), symbols, infos);
      AloneFrom(s.ctx, Pc(s.ctx) + 2);
      OperandEmits(s, op.i, n, symbols, infos);
    }
  }

  lemma TwoWords(i: Instr, pc: nat, symbols: SymbolTable, infos: Infos)
    requires i.TwoWord? && Encode(i, pc, ForEncode(symbols, infos)).Ok?
    ensures |Encode(i, pc, ForEncode(symbols, infos)).value| == 2
  {
    hide Eval, ForEncode;
  }

  /** What holds of every line of a good source. */
  lemma GoodStep(a: Assembled, i: nat)
    requires GoodSource(a) && i < |a.lines|
    ensures var s, op := a.Before2(i), a.lines[i].op;
      Emission(s, a.Kinds()) && Tied(a.Symbols(), a.Kinds()) && GoodLine(s.ctx, op, a.Symbols(), a.Kinds()) &&
      Step2(s, Line(None, op), a.Symbols(), a.Kinds()) == Ok(a.Before2(i + 1)) && OneCode(a.Before2(i + 1).ctx)
  {
    hide Run1, Run2, Step2, Emission, GoodLine, BuildInfos, Tied, OneCode;
    EmissionHolds(a, i);
    Run2Upto(START2, a.lines, a.Symbols(), a.Kinds(), i);
    Run2Upto(START2, a.lines, a.Symbols(), a.Kinds(), i + 1);
    InfosAreTied(a.Pass1().value, a.globl);
    OneCodeAfter(a, i);
    Step2Unlabelled(a.Before2(i), a.lines[i], a.Symbols(), a.Kinds());
  }

  lemma {:induction false} GrowsToEnd(a: Assembled, i: nat)
    requires GoodSource(a) && i <= |a.lines|
    ensures Grows(a.Before2(i), a.Pass2().value)
    decreases |a.lines| - i
  {
    hide Run1, Run2, Step2, Emission, GoodLine, BuildInfos, Tied, OneCode, Grows;
    if i == |a.lines| {
      assert a.lines[..i] == a.lines;
      StaysGrown(a.Before2(i), a.Pass2().value);
    } else {
      GoodStep(a, i);
      LineGrows(a.Before2(i), a.lines[i].op, a.Symbols(), a.Kinds());
      GrowsToEnd(a, i + 1);
      GrowsTwice(a.Before2(i), a.Before2(i + 1), a.Pass2().value);
    }
  }

  /** In the module of a good source, the word of every operand that is a lone name is where the second pass
      stood, with the relocation the name asks for, or with the name's value and no relocation. */
  lemma OperandInModule(a: Assembled, q: nat, d: nat, n: string)
    requires GoodSource(a) && q < |a.lines| && Holds(a.lines[q].op, d, n)
    ensures var s := a.Before2(q);
      Emits(a.Pass2().value, CanonicalAreaName(s.ctx.current), Pc(s.ctx) + d, MatchAbs(Ref(n), a.Kinds()),
            ValueOf(a.Symbols(), n))
  {
    hide Run1, Run2, Step2, Emission, GoodLine, BuildInfos, Tied, OneCode, Grows, Emits, Holds, CanonicalAreaName, Pc,
      MatchAbs, ValueOf;
    var s := a.Before2(q);
    GoodStep(a, q);
    LineEmits(s, a.lines[q].op, d, n, a.Symbols(), a.Kinds());
    GrowsToEnd(a, q + 1);
    EmitsStays(a.Before2(q + 1), a.Pass2().value, CanonicalAreaName(s.ctx.current), Pc(s.ctx) + d,
               MatchAbs(Ref(n), a.Kinds()), ValueOf(a.Symbols(), n));
  }

  // ----- all words of a line

  /** One `.dw` argument that asks for no relocation leaves its value. */
  lemma DatumValue(s: Pass2State, a: Arg, symbols: SymbolTable, infos: Infos)
    requires DataWord(s, a, symbols, infos).Ok? && MatchAbs(a, infos) == None
    ensures var v, t := Eval(ArgExpr(a), symbols, false), DataWord(s, a, symbols, infos).value;
      v.Ok? && -32768 <= v.value <= 65535 && |t.words| == |s.words| + 1 &&
      t.words[|s.words|] == EmittedWord(Pc(s.ctx), v.value % 65536, CanonicalAreaName(s.ctx.current))
  {
    hide Eval, WithPc, CanonicalAreaName, MatchAbs, MentionsExternal, Pc;
  }

  lemma {:induction false} DataValues(s: Pass2State, args: seq<Arg>, d: nat, symbols: SymbolTable, infos: Infos)
    requires DataWords(s, args, symbols, infos).Ok? && Tied(symbols, infos) && Emission(s, infos) && Alone(s.ctx)
    requires Pc(s.ctx) + |args| < 0x8000 && d < |args| && MatchAbs(args[d], infos) == None
    ensures var v := Eval(ArgExpr(args[d]), symbols, false);
      v.Ok? && -32768 <= v.value <= 65535 &&
      EmittedWord(Pc(s.ctx) + d, v.value % 65536, CanonicalAreaName(s.ctx.current)) in
        DataWords(s, args, symbols, infos).value.words
    decreases args
  {
    hide DataWord, WithPc, Alone, Emission, Pc, Tied, CanonicalAreaName, MatchAbs, Eval, OnWord;
    var t := DataWord(s, args[0], symbols, infos).value;
    DatumKeeps(s, args[0], symbols, infos);
    if d == 0 {
      DatumValue(s, args[0], symbols, infos);
      DataGrows(t, args[1..], symbols, infos);
    } else {
      DatumStays(s, args[0], symbols, infos);
      DataValues(t, args[1..], d - 1, symbols, infos);
    }
  }

  /** A `.dw` argument that asks for no relocation stands in the module as its value, which fits 16 bits. */
  lemma DataInModule(a: Assembled, q: nat, d: nat)
    requires GoodSource(a) && q < |a.lines| && a.lines[q].op.Data? && d < |a.lines[q].op.args|
    requires MatchAbs(a.lines[q].op.args[d], a.Kinds()) == None
    ensures var s, v := a.Before2(q), Eval(ArgExpr(a.lines[q].op.args[d]), a.Symbols(), false);
      v.Ok? && -32768 <= v.value <= 65535 &&
      EmittedWord(Pc(s.ctx) + d, v.value % 65536, CanonicalAreaName(s.ctx.current)) in a.Pass2().value.words
  {
    hide Run1, Run2, Emission, BuildInfos, Tied, OneCode, OnWord, CanonicalAreaName, Pc, MatchAbs, DataWords, Eval,
      Alone, Counted, Keys;
    var s, args := a.Before2(q), a.lines[q].op.args;
    GoodStep(a, q);
    EmissionKeys(s, a.Kinds());
    DataMoves(s, args, a.Symbols(), a.Kinds());
    AloneFrom(s.ctx, Pc(s.ctx) + |args|);
    DataValues(s, args, d, a.Symbols(), a.Kinds());
    GrowsToEnd(a, q + 1);
  }

  /** What an instruction leaves of its encoded words: all but the last as they are; the last too if no operand asks
      for a relocation; and the high byte of a single one. */
  lemma CodeLeaves(s: Pass2State, i: Instr, symbols: SymbolTable, infos: Infos, k: nat)
    requires CodeWords(s, i, symbols, infos).Ok?
    ensures var ws := Encode(i, Pc(s.ctx), ForEncode(symbols, infos));
      ws.Ok? &&
      (k < |ws.value| ==>
        var t := CodeWords(s, i, symbols, infos).value;
        |t.words| == |s.words| + |ws.value| &&
        var w := t.words[|s.words| + k];
        w.address == Pc(s.ctx) + k && w.area == CanonicalAreaName(s.ctx.current) &&
        (k < |ws.value| - 1 || FirstMatch(i.args, infos, |ws.value| == 1) == None ==> w.value == ws.value[k] % 65536) &&
        (|ws.value| == 1 ==> w.value / 256 == ws.value[0] % 65536 / 256))
  {
    hide WithPc, CanonicalAreaName, MatchAbs, Pc, FirstMatch, EmitAll, ForEncode, SetLast, Encode;
    var pc, area := Pc(s.ctx), CanonicalAreaName(s.ctx.current);
    var ws := Encode(i, pc, ForEncode(symbols, infos)).value;
    var t := EmitAll(s, pc, ws);
    EmitAllWords(s, pc, ws);
    assert t.words == s.words + PlainBatch(pc, ws, area);
    if ws != [] {
      var m := FirstMatch(i.args, infos, |ws| == 1);
      if m.Some? {
        RelocatedIs(s, t, pc, ws, i.args, infos, m.value);
        if |ws| == 1 { HighByteStays(ws, m.value); }
      }
    }
  }

  lemma HighByteStays(ws: seq<nat>, left: Operand)
    requires |ws| == 1
    ensures PatchValue(ws, left) / 256 == ws[0] % 65536 / 256
  {
    var x := if left.Word? then left.value * 2 % 256 else 0;
    assert PatchValue(ws, left) == ws[0] % 65536 / 256 * 256 + x;
  }

  /** So the words of every instruction stand in the module, but for what a relocation rewrites. */
  lemma CodeInModule(a: Assembled, q: nat, i: Instr, k: nat)
    requires GoodSource(a) && q < |a.lines| && a.lines[q].op == Code(i)
    ensures var s := a.Before2(q);
      var ws := Encode(i, Pc(s.ctx), ForEncode(a.Symbols(), a.Kinds()));
      ws.Ok? &&
      (k < |ws.value| ==>
        exists w :: w in a.Pass2().value.words &&
          w.address == Pc(s.ctx) + k && w.area == CanonicalAreaName(s.ctx.current) &&
          (k < |ws.value| - 1 || FirstMatch(i.args, a.Kinds(), |ws.value| == 1) == None ==>
            w.value == ws.value[k] % 65536) &&
          (|ws.value| == 1 ==> w.value / 256 == ws.value[0] % 65536 / 256))
  {
    hide Run1, Run2, Emission, GoodLine, BuildInfos, Tied, OneCode, OnWord, CanonicalAreaName, Pc, CodeWords, Encode,
      ForEncode, FirstMatch;
    var s := a.Before2(q);
    GoodStep(a, q);
    CodeLeaves(s, i, a.Symbols(), a.Kinds(), k);
    GrowsToEnd(a, q + 1);
    var ws := Encode(i, Pc(s.ctx), ForEncode(a.Symbols(), a.Kinds())).value;
    if k < |ws| {
      assert a.Before2(q + 1).words[|s.words| + k] in a.Pass2().value.words;
    }
  }
}
