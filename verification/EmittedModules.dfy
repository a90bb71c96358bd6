/** What the second pass emits is what the link needs: one word per address, sizes that cover the
    words, and every relocation on a word that holds its placeholder. */
module EmittedModules {
  import opened Results
  import opened Assembly
  import opened Expression
  import opened Assembler
  import opened TwoPass
  import opened LabelAreas
  import opened RelWriter
  import opened Globals
  import opened RelRoundTrip
  import opened WordAddressLink

  // ----- conditions on a source

  /** The unnamed area and `_CODE` share a name but not a counter: only one of them may be in use. */
  ghost predicate OneCode(c: Ctx) {
    "" in c.locs && "_CODE" in c.locs ==> c.locs[""].pc == 0 || c.locs["_CODE"].pc == 0
  }

  /** The counter after the line, before it is cut to 16 bits. */
  function NextPc(c: Ctx, op: Op, symbols: SymbolTable, infos: Infos): int {
    match op
    case Org(e) => var v := Eval(e, symbols, false); if v.Ok? then v.value else 0
    case Reserve(e) => var n := Eval(e, symbols, false); Pc(c) + (if n.Ok? then n.value % 0x1_0000 else 0)
    case Data(args) => Pc(c) + |args|
    case Code(i) =>
      var ws := Encode(i, Pc(c), ForEncode(symbols, infos));
      Pc(c) + (if ws.Ok? then |ws.value| else 0)
    case _ => Pc(c)
  }

  /** The relocation of a long instruction is asked for by the operand its last word holds.  A split
      `AI`/`SI` has no such operand. */
  ghost predicate PatchesOperand(i: Instr, symbols: SymbolTable, infos: Infos) {
    match i
    case AiSi(_, args) =>
      FirstMatch(args, infos, false) == None ||
      (var ws := Encode(i, 0, ForEncode(symbols, infos)); ws.Ok? && |ws.value| <= 1)
    case TwoWord(_, _, operand, args) =>
      FirstMatch(args, infos, false) == None ||
      (operand < |args| && FirstMatch(args, infos, false) == MatchAbs(args[operand], infos))
    case OneWord(_, _) => true
  }

  /** `.org` never moves backward and no area leaves the lower half of the word address space; one code
      area is in use; relocations patch their operands. */
  ghost predicate GoodLine(c: Ctx, op: Op, symbols: SymbolTable, infos: Infos) {
    Pc(c) <= NextPc(c, op, symbols, infos) < 0x8000 && OneCode(c) &&
    (op.Code? ==> PatchesOperand(op.i, symbols, infos))
  }

  ghost predicate GoodSource(a: Assembled) {
    a.Succeeds() && OneCode(a.Pass2().value.ctx) &&
    forall i | 0 <= i < |a.lines| :: GoodLine(a.Before2(i).ctx, a.lines[i].op, a.Symbols(), a.Kinds())
  }

  // ----- the invariant of the second pass

  ghost predicate Keys(c: Ctx) {
    c.current in c.locs && (forall n | n in c.locs :: c.locs[n].pc < 0x8000 && (n == "" || Upper(n) == n)) &&
    (forall n :: n in c.order <==> n in c.locs)
  }

  ghost predicate GoodWord(c: Ctx, w: EmittedWord) {
    w.value < 0x1_0000 && CanonicalAreaName(w.area) == w.area && w.address < FinalSize(c, w.area)
  }

  /** The operand is the place of the local symbol `n`: its value in its area. */
  ghost predicate Names(left: Operand, infos: Infos, n: string) {
    left.Word? && n in infos && infos[n].kind == Local && infos[n].area == left.area &&
    left.value == Low16(infos[n].value)
  }

  /** The relocation operand comes from a symbol: a name that is not local, or a local label's place. */
  ghost predicate FromSymbol(left: Operand, infos: Infos) {
    !left.Const? &&
    (left.Symbol? ==> left.name in infos && infos[left.name].kind != Local) &&
    (left.Word? ==> left.area.Some? && exists n :: Names(left, infos, n))
  }

  ghost predicate HasWord(words: seq<EmittedWord>, r: Reloc) {
    exists w :: w in words && w.area == RelocArea(r) && Placeholder(w, r)
  }

  ghost predicate GoodReloc(r: Reloc, infos: Infos) { r.right == Const(0) && FromSymbol(r.left, infos) }

  ghost predicate DistinctSlots(rs: seq<Reloc>) {
    forall i, j | 0 <= i < j < |rs| && RelocArea(rs[i]) == RelocArea(rs[j]) :: Slot(rs[i]) != Slot(rs[j])
  }

  ghost predicate Emission(s: Pass2State, infos: Infos) {
    Keys(s.ctx) &&
    (forall w | w in s.words :: GoodWord(s.ctx, w)) &&
    NoClash(s.words) &&
    (forall r | r in s.relocs :: GoodReloc(r, infos) && HasWord(s.words, r)) &&
    DistinctSlots(s.relocs)
  }

  // ----- moving a counter

  lemma UpperTwice(s: string)
    ensures Upper(Upper(s)) == Upper(s)
  {
  }

  lemma SizesGrow(c: Ctx, pc: nat, area: string)
    requires c.current in c.locs && Pc(c) <= pc < 0x1_0000
    ensures FinalSize(WithPc(c, pc), area) >= FinalSize(c, area)
  {
  }

  lemma SizesKeptBySwitch(c: Ctx, name: string, noload: bool, area: string)
    ensures FinalSize(Switched(c, name, noload), area) >= FinalSize(c, area)
  {
    hide Upper;
  }

  lemma KeysKept(c: Ctx, pc: nat, name: string, noload: bool)
    requires Keys(c) && pc < 0x8000
    ensures Keys(WithPc(c, pc)) && Keys(Switched(c, name, noload))
  {
    UpperTwice(name);
    hide Upper;
  }

  /** Counters that only grow keep every emitted word below its area's size. */
  lemma CounterMoves(s: Pass2State, pc: nat, infos: Infos)
    requires Emission(s, infos) && Pc(s.ctx) <= pc < 0x8000
    ensures Emission(s.(ctx := WithPc(s.ctx, pc)), infos)
  {
    hide FinalSize, WithPc, NoClash, HasWord, GoodReloc, DistinctSlots, CanonicalAreaName, Pc;
    KeysKept(s.ctx, pc, "", false);
    forall w | w in s.words ensures GoodWord(WithPc(s.ctx, pc), w) { SizesGrow(s.ctx, pc, w.area); }
  }

  lemma AreaSwitches(s: Pass2State, name: string, noload: bool, infos: Infos)
    requires Emission(s, infos)
    ensures Emission(s.(ctx := Switched(s.ctx, name, noload)), infos)
  {
    hide FinalSize, Switched, NoClash, HasWord, GoodReloc, DistinctSlots, CanonicalAreaName;
    KeysKept(s.ctx, 0, name, noload);
    forall w | w in s.words ensures GoodWord(Switched(s.ctx, name, noload), w) {
      SizesKeptBySwitch(s.ctx, name, noload, w.area);
    }
  }

  // ----- emitting words

  /** The current area's canonical name belongs to the current counter alone. */
  ghost predicate Alone(c: Ctx) {
    (c.current == "" && "_CODE" in c.locs ==> c.locs["_CODE"].pc == 0) &&
    (c.current == "_CODE" && "" in c.locs ==> c.locs[""].pc == 0)
  }

  /** Words for consecutive addresses from the counter on, and at most one relocation, on one of them. */
  ghost predicate Batch(s: Pass2State, ws: seq<EmittedWord>, rs: seq<Reloc>, infos: Infos) {
    var area := CanonicalAreaName(s.ctx.current);
    (forall k | 0 <= k < |ws| :: ws[k].address == Pc(s.ctx) + k && ws[k].area == area && ws[k].value < 0x1_0000) &&
    |rs| <= 1 && (forall r | r in rs :: GoodReloc(r, infos) && RelocArea(r) == area && HasWord(ws, r))
  }

  lemma CanonicalKey(c: Ctx)
    requires Keys(c)
    ensures CanonicalAreaName(CanonicalAreaName(c.current)) == CanonicalAreaName(c.current)
    ensures CanonicalAreaName(c.current) == if c.current == "" then "_CODE" else c.current
  {
    assert Upper("_CODE") == "_CODE";
  }

  lemma SizeIsCounter(c: Ctx, pc: nat)
    requires Keys(c) && Alone(c) && Pc(c) <= pc < 0x8000
    ensures FinalSize(c, CanonicalAreaName(c.current)) == Pc(c)
    ensures FinalSize(WithPc(c, pc), CanonicalAreaName(c.current)) == pc
  {
    CanonicalKey(c);
    hide Upper, CanonicalAreaName;
  }

  lemma NoClashWithBatch(words: seq<EmittedWord>, ws: seq<EmittedWord>, area: string, pc: nat)
    requires NoClash(words) && CanonicalAreaName(area) == area
    requires forall w | w in words && CanonicalAreaName(w.area) == area :: w.address < pc
    requires forall k | 0 <= k < |ws| :: ws[k].address == pc + k && ws[k].area == area
    ensures NoClash(words + ws)
  {
    hide CanonicalAreaName;
    var all := words + ws;
    forall i, j | 0 <= i < j < |all| && CanonicalAreaName(all[i].area) == CanonicalAreaName(all[j].area)
      ensures all[i].address != all[j].address
    {
      if i < |words| {
        assert all[i] in words;
      }
    }
  }

  lemma DistinctWithBatch(s: Pass2State, ws: seq<EmittedWord>, rs: seq<Reloc>, infos: Infos)
    requires Emission(s, infos) && Batch(s, ws, rs, infos) && Alone(s.ctx)
    ensures DistinctSlots(s.relocs + rs)
  {
    hide FinalSize, NoClash, GoodReloc, CanonicalAreaName, Pc, Keys, Alone, Slot, RelocArea;
    var all := s.relocs + rs;
    assert FinalSize(s.ctx, CanonicalAreaName(s.ctx.current)) == Pc(s.ctx) by {
      PcIsSmall(s.ctx);
      SizeIsCounter(s.ctx, Pc(s.ctx));
    }
    forall i, j | 0 <= i < j < |all| && RelocArea(all[i]) == RelocArea(all[j]) ensures Slot(all[i]) != Slot(all[j]) {
      if j >= |s.relocs| {
        assert all[j] in rs && i < |s.relocs| && all[i] in s.relocs;
        var w :| w in s.words && w.area == RelocArea(all[i]) && Placeholder(w, all[i]);
        var w' :| w' in ws && w'.area == RelocArea(all[j]) && Placeholder(w', all[j]);
        assert GoodWord(s.ctx, w);
      }
    }
  }

  lemma PcIsSmall(c: Ctx)
    requires Keys(c)
    ensures Pc(c) < 0x8000
  {
  }

  lemma BatchKeeps(s: Pass2State, ws: seq<EmittedWord>, rs: seq<Reloc>, infos: Infos)
    requires Emission(s, infos) && Batch(s, ws, rs, infos) && Alone(s.ctx) && Pc(s.ctx) + |ws| < 0x8000
    ensures Emission(Pass2State(WithPc(s.ctx, Pc(s.ctx) + |ws|), s.words + ws, s.relocs + rs), infos)
  {
    hide FinalSize, WithPc, NoClash, GoodReloc, DistinctSlots, CanonicalAreaName, Pc, Alone, RelocArea, Slot,
      Placeholder;
    var pc := Pc(s.ctx);
    var c, area := WithPc(s.ctx, pc + |ws|), CanonicalAreaName(s.ctx.current);
    KeysKept(s.ctx, pc + |ws|, "", false);
    CanonicalKey(s.ctx);
    SizeIsCounter(s.ctx, pc + |ws|);
    forall w | w in s.words + ws ensures GoodWord(c, w) {
      if w in s.words {
        SizesGrow(s.ctx, pc + |ws|, w.area);
      }
    }
    NoClashWithBatch(s.words, ws, area, pc);
    DistinctWithBatch(s, ws, rs, infos);
    forall r | r in s.relocs + rs ensures GoodReloc(r, infos) && HasWord(s.words + ws, r) {
      if r in s.relocs {
        var w :| w in s.words && w.area == RelocArea(r) && Placeholder(w, r);
        assert w in s.words + ws;
      } else {
        var w :| w in ws && w.area == RelocArea(r) && Placeholder(w, r);
        assert w in s.words + ws;
      }
    }
  }

  /** Local symbols are in the symbol table with the value recorded for them. */
  ghost predicate Tied(symbols: SymbolTable, infos: Infos) {
    forall n | n in infos && infos[n].kind == Local :: n in symbols && symbols[n] == infos[n].value
  }

  lemma AbsFromSymbol(a: Arg, infos: Infos)
    requires MatchAbs(a, infos).Some?
    ensures FromSymbol(MatchAbs(a, infos).value, infos)
    ensures MatchAbs(a, infos).value.Word? ==> Names(MatchAbs(a, infos).value, infos, a.name)
    ensures a.Ref? && (MatchAbs(a, infos).value.Word? ==>
      a.name in infos && infos[a.name].kind == Local && MatchAbs(a, infos).value.value == Low16(infos[a.name].value))
  {
    assert MatchAbs(a, infos).value.Word? ==> Names(MatchAbs(a, infos).value, infos, a.name);
  }

  lemma StarFromSymbol(a: Arg, infos: Infos)
    requires MatchStar(a, infos).Some?
    ensures FromSymbol(MatchStar(a, infos).value, infos)
  {
    assert MatchStar(a, infos).value.Word? ==> Names(MatchStar(a, infos).value, infos, a.name);
  }

  lemma Doubled16(v: nat)
    ensures Low16(Low16(v * 2)) == v * 2 % 0x1_0000
  {
  }

  /** The word and the relocation one `.dw` operand adds. */
  lemma DataBatch(s: Pass2State, a: Arg, symbols: SymbolTable, infos: Infos)
    returns (ws: seq<EmittedWord>, rs: seq<Reloc>)
    requires DataWord(s, a, symbols, infos).Ok? && Tied(symbols, infos) && Keys(s.ctx)
    ensures |ws| == 1 && Batch(s, ws, rs, infos)
    ensures DataWord(s, a, symbols, infos).value ==
      Pass2State(WithPc(s.ctx, Pc(s.ctx) + 1), s.words + ws, s.relocs + rs)
  {
    hide WithPc, CanonicalAreaName, Eval, FromSymbol, MatchAbs, Pc, MentionsExternal, Upper;
    var pc, area, t := Pc(s.ctx), CanonicalAreaName(s.ctx.current), DataWord(s, a, symbols, infos).value;
    CanonicalKey(s.ctx);
    var m := MatchAbs(a, infos);
    ws := [t.words[|s.words|]];
    if m.Some? {
      var left := m.value;
      AbsFromSymbol(a, infos);
      rs := [Reloc(pc * 2, left, Const(0), Some(area), Word16)];
      if left.Word? {
        NameValue(a.name, symbols);
        Doubled16(left.value);
      }
      assert ws[0].value == Seeded(left);
      assert Placeholder(ws[0], rs[0]);
    } else {
      rs := [];
      assert s.relocs + rs == s.relocs;
    }
  }

  lemma NameValue(name: string, symbols: SymbolTable)
    requires name in symbols
    ensures Eval(Name(name), symbols, false) == Ok(symbols[name])
  {
  }

  lemma AloneKept(c: Ctx, pc: nat)
    requires Alone(c) && c.current in c.locs
    ensures Alone(WithPc(c, pc))
  {
  }

  lemma AloneFrom(c: Ctx, pc: nat)
    requires OneCode(WithPc(c, pc)) && 0 < pc < 0x1_0000 && c.current in c.locs
    ensures Alone(c)
  {
  }

  lemma {:induction false} DataKeeps(s: Pass2State, args: seq<Arg>, symbols: SymbolTable, infos: Infos)
    requires DataWords(s, args, symbols, infos).Ok? && Tied(symbols, infos) && Emission(s, infos) && Alone(s.ctx)
    requires Pc(s.ctx) + |args| < 0x8000
    ensures Emission(DataWords(s, args, symbols, infos).value, infos)
    decreases args
  {
    if args != [] {
      hide DataWord, WithPc, Alone, Emission, Pc, Batch, Tied, Keys, Counted, Noload;
      DatumKeeps(s, args[0], symbols, infos);
      DataKeeps(DataWord(s, args[0], symbols, infos).value, args[1..], symbols, infos);
    }
  }

  lemma DatumKeeps(s: Pass2State, a: Arg, symbols: SymbolTable, infos: Infos)
    requires DataWord(s, a, symbols, infos).Ok? && Tied(symbols, infos) && Emission(s, infos) && Alone(s.ctx)
    requires Pc(s.ctx) + 1 < 0x8000
    ensures var t := DataWord(s, a, symbols, infos).value;
      Emission(t, infos) && Alone(t.ctx) && Pc(t.ctx) == Pc(s.ctx) + 1
  {
    hide DataWord, WithPc, Alone, Emission, Pc, Batch, Tied, Keys, Counted, Noload;
    EmissionKeys(s, infos);
    var ws, rs := DataBatch(s, a, symbols, infos);
    BatchKeeps(s, ws, rs, infos);
    AloneKept(s.ctx, Pc(s.ctx) + 1);
    WithPcEqual(s.ctx, Pc(s.ctx) + 1, 0);
  }

  lemma EmissionKeys(s: Pass2State, infos: Infos)
    requires Emission(s, infos)
    ensures Keys(s.ctx) && Counted(s.ctx) && s.ctx.current in s.ctx.locs
  {
    hide NoClash, DistinctSlots, GoodReloc, HasWord, GoodWord;
  }

  // ----- instructions

  lemma {:induction false} FirstMatchIs(args: seq<Arg>, infos: Infos, star: bool)
    requires FirstMatch(args, infos, star).Some?
    ensures FromSymbol(FirstMatch(args, infos, star).value, infos) && !FirstMatch(args, infos, star).value.Const?
  {
    hide MatchAbs, MatchStar;
    var m := if star then MatchStar(args[0], infos) else MatchAbs(args[0], infos);
    if m.Some? {
      if star { StarFromSymbol(args[0], infos); } else { AbsFromSymbol(args[0], infos); }
    } else {
      FirstMatchIs(args[1..], infos, star);
    }
  }

  function PlainBatch(pc: nat, ws: seq<nat>, area: string): seq<EmittedWord> {
    seq(|ws|, k requires 0 <= k < |ws| => EmittedWord(pc + k, Low16(ws[k]), area))
  }

  /** The words of an instruction, the last one rewritten. */
  function PatchedBatch(pc: nat, ws: seq<nat>, area: string, last: nat): seq<EmittedWord>
    requires ws != []
  {
    PlainBatch(pc, ws, area)[|ws| - 1 := EmittedWord(pc + |ws| - 1, last, area)]
  }

  lemma EncodedLong(i: Instr, pc: nat, symbols: SymbolTable, infos: Infos, left: Operand)
    requires Tied(symbols, infos) && PatchesOperand(i, symbols, infos)
    requires FirstMatch(ArgsOf(i), infos, false) == Some(left)
    requires Encode(i, pc, ForEncode(symbols, infos)).Ok? && |Encode(i, pc, ForEncode(symbols, infos)).value| >= 2
    requires left.Word?
    ensures var ws := Encode(i, pc, ForEncode(symbols, infos)).value;
      Low16(ws[|ws| - 1]) * 2 % 0x1_0000 == Seeded(left)
  {
    hide Eval, MatchAbs, FirstMatch, Steps;
    match i
    case TwoWord(first, imm, operand, args) =>
      AbsFromSymbol(args[operand], infos);
      NameValue(args[operand].name, ForEncode(symbols, infos));
    case AiSi(_, _) =>
    case OneWord(_, _) =>
  }

  lemma PatchLast(s: Pass2State, t: Pass2State, pc: nat, ws: seq<nat>, value: nat)
    requires ws != []
    requires t.words == s.words + PlainBatch(pc, ws, CanonicalAreaName(s.ctx.current))
    ensures SetLast(t, value).words == s.words + PatchedBatch(pc, ws, CanonicalAreaName(s.ctx.current), value)
    ensures SetLast(t, value).ctx == t.ctx && SetLast(t, value).relocs == t.relocs
  {
    hide CanonicalAreaName;
  }

  function PatchValue(ws: seq<nat>, left: Operand): nat
    requires ws != []
  {
    var last := Low16(ws[|ws| - 1]);
    if |ws| == 1 then last / 256 * 256 + (if left.Word? then left.value * 2 % 256 else 0)
    else if left.Word? then last * 2 % 0x1_0000 else 0
  }

  function PatchReloc(pc: nat, ws: seq<nat>, left: Operand, area: string): Reloc
    requires ws != []
  {
    if |ws| == 1 then Reloc(pc * 2 + 1, left, Const(0), Some(area), Low8)
    else Reloc((pc + |ws| - 1) * 2, left, Const(0), Some(area), Word16)
  }

  lemma RelocatedIs(s: Pass2State, t: Pass2State, pc: nat, ws: seq<nat>, args: seq<Arg>, infos: Infos, left: Operand)
    requires ws != [] && FirstMatch(args, infos, |ws| == 1) == Some(left)
    requires t.words == s.words + PlainBatch(pc, ws, CanonicalAreaName(s.ctx.current))
    requires t.ctx == s.ctx && t.relocs == s.relocs
    ensures var area := CanonicalAreaName(s.ctx.current);
      Relocated(t, pc, ws, args, infos) ==
      Pass2State(s.ctx, s.words + PatchedBatch(pc, ws, area, PatchValue(ws, left)),
                 s.relocs + [PatchReloc(pc, ws, left, area)])
  {
    hide CanonicalAreaName, FirstMatch, Low16, SetLast;
    var last := t.words[|t.words| - 1];
    assert last == PlainBatch(pc, ws, CanonicalAreaName(s.ctx.current))[|ws| - 1];
    PatchLast(s, t, pc, ws, PatchValue(ws, left));
  }

  lemma PatchIsPlaced(i: Instr, pc: nat, symbols: SymbolTable, infos: Infos, left: Operand, area: string)
    requires Encode(i, pc, ForEncode(symbols, infos)).Ok? && Encode(i, pc, ForEncode(symbols, infos)).value != []
    requires Tied(symbols, infos) && PatchesOperand(i, symbols, infos)
    requires FirstMatch(ArgsOf(i), infos, |Encode(i, pc, ForEncode(symbols, infos)).value| == 1) == Some(left)
    ensures var ws := Encode(i, pc, ForEncode(symbols, infos)).value;
      var w := EmittedWord(pc + |ws| - 1, PatchValue(ws, left), area);
      Placeholder(w, PatchReloc(pc, ws, left, area)) && w.value < 0x1_0000 &&
      GoodReloc(PatchReloc(pc, ws, left, area), infos)
  {
    hide Encode, FirstMatch, ForEncode, PatchesOperand, FromSymbol, Tied, Seeded;
    var ws := Encode(i, pc, ForEncode(symbols, infos)).value;
    FirstMatchIs(ArgsOf(i), infos, |ws| == 1);
    LowBounds(ws);
    if |ws| >= 2 && left.Word? {
      EncodedLong(i, pc, symbols, infos, left);
    }
    if left.Symbol? { SymbolSeed(left); }
    PlaceholderHolds(EmittedWord(pc + |ws| - 1, PatchValue(ws, left), area), PatchReloc(pc, ws, left, area),
                     Low16(ws[|ws| - 1]), pc + |ws| - 1);
  }

  lemma SymbolSeed(left: Operand)
    requires left.Symbol?
    ensures Seeded(left) == 0
  {
  }

  /** The words and the relocation one instruction adds. */
  lemma CodeBatch(s: Pass2State, i: Instr, symbols: SymbolTable, infos: Infos)
    returns (ws: seq<EmittedWord>, rs: seq<Reloc>)
    requires CodeWords(s, i, symbols, infos).Ok? && Tied(symbols, infos) && Keys(s.ctx)
    requires PatchesOperand(i, symbols, infos)
    ensures Batch(s, ws, rs, infos) && (ws == [] ==> rs == [])
    ensures Encode(i, Pc(s.ctx), ForEncode(symbols, infos)).Ok?
    ensures |ws| == |Encode(i, Pc(s.ctx), ForEncode(symbols, infos)).value|
    ensures CodeWords(s, i, symbols, infos).value ==
      Pass2State(WithPc(s.ctx, Pc(s.ctx) + |ws|), s.words + ws, s.relocs + rs)
  {
    hide WithPc, CanonicalAreaName, Pc, Upper, Encode, FirstMatch, ForEncode, EmitAll, PatchesOperand, Low16, Tied,
      GoodReloc, Placeholder, PatchValue;
    var pc, area := Pc(s.ctx), CanonicalAreaName(s.ctx.current);
    var nums := Encode(i, pc, ForEncode(symbols, infos)).value;
    var t := EmitAll(s, pc, nums);
    CanonicalKey(s.ctx);
    EmitAllWords(s, pc, nums);
    assert t.words == s.words + PlainBatch(pc, nums, area);
    var m := FirstMatch(ArgsOf(i), infos, |nums| == 1);
    LowBounds(nums);
    if nums == [] || m.None? {
      ws, rs := PlainBatch(pc, nums, area), [];
      assert s.relocs + rs == s.relocs;
    } else {
      var value, r := PatchValue(nums, m.value), PatchReloc(pc, nums, m.value, area);
      RelocatedIs(s, t, pc, nums, ArgsOf(i), infos, m.value);
      PatchIsPlaced(i, pc, symbols, infos, m.value, area);
      ws, rs := PatchedBatch(pc, nums, area, value), [r];
      assert ws[|nums| - 1] in ws && HasWord(ws, r);
    }
  }

  lemma LowBounds(ws: seq<nat>)
    ensures forall k | 0 <= k < |ws| :: Low16(ws[k]) < 0x1_0000
  {
  }

  lemma PlaceholderHolds(w: EmittedWord, r: Reloc, before: nat, address: nat)
    requires w.address == address && before < 0x1_0000 && !r.left.Const?
    requires r.width.Low8? ==> r.byteAddr == address * 2 + 1
    requires r.width.Low8? ==> w.value == before / 256 * 256 + (if r.left.Word? then r.left.value * 2 % 256 else 0)
    requires r.width.Word16? ==> r.byteAddr == address * 2 && w.value == Seeded(r.left)
    ensures Placeholder(w, r) && w.value < 0x1_0000
  {
    if r.width.Low8? {
      var x := if r.left.Word? then r.left.value * 2 % 256 else 0;
      LowOfSum(before / 256, x);
      if r.left.Word? { LowOfDouble(r.left.value); }
    }
  }

  lemma LowOfSum(h: nat, x: nat)
    requires h < 256 && x < 256
    ensures Lo(h * 256 + x) == x && h * 256 + x < 0x1_0000
  {
  }

  lemma LowOfDouble(v: nat)
    ensures v * 2 % 0x1_0000 % 256 == v * 2 % 256
  {
  }

  // ----- the whole pass

  lemma LineKeeps(s: Pass2State, op: Op, symbols: SymbolTable, infos: Infos)
    requires Step2(s, Line(None, op), symbols, infos).Ok? && Tied(symbols, infos) && Emission(s, infos)
    requires GoodLine(s.ctx, op, symbols, infos) && OneCode(Step2(s, Line(None, op), symbols, infos).value.ctx)
    ensures Emission(Step2(s, Line(None, op), symbols, infos).value, infos)
  {
    hide Eval, WithPc, Pc, Counted, Noload, DataWords, CodeWords, ForEncode, Encode, Switched, Emission, OneCode,
      Alone, Batch, Keys, PatchesOperand, Tied;
    EmissionKeys(s, infos);
    match op
    case Org(e) => CounterMoves(s, NextPc(s.ctx, op, symbols, infos), infos);
    case Reserve(e) => CounterMoves(s, NextPc(s.ctx, op, symbols, infos), infos);
    case Area(name, noload) => AreaSwitches(s, name, noload, infos);
    case Data(args) =>
      if args == [] {
        NoData(s, symbols, infos);
      } else {
        DataMoves(s, args, symbols, infos);
        AloneFrom(s.ctx, Pc(s.ctx) + |args|);
        DataKeeps(s, args, symbols, infos);
      }
    case Code(i) =>
      var ws, rs := CodeBatch(s, i, symbols, infos);
      if ws == [] {
        CounterMoves(s, Pc(s.ctx), infos);
        assert s.words + ws == s.words && s.relocs + rs == s.relocs;
      } else {
        AloneFrom(s.ctx, Pc(s.ctx) + |ws|);
        BatchKeeps(s, ws, rs, infos);
      }
    case _ =>
  }

  lemma NoData(s: Pass2State, symbols: SymbolTable, infos: Infos)
    ensures DataWords(s, [], symbols, infos) == Ok(s)
  {
  }

  lemma InfosAreTied(s: Pass1State, globl: set<string>)
    ensures Tied(s.symbols, BuildInfos(s, globl))
  {
  }

  lemma EmptyEmission(infos: Infos)
    ensures Emission(START2, infos)
  {
  }

  lemma OneCodeAfter(a: Assembled, i: nat)
    requires GoodSource(a) && i < |a.lines|
    ensures OneCode(a.Before2(i + 1).ctx)
  {
    hide OneCode, Run1, Run2, BuildInfos;
    if i + 1 < |a.lines| {
      assert GoodLine(a.Before2(i + 1).ctx, a.lines[i + 1].op, a.Symbols(), a.Kinds());
    } else {
      assert a.lines[..i + 1] == a.lines;
    }
  }

  /** The invariant holds before every line. */
  lemma {:induction false} EmissionHolds(a: Assembled, i: nat)
    requires GoodSource(a) && i <= |a.lines|
    ensures Emission(a.Before2(i), a.Kinds())
  {
    hide Run1, Run2, Step2, Emission, GoodLine, BuildInfos, Tied, OneCode;
    if i == 0 {
      assert a.lines[..0] == [];
      NothingRun(a);
      EmptyEmission(a.Kinds());
    } else {
      EmissionHolds(a, i - 1);
      Run2Upto(START2, a.lines, a.Symbols(), a.Kinds(), i - 1);
      Run2Upto(START2, a.lines, a.Symbols(), a.Kinds(), i);
      InfosAreTied(a.Pass1().value, a.globl);
      OneCodeAfter(a, i - 1);
      Step2Unlabelled(a.Before2(i - 1), a.lines[i - 1], a.Symbols(), a.Kinds());
      LineKeeps(a.Before2(i - 1), a.lines[i - 1].op, a.Symbols(), a.Kinds());
    }
  }

  /** The module handed to the REL writer. */
  function ModuleOf(a: Assembled, globals: seq<Global>, checkpoints: seq<Checkpoint>): Module
    requires a.Succeeds()
  {
    var s := a.Pass2().value;
    Module(s.words, s.relocs, SnapshotAreas(s.ctx), globals, checkpoints, false)
  }

  lemma {:induction false} InfoSizeIs(areas: seq<AreaInfo>, c: Ctx, area: string)
    requires forall k | 0 <= k < |areas| :: areas[k].size == FinalSize(c, areas[k].name)
    ensures InfoSize(areas, area) == FinalSize(c, area) || InfoSize(areas, area) == 0
    ensures (exists k :: 0 <= k < |areas| && areas[k].name == area) ==> InfoSize(areas, area) == FinalSize(c, area)
  {
    hide FinalSize;
    if areas != [] {
      InfoSizeIs(areas[..|areas| - 1], c, area);
      if k :| 0 <= k < |areas| - 1 && areas[k].name == area {
        assert areas[..|areas| - 1][k].name == area;
      }
    }
  }

  lemma {:induction false} UsedHas(c: Ctx, order: seq<string>, n: string)
    requires n in order && (n == "" && "" in c.locs ==> c.locs[""].pc > 0)
    ensures n in UsedNames(c, order)
  {
    if order[0] != n {
      UsedHas(c, order[1..], n);
    }
  }

  /** An area with a positive size is recorded with that size. */
  lemma SnapshotSize(c: Ctx, area: string)
    requires Keys(c) && CanonicalAreaName(area) == area && FinalSize(c, area) > 0
    ensures InfoSize(SnapshotAreas(c), area) == FinalSize(c, area)
  {
    hide Upper, InfoSize, OrderLinkAreaNames, UsedNames, IsNoload;
    var key := if area in c.locs && c.locs[area].pc == FinalSize(c, area) then area else "";
    assert key in c.locs && CanonicalAreaName(key) == area;
    UsedHas(c, c.order, key);
    var used := UsedNames(c, c.order);
    var j :| 0 <= j < |used| && used[j] == key;
    assert CanonicalNames(used)[j] == area;
    var names := OrderLinkAreaNames(used);
    assert area in CanonicalNames(used) && area in names;
    var k :| 0 <= k < |names| && names[k] == area;
    assert SnapshotAreas(c)[k].name == area;
    InfoSizeIs(SnapshotAreas(c), c, area);
  }

  lemma SnapshotSmall(c: Ctx, area: string)
    requires Keys(c)
    ensures InfoSize(SnapshotAreas(c), area) < 0x8000
  {
    hide Upper, InfoSize, OrderLinkAreaNames, UsedNames, IsNoload;
    InfoSizeIs(SnapshotAreas(c), c, area);
  }

  /** An area that was opened, and used if it is the unnamed one, is among the module's areas. */
  lemma OpenedNamed(m: Module, c: Ctx, key: string)
    requires m.areas == SnapshotAreas(c) && key in c.order && (key == "" && "" in c.locs ==> c.locs[""].pc > 0)
    ensures CanonicalAreaName(key) in AreaNames(m)
  {
    hide CanonicalAreaName, OrderLinkAreaNames, UsedNames, IsNoload, FinalSize, DefinedAreas;
    UsedHas(c, c.order, key);
    var used := UsedNames(c, c.order);
    var j :| 0 <= j < |used| && used[j] == key;
    assert CanonicalNames(used)[j] == CanonicalAreaName(key);
    var names := OrderLinkAreaNames(used);
    assert CanonicalAreaName(key) in names;
    var k :| 0 <= k < |names| && names[k] == CanonicalAreaName(key);
    CanonicalTwice(key);
    MentionedNamed(m, k);
    assert m.areas[k].name == CanonicalAreaName(key);
  }

  lemma MentionedNamed(m: Module, k: nat)
    requires k < |MentionedAreas(m)|
    ensures CanonicalAreaName(MentionedAreas(m)[k]) in AreaNames(m)
  {
    hide CanonicalAreaName, OrderLinkAreaNames, DefinedAreas;
    var named := MentionedAreas(m);
    assert CanonicalNames(named)[k] == CanonicalAreaName(named[k]);
  }

  /** `_CODE`, or the unnamed area if words were counted in it, was opened. */
  predicate CodeOpened(c: Ctx) { "_CODE" in c.locs || ("" in c.locs && c.locs[""].pc > 0) }

  /** The areas of labels that `_CODE` does not name are always there. */
  lemma LabelAreaNamed(a: Assembled, m: Module, n: string)
    requires GoodSource(a) && m.areas == SnapshotAreas(a.Pass2().value.ctx)
    requires n in a.Kinds() && a.Kinds()[n].area.Some?
    ensures var area := a.Kinds()[n].area.value;
      CanonicalAreaName(area) == area && (area != "_CODE" || CodeOpened(a.Pass2().value.ctx) ==> area in AreaNames(m))
  {
    hide Run1, Run2, BuildInfos, GoodLine, OneCode, SnapshotAreas, AreaNames;
    var c, area := a.Pass2().value.ctx, a.Kinds()[n].area.value;
    LabelAreaOpened(a, n);
    WholeEmission(a);
    EmissionKeys(a.Pass2().value, a.Kinds());
    assert Upper("_CODE") == "_CODE";
    hide Upper;
    if area in c.locs {
      OpenedNamed(m, c, area);
    } else if CodeOpened(c) {
      OpenedNamed(m, c, "");
    }
  }

  /** Some global or checkpoint puts `_CODE` among the areas, or nothing is named and `_CODE` stands in. */
  ghost predicate CodeMentioned(m: Module) {
    (exists g :: g in m.globals && g.def && CanonicalAreaName(g.area) == "_CODE") ||
    (exists k :: k in m.checkpoints && CanonicalAreaName(k.area) == "_CODE") || MentionedAreas(m) == []
  }

  lemma {:induction false} DefinedFrom(gs: seq<Global>, area: string)
    requires area in DefinedAreas(gs)
    ensures exists g :: g in gs && g.def && CanonicalAreaName(g.area) == area
  {
    hide CanonicalAreaName;
    if gs[0].def && CanonicalAreaName(gs[0].area) == area {
      assert gs[0] in gs;
    } else {
      DefinedFrom(gs[1..], area);
      var g :| g in gs[1..] && g.def && CanonicalAreaName(g.area) == area;
      assert g in gs;
    }
  }

  lemma {:induction false} DefinedCanonical(gs: seq<Global>)
    ensures forall n | n in DefinedAreas(gs) :: CanonicalAreaName(n) == n
  {
    if gs != [] {
      CanonicalTwice(gs[0].area);
      hide CanonicalAreaName;
      DefinedCanonical(gs[1..]);
    }
  }

  lemma {:induction false} UsedFrom(c: Ctx, order: seq<string>, n: string)
    requires n in UsedNames(c, order)
    ensures n in order && (n == "" && "" in c.locs ==> c.locs[""].pc > 0)
  {
    if n !in UsedNames(c, order[1..]) {
      assert n == order[0];
    } else {
      UsedFrom(c, order[1..], n);
    }
  }

  /** The recorded area `_CODE` was opened. */
  lemma RecordedOpened(c: Ctx)
    requires Keys(c) && exists k :: 0 <= k < |SnapshotAreas(c)| && SnapshotAreas(c)[k].name == "_CODE"
    ensures CodeOpened(c)
  {
    hide OrderLinkAreaNames, UsedNames, IsNoload, FinalSize, Upper;
    var used := UsedNames(c, c.order);
    assert "_CODE" in CanonicalNames(used);
    var j :| 0 <= j < |used| && CanonicalNames(used)[j] == "_CODE";
    UsedFrom(c, c.order, used[j]);
  }

  lemma RecordedCanonical(c: Ctx, k: nat)
    requires k < |SnapshotAreas(c)|
    ensures CanonicalAreaName(SnapshotAreas(c)[k].name) == SnapshotAreas(c)[k].name
  {
    hide OrderLinkAreaNames, UsedNames, IsNoload, FinalSize, CanonicalAreaName;
    var used := UsedNames(c, c.order);
    var n := OrderLinkAreaNames(used)[k];
    assert n in CanonicalNames(used);
    var j :| 0 <= j < |used| && CanonicalNames(used)[j] == n;
    CanonicalTwice(used[j]);
  }

  /** What puts `_CODE` among the areas of an emitted module. */
  lemma CodeNamed(s: Pass2State, infos: Infos, m: Module)
    requires Emission(s, infos) && m.words == s.words && m.areas == SnapshotAreas(s.ctx)
    ensures "_CODE" in AreaNames(m) <==> CodeOpened(s.ctx) || CodeMentioned(m)
  {
    hide OrderLinkAreaNames, DefinedAreas, SnapshotAreas, CanonicalAreaName, HasWord, GoodReloc, FinalSize, NoClash,
      DistinctSlots;
    CodeIsCanonical();
    var named := MentionedAreas(m);
    if CodeOpened(s.ctx) {
      OpenedNamed(m, s.ctx, if "_CODE" in s.ctx.locs then "_CODE" else "");
    } else if g :| g in m.globals && g.def && CanonicalAreaName(g.area) == "_CODE" {
      GlobalAreaNamed(m, g);
    } else if k :| k in m.checkpoints && CanonicalAreaName(k.area) == "_CODE" {
      var i :| 0 <= i < |m.checkpoints| && m.checkpoints[i] == k;
      var j := |m.areas| + |m.words| + |DefinedAreas(m.globals)| + i;
      assert named[j] == k.area;
      MentionedNamed(m, j);
    } else if named == [] {
      NothingNamed(m);
    } else if "_CODE" in AreaNames(m) {
      assert named[0] in named;
      var j := CodeMention(m);
      MentionIsNot(s, infos, m, j);
    }
  }

  lemma CodeIsCanonical()
    ensures CanonicalAreaName("_CODE") == "_CODE" && CanonicalAreaName("") == "_CODE"
  {
  }

  lemma NothingNamed(m: Module)
    requires MentionedAreas(m) == []
    ensures AreaNames(m) == ["_CODE"]
  {
    var names := OrderLinkAreaNames([]);
    assert CanonicalNames([]) == [];
    FirstMember(names);
  }

  lemma FirstMember(names: seq<string>)
    ensures names != [] ==> names[0] in names
  {
  }

  lemma CodeMention(m: Module) returns (j: nat)
    requires MentionedAreas(m) != [] && "_CODE" in AreaNames(m)
    ensures j < |MentionedAreas(m)| && CanonicalAreaName(MentionedAreas(m)[j]) == "_CODE"
  {
    hide OrderLinkAreaNames, CanonicalAreaName, MentionedAreas;
    var named := MentionedAreas(m);
    assert CanonicalNames(named)[0] in CanonicalNames(named);
    assert CanonicalNames(named)[0] in OrderLinkAreaNames(named);
    j :| 0 <= j < |named| && CanonicalNames(named)[j] == "_CODE";
  }

  /** Nothing mentions `_CODE` when it was not opened and no global or checkpoint does. */
  lemma MentionIsNot(s: Pass2State, infos: Infos, m: Module, j: nat)
    requires Emission(s, infos) && m.words == s.words && m.areas == SnapshotAreas(s.ctx)
    requires j < |MentionedAreas(m)| && CanonicalAreaName(MentionedAreas(m)[j]) == "_CODE"
    ensures CodeOpened(s.ctx) || CodeMentioned(m)
  {
    hide DefinedAreas, SnapshotAreas, CanonicalAreaName, HasWord, GoodReloc, NoClash, DistinctSlots;
    var n := |m.areas| + |m.words|;
    if j < |m.areas| {
      RecordedCanonical(s.ctx, j);
      RecordedOpened(s.ctx);
    } else if j < n {
      assert m.words[j - |m.areas|] in m.words;
      assert GoodWord(s.ctx, m.words[j - |m.areas|]);
    } else if j < n + |DefinedAreas(m.globals)| {
      assert DefinedAreas(m.globals)[j - n] in DefinedAreas(m.globals);
      DefinedCanonical(m.globals);
      DefinedFrom(m.globals, "_CODE");
    } else {
      assert m.checkpoints[j - n - |DefinedAreas(m.globals)|] in m.checkpoints;
    }
  }

  /** Every local label lies in an area of the module exactly when no label lies in `_CODE` or the unnamed
      area, or one of the two was opened and used, or something else names `_CODE`. */
  lemma LabelAreasNamed(a: Assembled, globals: seq<Global>, checkpoints: seq<Checkpoint>)
    requires GoodSource(a)
    ensures var m := ModuleOf(a, globals, checkpoints);
      (forall n | n in a.Kinds() && a.Kinds()[n].kind == Local && a.Kinds()[n].area.Some? ::
        a.Kinds()[n].area.value in AreaNames(m)) <==>
      ((forall n | n in a.Kinds() && a.Kinds()[n].kind == Local :: a.Kinds()[n].area != Some("_CODE")) ||
       CodeOpened(a.Pass2().value.ctx) || CodeMentioned(m))
  {
    hide Run1, Run2, BuildInfos, GoodLine, OneCode, SnapshotAreas, AreaNames, CanonicalAreaName, CodeMentioned,
      Emission, CodeOpened;
    var m := ModuleOf(a, globals, checkpoints);
    WholeEmission(a);
    CodeNamed(a.Pass2().value, a.Kinds(), m);
    forall n | n in a.Kinds() && a.Kinds()[n].area.Some? && a.Kinds()[n].area != Some("_CODE")
      ensures a.Kinds()[n].area.value in AreaNames(m)
    {
      LabelAreaNamed(a, m, n);
    }
  }

  /** Relocations against `_CODE` find that area among the module's. */
  ghost predicate CodeResolves(m: Module) {
    "_CODE" in AreaNames(m) || forall r | r in m.relocs && r.left.Word? :: r.left.area != Some("_CODE")
  }

  /** One word per address, below its area's size, and every relocation on its placeholder. */
  lemma EmittedSits(a: Assembled, globals: seq<Global>, checkpoints: seq<Checkpoint>)
    requires GoodSource(a)
    ensures var m := ModuleOf(a, globals, checkpoints);
      !m.byteAddrs && NoClash(m.words) && DistinctSlots(m.relocs) &&
      (forall w | w in m.words :: w.value < 0x1_0000 && w.address < InfoSize(m.areas, CanonicalAreaName(w.area))) &&
      (forall x | x in AreaNames(m) :: InfoSize(m.areas, x) < 0x8000) &&
      forall r | r in m.relocs :: Sits(m, r) && GoodReloc(r, a.Kinds())
  {
    hide Run1, Run2, GoodLine, OneCode, AreaNames, InfoSize, SnapshotAreas, FinalSize, CanonicalAreaName, Placeholder,
      NoClash, Slot, RelocArea, BuildInfos, Keys;
    var s, m, infos := a.Pass2().value, ModuleOf(a, globals, checkpoints), a.Kinds();
    assert Emission(s, infos) by { WholeEmission(a); }
    forall w | w in m.words
      ensures w.value < 0x1_0000 && w.address < InfoSize(m.areas, CanonicalAreaName(w.area))
    {
      assert GoodWord(s.ctx, w);
      SnapshotSize(s.ctx, w.area);
    }
    forall x | x in AreaNames(m) ensures InfoSize(m.areas, x) < 0x8000 { SnapshotSmall(s.ctx, x); }
    forall r | r in m.relocs ensures Sits(m, r) {
      assert GoodReloc(r, infos) && HasWord(s.words, r);
      var w :| w in s.words && w.area == RelocArea(r) && Placeholder(w, r);
      assert GoodWord(s.ctx, w);
      assert CanonicalAreaName(w.area) == RelocArea(r);
    }
  }

  /** What the second pass emits from a good source is a well-formed module, the assumption the link theorem
      makes about its inputs, exactly when its relocations against `_CODE` find that area. */
  lemma EmittedIsWellFormed(a: Assembled, globals: seq<Global>, checkpoints: seq<Checkpoint>)
    requires GoodSource(a) && Lists(globals, a.Kinds()) && Fits(TablesOf(ModuleOf(a, globals, checkpoints)))
    ensures var m := ModuleOf(a, globals, checkpoints); WellFormed(m) <==> CodeResolves(m)
  {
    hide Run1, Run2, GoodLine, OneCode, AreaNames, TablesOf, InfoSize, SnapshotAreas, CanonicalAreaName, NoClash, Slot,
      RelocArea, Fits, BuildInfos, Lists, Resolvable, Sits, GoodReloc;
    var m := ModuleOf(a, globals, checkpoints);
    EmittedSits(a, globals, checkpoints);
    forall r | r in m.relocs
      ensures Resolvable(m, r) <==> !r.left.Word? || r.left.area != Some("_CODE") || "_CODE" in AreaNames(m)
    {
      ResolvedIff(a, m, r);
    }
    assert (forall r | r in m.relocs :: Resolvable(m, r)) <==> CodeResolves(m);
  }

  /** A relocation of a good source finds its symbol or area, but for `_CODE`. */
  lemma ResolvedIff(a: Assembled, m: Module, r: Reloc)
    requires GoodSource(a) && Lists(m.globals, a.Kinds()) && GoodReloc(r, a.Kinds())
    requires m.areas == SnapshotAreas(a.Pass2().value.ctx)
    ensures Resolvable(m, r) <==> !r.left.Word? || r.left.area != Some("_CODE") || "_CODE" in AreaNames(m)
  {
    hide Run1, Run2, GoodLine, OneCode, SymbolOrder, AreaNames, SnapshotAreas, CanonicalAreaName, BuildInfos, Lists,
      CodeOpened;
    CodeIsCanonical();
    if r.left.Symbol? {
      ListedNumbered(m, a.Kinds(), r.left.name);
    } else if r.left.Word? {
      var n :| Names(r.left, a.Kinds(), n);
      LabelAreaNamed(a, m, n);
    }
  }

  lemma WholeEmission(a: Assembled)
    requires GoodSource(a)
    ensures Emission(a.Pass2().value, a.Kinds())
  {
    hide Run1, Run2, BuildInfos, Emission, GoodLine, OneCode;
    EmissionHolds(a, |a.lines|);
    assert a.lines[..|a.lines|] == a.lines;
  }

  // ----- split AI / SI

  lemma {:induction false} NoStars(args: seq<Arg>, infos: Infos)
    requires forall a | a in args :: !a.Star?
    ensures FirstMatch(args, infos, true) == None
  {
    if args != [] {
      NoStars(args[1..], infos);
    }
  }

  lemma {:induction false} LastStep(remain: nat)
    requires remain > 0
    ensures var s := StepsDown(remain); s != [] && 1 <= s[|s| - 1] <= 15
  {
    StepsDownSum(remain);
    if remain > 15 {
      LastStep(remain - 15);
    }
  }

  lemma DoubledIsOther(head: nat, step: nat)
    requires 1 <= step <= 15
    ensures Low16(head * 16 + step) * 2 % 0x1_0000 != Low16(head * 16 + step) && Low16(head * 16 + step) != 0
  {
  }

  /** A split `AI`/`SI` is emitted as encoded exactly when no operand of it names a relocatable symbol:
      otherwise the relocation meant for an address word doubles or clears its last instruction word. */
  lemma SplitEmittedAsEncoded(s: Pass2State, i: Instr, symbols: SymbolTable, infos: Infos)
    requires i.AiSi? && CodeWords(s, i, symbols, infos).Ok? && forall a | a in i.args :: !a.Star?
    ensures var ws := Encode(i, Pc(s.ctx), ForEncode(symbols, infos));
      ws.Ok? &&
      (CodeWords(s, i, symbols, infos).value.words ==
       s.words + PlainBatch(Pc(s.ctx), ws.value, CanonicalAreaName(s.ctx.current)) <==>
       |ws.value| <= 1 || FirstMatch(i.args, infos, false) == None)
  {
    hide WithPc, CanonicalAreaName, Pc, FirstMatch, ForEncode, EmitAll, Eval, Low16, Steps;
    var pc, area := Pc(s.ctx), CanonicalAreaName(s.ctx.current);
    var ws := Encode(i, pc, ForEncode(symbols, infos)).value;
    var t := EmitAll(s, pc, ws);
    EmitAllWords(s, pc, ws);
    assert t.words == s.words + PlainBatch(pc, ws, area);
    NoStars(i.args, infos);
    var m := FirstMatch(i.args, infos, false);
    if |ws| > 1 && m.Some? {
      RelocatedIs(s, t, pc, ws, i.args, infos, m.value);
      var imm := Eval(ArgExpr(i.args[1]), ForEncode(symbols, infos), false).value;
      ManySteps(imm);
      LastStep(imm);
      DoubledIsOther(i.head, Steps(imm)[|ws| - 1]);
      LowOfLow(i.head * 16 + Steps(imm)[|ws| - 1]);
      var all := CodeWords(s, i, symbols, infos).value.words;
      assert all[|s.words| + |ws| - 1].value == PatchValue(ws, m.value);
      assert (s.words + PlainBatch(pc, ws, area))[|s.words| + |ws| - 1].value == Low16(ws[|ws| - 1]);
    }
  }

  lemma ManySteps(imm: nat)
    requires |Steps(imm)| > 1
    ensures Steps(imm) == StepsDown(imm) && imm > 0
  {
  }

  lemma LowOfLow(v: nat)
    ensures Low16(Low16(v)) == Low16(v)
  {
  }
}
