/** Concrete sources whose references to names do not arrive: a label whose area is not recorded, a label in an
    area of the user's own, and a global constant. */
module ReferenceSamples {
  import opened Results
  import opened Assembly
  import opened Expression
  import opened Assembler
  import opened TwoPass
  import opened WrittenSymbols
  import opened Globals
  import opened EmittedModules
  import opened RelWriter
  import opened RelParser
  import opened RelRoundTrip
  import opened SdldLink
  import opened AreaBases
  import opened WordAddressLink
  import opened LinkTheorem
  import opened Landing
  import opened Toolchain
  import opened SourceLines
  import opened Samples
  import LinkedImage

  // ----- a label in the unnamed area, which nothing else uses

  /** `START:`, `.area _DATA`, `.dw START`. */
  function LostStart(): Assembled {
    Assembled([Line(Some("START"), NoOp), Line(None, Area("_DATA", false)), Line(None, Data([Ref("START")]))], {})
  }

  function DataCtx(pc: nat): Ctx {
    Ctx("_DATA", ["", "_DATA"], map["" := Loc(0, false), "_DATA" := Loc(pc, false)])
  }

  const LOST_SYMBOLS: SymbolTable := map["START" := 0]
  const LOST_INFOS: Infos := map["START" := SymbolInfo(0, Local, Some("_CODE"))]
  const LOST_RELOC: Reloc := Reloc(0, Word(0, Some("_CODE")), Const(0), Some("_DATA"), Word16)

  lemma LostSteps()
    ensures WithPc(DataCtx(0), 1) == DataCtx(1) && Switched(Assembler.START, "_DATA", false) == DataCtx(0)
    ensures Upper("_DATA") == "_DATA" && Upper("START") == "START"
  {
    assert Upper("_DATA") == "_DATA" && Upper("START") == "START";
    hide Upper;
    assert WithPc(DataCtx(0), 1).locs == DataCtx(1).locs;
    assert Switched(Assembler.START, "_DATA", false).locs == DataCtx(0).locs;
  }

  lemma LostDatum()
    ensures DataWords(Pass2State(DataCtx(0), [], []), [Ref("START")], LOST_SYMBOLS, LOST_INFOS) ==
      Ok(Pass2State(DataCtx(1), [EmittedWord(0, 0, "_DATA")], [LOST_RELOC]))
  {
    hide WithPc, Upper;
    LostSteps();
    var s, a := Pass2State(DataCtx(0), [], []), Ref("START");
    assert MatchAbs(a, LOST_INFOS) == Some(LOST_RELOC.left);
    assert Eval(Name("START"), LOST_SYMBOLS, false) == Ok(0);
    var t := Pass2State(DataCtx(1), [EmittedWord(0, 0, "_DATA")], [LOST_RELOC]);
    assert CanonicalAreaName("_DATA") == "_DATA" && Pc(s.ctx) == 0;
    var u := AddReloc(Emit(s, 0, 0), 0, LOST_RELOC.left, Word16);
    assert u == Pass2State(DataCtx(0), [EmittedWord(0, 0, "_DATA")], [LOST_RELOC]);
    assert DataWord(s, a, LOST_SYMBOLS, LOST_INFOS) == Ok(u.(ctx := WithPc(u.ctx, 1)));
    assert [a][1..] == [] && [a][0] == a;
    assert DataWords(t, [], LOST_SYMBOLS, LOST_INFOS) == Ok(t);
  }

  lemma LostRun()
    ensures var a := LostStart();
      a.Succeeds() && a.Kinds() == LOST_INFOS && a.Symbols() == LOST_SYMBOLS &&
      a.Pass2().value == Pass2State(DataCtx(1), [EmittedWord(0, 0, "_DATA")], [LOST_RELOC]) &&
      a.Before2(0) == a.Before2(1) == START2 && a.Before2(2) == Pass2State(DataCtx(0), [], [])
  {
    hide Eval, WithPc, Switched, DataWords, Upper, Run1, Run2;
    LostSteps();
    LostDatum();
    var areas := map["START" := "_CODE"];
    var s := [START1, Pass1State(Assembler.START, LOST_SYMBOLS, areas), Pass1State(DataCtx(0), LOST_SYMBOLS, areas),
              Pass1State(DataCtx(1), LOST_SYMBOLS, areas)];
    var t := [START2, START2, Pass2State(DataCtx(0), [], []),
              Pass2State(DataCtx(1), [EmittedWord(0, 0, "_DATA")], [LOST_RELOC])];
    assert BuildInfos(s[3], {}) == LOST_INFOS;
    assert DefineLabel(s[0], "START") == Ok(s[1]);
    Traced(LostStart(), s, t);
  }

  /** The source is good, and the writer stops at its only relocation: the unnamed area, empty, is not
      recorded, and nothing else names `_CODE`. */
  lemma LostStartIsNotWritten(name: string)
    ensures LostStart().Succeeds() && GoodSource(LostStart())
    ensures RelText(ModuleOf(LostStart(), [], []), name).Err?
  {
    hide Run1, Run2, OrderLinkAreaNames, AreaNames, RelText, WellFormed, Eval, SymbolOrder, SnapshotAreas, Lists, Fits,
      GoodSource, TablesOf, UsedNames, CanonicalNames;
    LostRun();
    LostIsGood();
    var a, c, m := LostStart(), DataCtx(1), ModuleOf(LostStart(), [], []);
    NoGlobals(a.Kinds());
    LostUsed();
    assert |m.areas| <= 8 by { RecordedFew(c); }
    FewNames(m);
    LostSteps();
    assert CanonicalAreaName("_DATA") == "_DATA";
    NamesOfSnapshot(m, c, ["_DATA"]);
    assert LOST_RELOC in m.relocs;
    SourceIsWritten(a, m, name);
  }

  lemma LostIsGood()
    ensures GoodSource(LostStart())
  {
    hide Run1, Run2, GoodLine;
    LostRun();
    var a := LostStart();
    forall i | 0 <= i < |a.lines| ensures GoodLine(a.Before2(i).ctx, a.lines[i].op, a.Symbols(), a.Kinds()) {
      LostLineIsGood(i);
    }
  }

  lemma LostLineIsGood(i: nat)
    requires i < 3
    ensures GoodLine(if i < 2 then Assembler.START else DataCtx(0), LostStart().lines[i].op, LOST_SYMBOLS, LOST_INFOS)
  {
    hide Eval, ForEncode;
  }

  lemma RecordedFew(c: Ctx)
    requires UsedNames(c, c.order) == ["_DATA"]
    ensures |SnapshotAreas(c)| <= 8
  {
    OrderedShorter(["_DATA"]);
  }

  lemma LostUsed()
    ensures var c := DataCtx(1); UsedNames(c, c.order) == ["_DATA"]
    ensures CanonicalNames(["_DATA"]) == ["_DATA"]
  {
    LostSteps();
    var c := DataCtx(1);
    assert c.order[1..] == ["_DATA"] && c.order[1..][1..] == [];
    assert UsedNames(c, ["_DATA"]) == ["_DATA"];
  }

  // ----- a label in an area of the user's own

  /** `.area BANK`, `X: .dw X`. */
  function Bank(): Assembled {
    Assembled([Line(None, Area("BANK", false)), Line(Some("X"), Data([Ref("X")]))], {})
  }

  const BANK_DEFS: Defs := [("s_BANK", 0x200)]

  function BankCtx(pc: nat): Ctx {
    Ctx("BANK", ["", "BANK"], map["" := Loc(0, false), "BANK" := Loc(pc, false)])
  }

  const BANK_SYMBOLS: SymbolTable := map["X" := 0]
  const BANK_INFOS: Infos := map["X" := SymbolInfo(0, Local, Some("BANK"))]
  const BANK_WORD: EmittedWord := EmittedWord(0, 0, "BANK")

  lemma BankSteps()
    ensures WithPc(BankCtx(0), 1) == BankCtx(1) && Switched(Assembler.START, "BANK", false) == BankCtx(0)
    ensures Upper("BANK") == "BANK" && Upper("X") == "X" && CanonicalAreaName("BANK") == "BANK"
  {
    assert Upper("BANK") == "BANK" && Upper("X") == "X" && CanonicalAreaName("BANK") == "BANK";
    hide Upper, CanonicalAreaName;
    assert WithPc(BankCtx(0), 1).locs == BankCtx(1).locs;
    assert Switched(Assembler.START, "BANK", false).locs == BankCtx(0).locs;
  }

  lemma BankDatum()
    ensures DataWords(Pass2State(BankCtx(0), [], []), [Ref("X")], BANK_SYMBOLS, BANK_INFOS) ==
      Ok(Pass2State(BankCtx(1), [BANK_WORD], []))
  {
    hide WithPc, Upper, CanonicalAreaName;
    BankSteps();
    var s, a := Pass2State(BankCtx(0), [], []), Ref("X");
    assert MatchAbs(a, BANK_INFOS) == None && !MentionsExternal(Name("X"), BANK_INFOS);
    assert Eval(Name("X"), BANK_SYMBOLS, false) == Ok(0);
    var t := Pass2State(BankCtx(1), [BANK_WORD], []);
    assert Pc(s.ctx) == 0;
    assert Emit(s, 0, 0) == Pass2State(BankCtx(0), [BANK_WORD], []);
    assert DataWord(s, a, BANK_SYMBOLS, BANK_INFOS) == Ok(t);
    assert [a][1..] == [] && [a][0] == a;
    assert DataWords(t, [], BANK_SYMBOLS, BANK_INFOS) == Ok(t);
  }

  lemma BankRun()
    ensures var a := Bank();
      a.Succeeds() && a.Kinds() == BANK_INFOS && a.Symbols() == BANK_SYMBOLS &&
      a.Pass2().value == Pass2State(BankCtx(1), [BANK_WORD], []) &&
      a.Before2(0) == START2 && a.Before2(1) == Pass2State(BankCtx(0), [], [])
  {
    hide Eval, WithPc, Switched, DataWords, Upper, CanonicalAreaName, Run1, Run2;
    BankSteps();
    BankDatum();
    var areas := map["X" := "BANK"];
    var s := [START1, Pass1State(BankCtx(0), map[], map[]), Pass1State(BankCtx(1), BANK_SYMBOLS, areas)];
    var t := [START2, Pass2State(BankCtx(0), [], []), Pass2State(BankCtx(1), [BANK_WORD], [])];
    assert BuildInfos(s[2], {}) == BANK_INFOS;
    assert DefineLabel(s[1], "X") == Ok(Pass1State(BankCtx(0), BANK_SYMBOLS, areas));
    Traced(Bank(), s, t);
  }

  lemma BankIsGood()
    ensures GoodSource(Bank())
  {
    hide Run1, Run2, GoodLine;
    BankRun();
    var a := Bank();
    forall i | 0 <= i < |a.lines| ensures GoodLine(a.Before2(i).ctx, a.lines[i].op, a.Symbols(), a.Kinds()) {
      BankLineIsGood(i);
    }
  }

  lemma BankLineIsGood(i: nat)
    requires i < 2
    ensures GoodLine(if i < 1 then Assembler.START else BankCtx(0), Bank().lines[i].op, BANK_SYMBOLS, BANK_INFOS)
  {
    hide Eval, ForEncode;
  }

  lemma BankUsed()
    ensures var c := BankCtx(1); UsedNames(c, c.order) == ["BANK"] && CanonicalNames(["BANK"]) == ["BANK"]
  {
    BankSteps();
    var c := BankCtx(1);
    assert c.order[1..] == ["BANK"] && c.order[1..][1..] == [];
    assert UsedNames(c, ["BANK"]) == ["BANK"];
  }

  lemma BankModule()
    ensures Bank().Succeeds()
    ensures var m := ModuleOf(Bank(), [], []);
      m.words == [BANK_WORD] && m.relocs == [] && Ready(Bank(), m) &&
      (forall n :: n in AreaNames(m) <==> n == "BANK") && InfoSize(m.areas, "BANK") == 1
  {
    hide Run1, Run2, OrderLinkAreaNames, Fits, SymbolOrder, TablesOf, InfoSize, FinalSize, IsNoload, AreaNames,
      UsedNames, CanonicalNames, CanonicalAreaName;
    BankRun();
    BankSteps();
    BankUsed();
    var c, m := BankCtx(1), ModuleOf(Bank(), [], []);
    NoGlobals(Bank().Kinds());
    OrderedShorter(["BANK"]);
    FewNames(m);
    NamesOfSnapshot(m, c, ["BANK"]);
    BankSize();
  }

  lemma BankSize()
    ensures InfoSize(SnapshotAreas(BankCtx(1)), "BANK") == 1
  {
    hide SnapshotAreas, InfoSize;
    BankSteps();
    SnapshotSize(BankCtx(1), "BANK");
  }

  lemma BankStart()
    ensures AreaStart(BANK_DEFS, "BANK") == 0x200
  {
    assert "s_" + "BANK" == "s_BANK";
  }

  lemma BankPlaced(p: Project)
    requires Built(p) && |p.ms| == |p.rels| == 1 && p.defs == BANK_DEFS && p.ms[0].words == [BANK_WORD]
    requires forall n :: n in AreaNames(p.ms[0]) <==> n == "BANK"
    requires SizeOf(p.rels[0], "BANK") < 0x8000
    ensures Placed(p)
  {
    hide Built, AreaNames, LinkerBases, AreaStart, SizeOf, Share, Upper;
    BankStart();
    forall i, a | 0 <= i < |p.ms| && a in AreaNames(p.ms[i]) ensures Roomy(p.rels, p.defs, a) {
    }
  }

  /** With the area at byte 200h, the label's word address is 100h; in every image the linker can make, the
      fixup leaves 0 where the label is named. */
  lemma BankLabelIsNotMoved()
    ensures Bank().Succeeds()
    ensures var p := OneFile(Bank(), [], BANK_DEFS);
      Built(p) && Placed(p) && TargetsFit(p) && (exists bytes :: Linked(bytes, p.rels, p.defs)) &&
      BaseOf(p, 0, "BANK") == Some(0x200) &&
      forall bytes | Linked(bytes, p.rels, p.defs) :: Read16(Fixed(bytes, p.rels, p.defs), 0x200) == 0
  {
    hide Built, Run1, Run2, GoodSource, Ready, WellFormed, Reads, AreaNames, Linked, RelText, ParsedText, InfoSize,
      ModuleOf, Roomy, WordsApart, LinkerBases, Fixed, Read16, CanonicalAreaName;
    BankIsGood();
    BankModule();
    BankSteps();
    var p := OneFile(Bank(), [], BANK_DEFS);
    OneFileBuilt(Bank(), [], BANK_DEFS);
    BankStart();
    OnlyBase(p, "BANK");
    BankPlaced(p);
    assert Landed(p.ms, p.rels, p.defs);
    LinkedImage.SomeImageIsLinked(p.ms, p.rels, p.defs);
    forall bytes | Linked(bytes, p.rels, p.defs) ensures Read16(Fixed(bytes, p.rels, p.defs), 0x200) == 0 {
      WordLies(p, bytes, 0, BANK_WORD);
    }
  }

  // ----- a global constant

  /** `.area _CODE`, `N .equ 20`, declared global, and `.dw N`. */
  function Constant(): Assembled {
    Assembled([Line(None, Area("_CODE", false)), Line(None, Equ("N", Lit(20))), Line(None, Data([Ref("N")]))], {"N"})
  }

  const CONSTANT: Global := Global.Global("N", true, 20, "_CODE")
  const CONSTANT_DEFS: Defs := [("s__CODE", 0x100), ("N", 0x128)]

  function OnlyCode(pc: nat): Ctx {
    Ctx("_CODE", ["", "_CODE"], map["" := Loc(0, false), "_CODE" := Loc(pc, false)])
  }

  const CONSTANT_SYMBOLS: SymbolTable := map["N" := 20]
  const CONSTANT_INFOS: Infos := map["N" := SymbolInfo(20, Kind.Global, None)]
  const CONSTANT_RELOC: Reloc := Reloc(0, Symbol("N"), Const(0), Some("_CODE"), Word16)
  const CONSTANT_WORD: Assembly.EmittedWord := Assembly.EmittedWord(0, 0, "_CODE")

  lemma ConstantSteps()
    ensures WithPc(OnlyCode(0), 1) == OnlyCode(1) && Switched(Assembler.START, "_CODE", false) == OnlyCode(0)
    ensures Upper("_CODE") == "_CODE" && Upper("N") == "N" && CanonicalAreaName("_CODE") == "_CODE"
  {
    assert Upper("_CODE") == "_CODE" && Upper("N") == "N" && CanonicalAreaName("_CODE") == "_CODE";
    hide Upper, CanonicalAreaName;
    assert WithPc(OnlyCode(0), 1).locs == OnlyCode(1).locs;
    assert Switched(Assembler.START, "_CODE", false).locs == OnlyCode(0).locs;
  }

  lemma ConstantDatum()
    ensures DataWords(Pass2State(OnlyCode(0), [], []), [Ref("N")], CONSTANT_SYMBOLS, CONSTANT_INFOS) ==
      Ok(Pass2State(OnlyCode(1), [CONSTANT_WORD], [CONSTANT_RELOC]))
  {
    hide WithPc, Upper, CanonicalAreaName, Eval;
    ConstantSteps();
    var s, a := Pass2State(OnlyCode(0), [], []), Ref("N");
    assert MatchAbs(a, CONSTANT_INFOS) == Some(Symbol("N")) && Pc(s.ctx) == 0;
    var t := Pass2State(OnlyCode(1), [CONSTANT_WORD], [CONSTANT_RELOC]);
    var u := AddReloc(Emit(s, 0, 0), 0, Symbol("N"), Word16);
    assert u == Pass2State(OnlyCode(0), [CONSTANT_WORD], [CONSTANT_RELOC]);
    assert DataWord(s, a, CONSTANT_SYMBOLS, CONSTANT_INFOS) == Ok(t);
    assert [a][1..] == [] && [a][0] == a;
    assert DataWords(t, [], CONSTANT_SYMBOLS, CONSTANT_INFOS) == Ok(t);
  }

  lemma ConstantRun()
    ensures var a := Constant();
      a.Succeeds() && a.Kinds() == CONSTANT_INFOS && a.Symbols() == CONSTANT_SYMBOLS &&
      a.Pass2().value == Pass2State(OnlyCode(1), [CONSTANT_WORD], [CONSTANT_RELOC]) &&
      a.Before2(0) == START2 && a.Before2(1) == a.Before2(2) == Pass2State(OnlyCode(0), [], [])
  {
    hide Eval, WithPc, Switched, DataWords, Upper, CanonicalAreaName, Run1, Run2;
    ConstantSteps();
    ConstantDatum();
    LitIs(20, map[], true);
    var s := [START1, Pass1State(OnlyCode(0), map[], map[]), Pass1State(OnlyCode(0), CONSTANT_SYMBOLS, map[]),
              Pass1State(OnlyCode(1), CONSTANT_SYMBOLS, map[])];
    var t := [START2, Pass2State(OnlyCode(0), [], []), Pass2State(OnlyCode(0), [], []),
              Pass2State(OnlyCode(1), [CONSTANT_WORD], [CONSTANT_RELOC])];
    assert BuildInfos(s[3], {"N"}) == CONSTANT_INFOS;
    Traced(Constant(), s, t);
  }

  lemma ConstantIsGood()
    ensures GoodSource(Constant())
  {
    hide Run1, Run2, GoodLine;
    ConstantRun();
    var a := Constant();
    forall i | 0 <= i < |a.lines| ensures GoodLine(a.Before2(i).ctx, a.lines[i].op, a.Symbols(), a.Kinds()) {
      ConstantLineIsGood(i);
    }
  }

  lemma ConstantLineIsGood(i: nat)
    requires i < 3
    ensures GoodLine(if i < 1 then Assembler.START else OnlyCode(0), Constant().lines[i].op, CONSTANT_SYMBOLS,
                     CONSTANT_INFOS)
  {
    hide Eval, ForEncode;
  }

  lemma ConstantUsed()
    ensures var c := OnlyCode(1); UsedNames(c, c.order) == ["_CODE"] && CanonicalNames(["_CODE"]) == ["_CODE"]
  {
    ConstantSteps();
    var c := OnlyCode(1);
    assert c.order[1..] == ["_CODE"] && c.order[1..][1..] == [];
    assert UsedNames(c, ["_CODE"]) == ["_CODE"];
  }

  lemma ConstantListed()
    ensures Lists([CONSTANT], CONSTANT_INFOS) && DefinedAreas([CONSTANT]) == ["_CODE"]
  {
    ConstantSteps();
    hide CanonicalAreaName;
    assert Entry("N", CONSTANT_INFOS["N"]) == CONSTANT;
    assert [CONSTANT][1..] == [];
  }

  lemma ConstantModule()
    ensures Constant().Succeeds()
    ensures var m := ModuleOf(Constant(), [CONSTANT], []);
      m.words == [CONSTANT_WORD] && m.relocs == [CONSTANT_RELOC] && m.globals == [CONSTANT] &&
      m.checkpoints == [] && !m.byteAddrs && Ready(Constant(), m) &&
      (forall n :: n in AreaNames(m) <==> n == "_CODE") && InfoSize(m.areas, "_CODE") == 1
  {
    hide Run1, Run2, OrderLinkAreaNames, Fits, SymbolOrder, TablesOf, InfoSize, FinalSize, IsNoload, AreaNames,
      UsedNames, CanonicalNames, CanonicalAreaName, Lists, DefinedAreas;
    ConstantRun();
    ConstantSteps();
    ConstantUsed();
    ConstantListed();
    var c, m := OnlyCode(1), ModuleOf(Constant(), [CONSTANT], []);
    OrderedShorter(["_CODE"]);
    FewNames(m);
    NamesOfSnapshot(m, c, ["_CODE"]);
    ConstantSize();
  }

  lemma ConstantSize()
    ensures InfoSize(SnapshotAreas(OnlyCode(1)), "_CODE") == 1
  {
    hide SnapshotAreas, InfoSize;
    ConstantSteps();
    SnapshotSize(OnlyCode(1), "_CODE");
  }

  lemma ConstantStart()
    ensures AreaStart(CONSTANT_DEFS, "_CODE") == 0x100
    ensures DefLookup(CONSTANT_DEFS, SdldSymName("N")) == Some(0x128)
  {
    assert "s_" + "_CODE" == "s__CODE";
  }

  lemma ConstantPlaced(p: Project)
    requires Built(p) && |p.ms| == |p.rels| == 1 && p.defs == CONSTANT_DEFS && p.ms[0].words == [CONSTANT_WORD]
    requires forall n :: n in AreaNames(p.ms[0]) <==> n == "_CODE"
    requires SizeOf(p.rels[0], "_CODE") < 0x8000
    ensures Placed(p)
  {
    hide Built, AreaNames, LinkerBases, AreaStart, SizeOf, Share, Upper;
    ConstantStart();
    forall i, a | 0 <= i < |p.ms| && a in AreaNames(p.ms[i]) ensures Roomy(p.rels, p.defs, a) {
    }
  }

  /** The file's only symbol behind an A line is `N`, 40 bytes into `_CODE`. */
  lemma ConstantTold(p: Project)
    requires Built(p) && |p.ms| == |p.rels| == 1 && p.defs == CONSTANT_DEFS && "_CODE" in p.rels[0].areas
    requires p.ms[0].globals == [CONSTANT] && p.ms[0].checkpoints == [] && !p.ms[0].byteAddrs
    ensures DefsTold(p)
  {
    hide Delivered, RelText, ParsedText, AreaStart, Symbols, CanonicalAreaName, DefLookup;
    ConstantSteps();
    ConstantStart();
    var m, text := p.ms[0], TextOf(p, 0);
    SymbolsWritten(m, p.names[0]);
    var n: FileSymbol := (Some("_CODE"), SLine("N", true, 40));
    assert GlobalEntry(CONSTANT, false) == n;
    assert GlobalEntries(m.globals, false) == [n] && CheckpointEntries(m.checkpoints, false) == [];
    forall e | e in Symbols(text, None) && e.0.Some? ensures e == n {
      assert e in multiset(Symbols(text, None));
    }
  }

  lemma ConstantLinks()
    ensures Constant().Succeeds()
    ensures var p := OneFile(Constant(), [CONSTANT], CONSTANT_DEFS);
      Built(p) && Placed(p) && TargetsFit(p) && DefsTold(p) && (exists bytes :: Linked(bytes, p.rels, p.defs)) &&
      BaseOf(p, 0, "_CODE") == Some(0x100) && p.ms[0].globals == [CONSTANT] && p.ms[0].relocs == [CONSTANT_RELOC]
  {
    hide Built, Run1, Run2, GoodSource, Ready, WellFormed, Reads, AreaNames, Linked, RelText, ParsedText, InfoSize,
      ModuleOf, Roomy, WordsApart, LinkerBases, CanonicalAreaName, DefLookup;
    ConstantIsGood();
    ConstantModule();
    ConstantSteps();
    var p := OneFile(Constant(), [CONSTANT], CONSTANT_DEFS);
    OneFileBuilt(Constant(), [CONSTANT], CONSTANT_DEFS);
    ConstantStart();
    OnlyBase(p, "_CODE");
    ConstantPlaced(p);
    assert Landed(p.ms, p.rels, p.defs);
    LinkedImage.SomeImageIsLinked(p.ms, p.rels, p.defs);
    ReadAreas(p.rels[0], p.ms[0]);
    ConstantTold(p);
  }

  /** With `_CODE` at byte 100h, memory holds 148 in every image the linker can make, where 20 is named. */
  lemma ConstantIsMoved()
    ensures Constant().Succeeds()
    ensures var p := OneFile(Constant(), [CONSTANT], CONSTANT_DEFS);
      Built(p) && Placed(p) && TargetsFit(p) && DefsTold(p) && (exists bytes :: Linked(bytes, p.rels, p.defs)) &&
      forall bytes | Linked(bytes, p.rels, p.defs) :: Read16(Fixed(bytes, p.rels, p.defs), 0x100) == 148
  {
    hide Built, Placed, TargetsFit, DefsTold, Run1, Run2, Linked, RelText, ParsedText, ModuleOf, LinkerBases, Fixed,
      Read16, CanonicalAreaName, FieldAt;
    ConstantSteps();
    ConstantRun();
    ConstantLinks();
    var p := OneFile(Constant(), [CONSTANT], CONSTANT_DEFS);
    assert CONSTANT in p.ms[0].globals && CONSTANT_RELOC in p.ms[0].relocs;
    RelocLies(p, 0, CONSTANT_RELOC);
    forall bytes | Linked(bytes, p.rels, p.defs) ensures Read16(Fixed(bytes, p.rels, p.defs), 0x100) == 148 {
      GlobalConstantMoves(p, bytes, 0, CONSTANT_RELOC, 0, CONSTANT);
    }
  }
}
