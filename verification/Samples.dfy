/** Concrete sources: a layout the link must serve, and inputs on which the code does what its users do
    not expect. */
module Samples {
  import opened Results
  import opened Assembly
  import opened Expression
  import opened Assembler
  import opened TwoPass
  import opened Globals
  import opened EmittedModules
  import opened RelWriter
  import opened RelParser
  import opened RelRoundTrip
  import opened SdldLink
  import opened AreaBases
  import opened WordAddressLink
  import opened LinkTheorem
  import opened Landing
  import Sizes = AreaSizes
  import opened Toolchain
  import LinkedImage
  import Tms9995

  // ----- one source, one file

  /** The project of a single source, its areas where the linker is told to put them, or where `defs` says. */
  function OneFile(a: Assembled, globals: seq<Global>, defs: Defs): Project
    requires a.Succeeds()
  {
    var m := ModuleOf(a, globals, []);
    var text := RelText(m, "M");
    Project([a], ["M"], [m], [ParsedText(if text.Ok? then text.value else [])], defs)
  }

  /** The globals are those of the source, numbers fit, and `_CODE` is there for who refers to it. */
  ghost predicate Ready(a: Assembled, m: Module) {
    Lists(m.globals, a.Kinds()) && Fits(TablesOf(m)) && CodeResolves(m)
  }

  lemma NoGlobals(infos: Infos)
    requires forall n | n in infos :: infos[n].kind == Local
    ensures Lists([], infos)
  {
  }

  lemma OneFileBuilt(a: Assembled, globals: seq<Global>, defs: Defs)
    requires GoodSource(a) && Ready(a, ModuleOf(a, globals, []))
    ensures var p := OneFile(a, globals, defs);
      Built(p) && WellFormed(p.ms[0]) && Reads(p.rels[0], p.ms[0])
  {
    hide GoodSource, Lists, Fits, CodeResolves, WellFormed, RelText, ParsedText, Reads, SnapshotAreas, TablesOf,
      AreaNames;
    assert a.Succeeds() by { SourceSucceeds(a); }
    var m := ModuleOf(a, globals, []);
    EmittedIsWellFormed(a, globals, []);
    WriterAccepts(m, "M");
    WrittenAndRead(m, "M");
    assert m == ModuleOf(a, m.globals, m.checkpoints);
  }

  lemma SourceSucceeds(a: Assembled)
    requires GoodSource(a)
    ensures a.Succeeds()
  {
    hide GoodLine, OneCode;
  }

  lemma {:induction false} DefinedFew(gs: seq<Global>, area: string)
    ensures |DefinedIn(gs, area)| <= |gs| && |References(gs)| <= |gs| && |DefinedAreas(gs)| <= |gs|
  {
    hide CanonicalAreaName;
    if gs != [] {
      DefinedFew(gs[1..], area);
    }
  }

  lemma {:induction false} FewAreaSymbols(m: Module, names: seq<string>)
    requires |m.globals| <= 1 && m.checkpoints == []
    ensures |AllAreaSymbols(m, names)| <= |names|
  {
    hide DefinedIn;
    if names != [] {
      DefinedFew(m.globals, names[0]);
      FewAreaSymbols(m, names[1..]);
    }
  }

  lemma {:induction false} PickShorter(names: seq<string>, these: seq<string>, keep: bool)
    ensures |Pick(names, these, keep)| <= |names|
  {
    if names != [] {
      PickShorter(names[1..], these, keep);
    }
  }

  lemma {:induction false} SortedAsLong(names: seq<string>)
    ensures |SortNames(names)| == |names|
  {
    if names != [] {
      SortedAsLong(names[1..]);
      InsertedLonger(names[0], SortNames(names[1..]));
    }
  }

  lemma {:induction false} InsertedLonger(n: string, names: seq<string>)
    ensures |InsertName(n, names)| == |names| + 1
  {
    if names != [] && !Assembly.Before(n, names[0]) {
      InsertedLonger(n, names[1..]);
    }
  }

  lemma {:induction false} DistinctShorter(names: seq<string>)
    ensures |Distinct(names)| <= |names|
  {
    if names != [] {
      DistinctShorter(names[1..]);
    }
  }

  lemma OrderedShorter(names: seq<string>)
    ensures |OrderLinkAreaNames(names)| <= 7 + |names|
  {
    hide CanonicalAreaName;
    var present := Distinct(CanonicalNames(names));
    DistinctShorter(CanonicalNames(names));
    PickShorter(AREA_LINK_ORDER, present, true);
    PickShorter(present, AREA_LINK_ORDER, false);
    SortedAsLong(Pick(present, AREA_LINK_ORDER, false));
  }

  /** A small module numbers few names. */
  lemma FewNames(m: Module)
    requires |m.globals| <= 1 && m.checkpoints == [] && |m.areas| + |m.words| < 1000
    ensures Fits(TablesOf(m))
  {
    hide OrderLinkAreaNames, DefinedAreas, References, AllAreaSymbols;
    DefinedFew(m.globals, "");
    OrderedShorter(MentionedAreas(m));
    FewAreaSymbols(m, AreaNames(m));
  }

  /** The areas of a module are those its counters recorded, when its words and globals lie in them. */
  lemma NamesOfSnapshot(m: Module, c: Ctx, names: seq<string>)
    requires m.checkpoints == [] && m.areas == SnapshotAreas(c) && forall n | n in DefinedAreas(m.globals) :: n in names
    requires names != [] && UsedNames(c, c.order) == names && CanonicalNames(names) == names
    requires forall w | w in m.words :: CanonicalAreaName(w.area) in names
    ensures forall n :: n in AreaNames(m) <==> n in names
  {
    hide OrderLinkAreaNames, CanonicalAreaName, UsedNames, DefinedAreas;
    var mentioned, ordered := MentionedAreas(m), OrderLinkAreaNames(names);
    forall k | 0 <= k < |mentioned| ensures CanonicalNames(mentioned)[k] in names {
      if k < |m.areas| {
        assert mentioned[k] == ordered[k] && ordered[k] in ordered;
        OwnCanonical(names, ordered[k]);
      } else if k < |m.areas| + |m.words| {
        assert m.words[k - |m.areas|] in m.words;
      } else {
        assert mentioned[k] == DefinedAreas(m.globals)[k - |m.areas| - |m.words|];
        assert mentioned[k] in names;
        OwnCanonical(names, mentioned[k]);
      }
    }
    forall n | n in names ensures n in CanonicalNames(mentioned) {
      assert n in ordered;
      var k :| 0 <= k < |ordered| && ordered[k] == n;
      assert mentioned[k] == n;
      OwnCanonical(names, n);
      assert CanonicalNames(mentioned)[k] == n;
    }
    assert names[0] in OrderLinkAreaNames(mentioned);
  }

  lemma OwnCanonical(names: seq<string>, n: string)
    requires CanonicalNames(names) == names && n in names
    ensures CanonicalAreaName(n) == n
  {
    hide CanonicalAreaName;
    var k :| 0 <= k < |names| && names[k] == n;
    assert CanonicalNames(names)[k] == CanonicalAreaName(names[k]);
  }

  /** The area starts, for the only module, where the linker was told to put it. */
  lemma OnlyBase(p: Project, area: string)
    requires |p.ms| == 1 && Built(p) && WellFormed(p.ms[0]) && Reads(p.rels[0], p.ms[0]) && area in AreaNames(p.ms[0])
    requires AreaStart(p.defs, area) < 0x8000
    ensures area in LinkerBases(p.rels, p.defs)[0] && LinkerBases(p.rels, p.defs)[0][area] == AreaStart(p.defs, area)
    ensures SizeOf(p.rels[0], area) == 2 * InfoSize(p.ms[0].areas, area)
  {
    hide WellFormed, Reads, AreaNames, InitialCursor, CursorAt, BasesFrom, SizeRel, InfoSize, Built, SharesBefore,
      NoDup, SizeOf;
    assert |p.rels| == 1 by { FromSource(p, 0); }
    SizeIsDoubled(p.ms[0], area);
    SizesRead(p.ms[0], p.rels[0], area);
    assert p.rels[0].areas == AreaNames(p.ms[0]) by { ReadAreas(p.rels[0], p.ms[0]); }
    NamesNoDup(p.ms[0]);
    OneShare(p.rels, area);
  }

  lemma ReadAreas(p: ParsedRel, m: Module)
    requires Reads(p, m)
    ensures p.areas == AreaNames(m)
  {
    hide AreaNames, AreaSizes, AllChunks;
  }

  lemma OneShare(rels: seq<ParsedRel>, area: string)
    requires |rels| == 1
    ensures SharesBefore(rels, 0, area) == 0 && SharesBefore(rels, 1, area) <= SizeOf(rels[0], area)
  {
  }

  lemma Starts()
    ensures AreaStart([], "_VECTOR") == 0 && AreaStart([], "_BIOS") == 0 && AreaStart([], "_CODE") == 0
    ensures AreaStart([], "_USR_PAGE0") == 0x80
  {
  }

  // ----- areas that start at one byte

  /** The monitor's layout: `_VECTOR` and `_BIOS` both start at byte 0 and are kept apart by `.org` alone. */
  function Vectors(): Assembled {
    Assembled([Line(None, Area("_VECTOR", false)), Line(None, Org(Lit(0x100))), Line(None, Data([Plain(Lit(1))])),
               Line(None, Area("_BIOS", false)), Line(None, Org(Lit(0x110))), Line(None, Data([Plain(Lit(2))]))], {})
  }

  function VectorCtx(pc: nat): Ctx {
    Ctx("_VECTOR", ["", "_VECTOR"], map["" := Loc(0, false), "_VECTOR" := Loc(pc, false)])
  }

  function BiosCtx(pc: nat): Ctx {
    Ctx("_BIOS", ["", "_VECTOR", "_BIOS"],
        map["" := Loc(0, false), "_VECTOR" := Loc(0x101, false), "_BIOS" := Loc(pc, false)])
  }

  const VECTOR_WORD: EmittedWord := EmittedWord(0x100, 1, "_VECTOR")
  const BIOS_WORD: EmittedWord := EmittedWord(0x110, 2, "_BIOS")

  function VectorCtxs(): seq<Ctx> {
    [Assembler.START, VectorCtx(0), VectorCtx(0x100), VectorCtx(0x101), BiosCtx(0), BiosCtx(0x110), BiosCtx(0x111)]
  }

  lemma VectorNames()
    ensures Upper("_VECTOR") == "_VECTOR" && Upper("_BIOS") == "_BIOS"
  {
  }

  lemma LitIs(n: nat, symbols: SymbolTable, allow: bool)
    ensures Eval(Lit(n), symbols, allow) == Ok(n)
  {
  }

  lemma OneDatum(s: Pass2State, n: nat, symbols: SymbolTable, infos: Infos)
    requires n < 0x1_0000
    ensures var t := Pass2State(WithPc(s.ctx, Pc(s.ctx) + 1),
                                s.words + [EmittedWord(Pc(s.ctx), n, CanonicalAreaName(s.ctx.current))], s.relocs);
      DataWord(s, Plain(Lit(n)), symbols, infos) == Ok(t) && DataWords(s, [Plain(Lit(n))], symbols, infos) == Ok(t)
  {
    hide CanonicalAreaName, Eval, WithPc, Pc;
    var a := Plain(Lit(n));
    LitIs(n, symbols, false);
    assert MatchAbs(a, infos) == None && !MentionsExternal(Lit(n), infos);
    var t := DataWord(s, a, symbols, infos);
    assert DataWords(t.value, [], symbols, infos) == t;
    assert [a][1..] == [];
  }

  lemma VectorSteps(x: nat, y: nat)
    requires y < 0x1_0000
    ensures WithPc(VectorCtx(x), y) == VectorCtx(y) && WithPc(BiosCtx(x), y) == BiosCtx(y)
    ensures Switched(Assembler.START, "_VECTOR", false) == VectorCtx(0)
    ensures Switched(VectorCtx(0x101), "_BIOS", false) == BiosCtx(0)
  {
    VectorNames();
    hide Upper;
    assert WithPc(VectorCtx(x), y).locs == VectorCtx(y).locs && WithPc(BiosCtx(x), y).locs == BiosCtx(y).locs;
    assert Switched(Assembler.START, "_VECTOR", false).locs == VectorCtx(0).locs;
    assert Switched(VectorCtx(0x101), "_BIOS", false).locs == BiosCtx(0).locs;
  }

  /** What the second pass has emitted before line `i`. */
  function VectorWords(i: nat): seq<EmittedWord> {
    if i <= 2 then [] else if i <= 5 then [VECTOR_WORD] else [VECTOR_WORD, BIOS_WORD]
  }

  lemma VectorLine1(i: nat)
    requires i < 6
    ensures Step1(Pass1State(VectorCtxs()[i], map[], map[]), Vectors().lines[i]) ==
      Ok(Pass1State(VectorCtxs()[i + 1], map[], map[]))
  {
    hide Eval, WithPc, Switched, Upper;
    VectorSteps(0, 0x100);
    VectorSteps(0x100, 0x101);
    VectorSteps(0, 0x110);
    VectorSteps(0x110, 0x111);
    LitIs(0x100, map[], true);
    LitIs(0x110, map[], true);
  }

  lemma VectorLine2(i: nat)
    requires i < 6
    ensures Step2(Pass2State(VectorCtxs()[i], VectorWords(i), []), Vectors().lines[i], map[], map[]) ==
      Ok(Pass2State(VectorCtxs()[i + 1], VectorWords(i + 1), []))
  {
    hide Eval, WithPc, Switched, DataWords, Upper;
    if i == 2 {
      VectorNames();
      VectorSteps(0x100, 0x101);
      OneDatum(Pass2State(VectorCtx(0x100), [], []), 1, map[], map[]);
      assert VectorWords(2) + [VECTOR_WORD] == VectorWords(3);
    } else if i == 5 {
      VectorNames();
      VectorSteps(0x110, 0x111);
      OneDatum(Pass2State(BiosCtx(0x110), [VECTOR_WORD], []), 2, map[], map[]);
      assert [VECTOR_WORD] + [BIOS_WORD] == VectorWords(6);
    } else {
      VectorSteps(0, 0x100);
      VectorSteps(0, 0x110);
      LitIs(0x100, map[], false);
      LitIs(0x110, map[], false);
    }
  }

  lemma VectorRun()
    ensures var a := Vectors();
      a.Succeeds() && a.Kinds() == map[] && a.Symbols() == map[] &&
      a.Pass2().value == Pass2State(BiosCtx(0x111), [VECTOR_WORD, BIOS_WORD], [])
    ensures forall i | 0 <= i <= 6 :: Vectors().Before2(i).ctx == VectorCtxs()[i]
  {
    hide Step1, Step2, Run1, Run2;
    var a, cs := Vectors(), VectorCtxs();
    var s := seq(7, i requires 0 <= i < 7 => Pass1State(cs[i], map[], map[]));
    var t := seq(7, i requires 0 <= i < 7 => Pass2State(cs[i], VectorWords(i), []));
    forall i | 0 <= i < 6
      ensures Step1(s[i], a.lines[i]) == Ok(s[i + 1]) && Step2(t[i], a.lines[i], map[], map[]) == Ok(t[i + 1])
    {
      VectorLine1(i);
      VectorLine2(i);
    }
    assert BuildInfos(s[6], {}) == map[];
    Traced(a, s, t);
  }

  lemma VectorsAreGood()
    ensures GoodSource(Vectors())
  {
    hide Run1, Run2, GoodLine;
    VectorRun();
    var a := Vectors();
    forall i | 0 <= i < |a.lines| ensures GoodLine(a.Before2(i).ctx, a.lines[i].op, a.Symbols(), a.Kinds()) {
      VectorLineIsGood(i);
    }
  }

  lemma VectorLineIsGood(i: nat)
    requires i < 6
    ensures GoodLine(VectorCtxs()[i], Vectors().lines[i].op, map[], map[])
  {
    hide Eval, Encode, ForEncode;
    LitIs(0x100, map[], false);
    LitIs(0x110, map[], false);
  }

  lemma VectorModule()
    ensures Vectors().Succeeds()
    ensures var m := ModuleOf(Vectors(), [], []);
      m.words == [VECTOR_WORD, BIOS_WORD] && m.relocs == [] && Ready(Vectors(), m) &&
      (forall n :: n in AreaNames(m) <==> n == "_VECTOR" || n == "_BIOS") &&
      InfoSize(m.areas, "_VECTOR") == 0x101 && InfoSize(m.areas, "_BIOS") == 0x111
  {
    hide Run1, Run2, OrderLinkAreaNames, Fits, SymbolOrder, TablesOf, InfoSize, FinalSize, IsNoload, AreaNames;
    VectorRun();
    VectorNames();
    NoGlobals(Vectors().Kinds());
    var c, m := BiosCtx(0x111), ModuleOf(Vectors(), [], []);
    assert UsedNames(c, c.order) == ["_VECTOR", "_BIOS"] by { VectorsUsed(); }
    var names := OrderLinkAreaNames(["_VECTOR", "_BIOS"]);
    VectorCanonical();
    assert |names| <= 9 by { OrderedShorter(["_VECTOR", "_BIOS"]); }
    FewNames(m);
    NamesOfSnapshot(m, c, ["_VECTOR", "_BIOS"]);
    VectorSizes();
  }

  lemma VectorSizes()
    ensures InfoSize(SnapshotAreas(BiosCtx(0x111)), "_VECTOR") == 0x101
    ensures InfoSize(SnapshotAreas(BiosCtx(0x111)), "_BIOS") == 0x111
  {
    hide SnapshotAreas, InfoSize;
    VectorNames();
    SnapshotSize(BiosCtx(0x111), "_VECTOR");
    SnapshotSize(BiosCtx(0x111), "_BIOS");
  }

  lemma VectorsUsed()
    ensures var c := BiosCtx(0x111); UsedNames(c, c.order) == ["_VECTOR", "_BIOS"]
  {
    var c := BiosCtx(0x111);
    assert c.order[1..] == ["_VECTOR", "_BIOS"] && c.order[1..][1..] == ["_BIOS"] && c.order[1..][1..][1..] == [];
    assert UsedNames(c, ["_BIOS"]) == ["_BIOS"];
    assert UsedNames(c, ["_VECTOR", "_BIOS"]) == ["_VECTOR", "_BIOS"];
  }

  lemma VectorCanonical()
    ensures CanonicalNames(["_VECTOR", "_BIOS"]) == ["_VECTOR", "_BIOS"]
  {
    VectorNames();
  }

  /** The link theorem covers the layout: with both areas based at byte 0, their spans overlapping, the
      project meets every assumption, and there is a linked image to start from. */
  lemma OverlappingSpansLink()
    ensures Vectors().Succeeds()
    ensures var p := OneFile(Vectors(), [], []);
      Built(p) && Placed(p) && TargetsFit(p) && (exists bytes :: Linked(bytes, p.rels, p.defs)) &&
      AreaStart(p.defs, "_VECTOR") == AreaStart(p.defs, "_BIOS") == 0 &&
      SizeOf(p.rels[0], "_VECTOR") == 0x202 && SizeOf(p.rels[0], "_BIOS") == 0x222
  {
    hide Built, Run1, Run2, GoodSource, Ready, WellFormed, Reads, AreaNames, Linked, RelText, ParsedText,
      InfoSize, ModuleOf;
    VectorsAreGood();
    VectorModule();
    VectorNames();
    var p := OneFile(Vectors(), [], []);
    OneFileBuilt(Vectors(), [], []);
    Starts();
    OnlyBase(p, "_VECTOR");
    OnlyBase(p, "_BIOS");
    VectorsPlaced(p);
    assert Landed(p.ms, p.rels, p.defs);
    LinkedImage.SomeImageIsLinked(p.ms, p.rels, p.defs);
  }

  lemma VectorsPlaced(p: Project)
    requires Built(p) && |p.ms| == |p.rels| == 1 && p.defs == []
    requires p.ms[0].words == [VECTOR_WORD, BIOS_WORD]
    requires forall n :: n in AreaNames(p.ms[0]) <==> n == "_VECTOR" || n == "_BIOS"
    requires forall n | n == "_VECTOR" || n == "_BIOS" ::
      n in LinkerBases(p.rels, [])[0] && LinkerBases(p.rels, [])[0][n] == AreaStart([], n) == 0 &&
      SizeOf(p.rels[0], n) < 0x8000
    ensures Placed(p)
  {
    hide Built, AreaNames, LinkerBases, AreaStart, SizeOf, Share, Upper;
    VectorNames();
    forall i, a | 0 <= i < |p.ms| && a in AreaNames(p.ms[i]) ensures Roomy(p.rels, p.defs, a) {
    }
    forall i: nat, j: nat, v, w
      | i < |p.ms| && j < |p.ms| && v in p.ms[i].words && w in p.ms[j].words && MayCollide(i, v, j, w)
      ensures PlaceOf(p.rels, p.defs, i, v) != PlaceOf(p.rels, p.defs, j, w)
    {
    }
  }

  // ----- a zero-page operand beyond the first 128 words

  /** `.area _USR_PAGE0`, `.ds 128`, `X: .ds 1`, `.area _CODE`, `L R0, *X`. */
  function FarZeroPage(): Assembled {
    Assembled([Line(None, Area("_USR_PAGE0", false)), Line(None, Reserve(Lit(128))), Line(Some("X"), Reserve(Lit(1))),
               Line(None, Area("_CODE", false)), Line(None, Code(LOAD_X))], {})
  }

  const LOAD_X: Instr := OneWord((pc, symbols) => Ok(0xc080), [Ref("R0"), Star("X")])

  function PageCtx(pc: nat): Ctx {
    Ctx("_USR_PAGE0", ["", "_USR_PAGE0"], map["" := Loc(0, false), "_USR_PAGE0" := Loc(pc, false)])
  }

  function CodeCtx(pc: nat): Ctx {
    Ctx("_CODE", ["", "_USR_PAGE0", "_CODE"],
        map["" := Loc(0, false), "_USR_PAGE0" := Loc(129, false), "_CODE" := Loc(pc, false)])
  }

  function PageCtxs(): seq<Ctx> {
    [Assembler.START, PageCtx(0), PageCtx(128), PageCtx(129), CodeCtx(0), CodeCtx(1)]
  }

  const PAGE_SYMBOLS: SymbolTable := map["X" := 128]
  const PAGE_INFOS: Infos := map["X" := SymbolInfo(128, Local, Some("_USR_PAGE0"))]
  const LOAD_WORD: EmittedWord := EmittedWord(0, 0xc000, "_CODE")
  const LOAD_RELOC: Reloc := Reloc(1, Word(128, Some("_USR_PAGE0")), Const(0), Some("_CODE"), Low8)

  function PageState1(i: nat): Pass1State
    requires i < 6
  {
    Pass1State(PageCtxs()[i], if i <= 2 then map[] else PAGE_SYMBOLS,
               if i <= 2 then map[] else map["X" := "_USR_PAGE0"])
  }

  function PageState2(i: nat): Pass2State
    requires i < 6
  {
    Pass2State(PageCtxs()[i], if i < 5 then [] else [LOAD_WORD], if i < 5 then [] else [LOAD_RELOC])
  }

  lemma PageNames()
    ensures Upper("_USR_PAGE0") == "_USR_PAGE0" && Upper("_CODE") == "_CODE" && Upper("X") == "X"
  {
  }

  lemma PageSteps(x: nat, y: nat)
    requires y < 0x1_0000
    ensures WithPc(PageCtx(x), y) == PageCtx(y) && WithPc(CodeCtx(x), y) == CodeCtx(y)
    ensures Switched(Assembler.START, "_USR_PAGE0", false) == PageCtx(0)
    ensures Switched(PageCtx(129), "_CODE", false) == CodeCtx(0)
  {
    PageNames();
    hide Upper;
    assert WithPc(PageCtx(x), y).locs == PageCtx(y).locs && WithPc(CodeCtx(x), y).locs == CodeCtx(y).locs;
    assert Switched(Assembler.START, "_USR_PAGE0", false).locs == PageCtx(0).locs;
    assert Switched(PageCtx(129), "_CODE", false).locs == CodeCtx(0).locs;
  }

  lemma PageLabel()
    ensures Step1(PageState1(2), FarZeroPage().lines[2]) == Ok(PageState1(3))
  {
    hide Eval, WithPc, Upper, Move1;
    PageNames();
    var t := PageState1(2).(symbols := PAGE_SYMBOLS, symbolAreas := map["X" := "_USR_PAGE0"]);
    assert DefineLabel(PageState1(2), "X") == Ok(t);
    assert Move1(t.ctx, Reserve(Lit(1)), PAGE_SYMBOLS) == Ok(PageCtx(129)) by { PageReserve(); }
  }

  lemma PageReserve()
    ensures Move1(PageCtx(128), Reserve(Lit(1)), PAGE_SYMBOLS) == Ok(PageCtx(129))
  {
    hide Eval, WithPc, Upper;
    PageSteps(128, 129);
    LitIs(1, PAGE_SYMBOLS, true);
  }

  lemma PageLine1(i: nat)
    requires i < 5
    ensures Step1(PageState1(i), FarZeroPage().lines[i]) == Ok(PageState1(i + 1))
  {
    hide Eval, WithPc, Switched, Upper;
    if i == 2 {
      PageLabel();
    } else {
      PageSteps(0, 128);
      PageSteps(0, 1);
      LitIs(128, map[], true);
    }
  }

  lemma PageLine2(i: nat)
    requires i < 5
    ensures Step2(PageState2(i), FarZeroPage().lines[i], PAGE_SYMBOLS, PAGE_INFOS) == Ok(PageState2(i + 1))
  {
    hide Eval, WithPc, Switched, CodeWords, Upper;
    PageSteps(0, 128);
    PageSteps(128, 129);
    LitIs(128, PAGE_SYMBOLS, false);
    LitIs(1, PAGE_SYMBOLS, false);
    if i == 4 { LoadEmits(); }
  }

  /** The operand doubles into a byte, and the doubled 128 leaves nothing of it. */
  lemma LoadEmits()
    ensures CodeWords(PageState2(4), LOAD_X, PAGE_SYMBOLS, PAGE_INFOS) == Ok(PageState2(5))
  {
    hide WithPc, Upper, ForEncode;
    PageNames();
    PageSteps(0, 1);
    var s, infos := PageState2(4), PAGE_INFOS;
    assert Encode(LOAD_X, 0, ForEncode(PAGE_SYMBOLS, infos)) == Ok([0xc080]);
    var t := EmitAll(s, 0, [0xc080]);
    assert t == Pass2State(s.ctx, [EmittedWord(0, 0xc080, "_CODE")], []) by { assert [0xc080][1..] == []; }
    assert MatchStar(Star("X"), infos) == Some(LOAD_RELOC.left);
    assert LOAD_X.args[1..] == [Star("X")] && FirstMatch([Star("X")], infos, true) == Some(LOAD_RELOC.left);
    assert FirstMatch(LOAD_X.args, infos, true) == Some(LOAD_RELOC.left);
    var u := Relocated(t, 0, [0xc080], LOAD_X.args, infos);
    assert u.words == [LOAD_WORD] && u.relocs == [LOAD_RELOC] && u.ctx == s.ctx;
  }

  lemma PageRun()
    ensures var a := FarZeroPage();
      a.Succeeds() && a.Kinds() == PAGE_INFOS && a.Symbols() == PAGE_SYMBOLS && a.Pass2().value == PageState2(5)
    ensures forall i | 0 <= i <= 5 :: FarZeroPage().Before2(i) == PageState2(i)
  {
    hide Step1, Step2, Run1, Run2;
    var a := FarZeroPage();
    var s := seq(6, i requires 0 <= i < 6 => PageState1(i));
    var t := seq(6, i requires 0 <= i < 6 => PageState2(i));
    assert BuildInfos(s[5], {}) == PAGE_INFOS;
    forall i | 0 <= i < 5
      ensures Step1(s[i], a.lines[i]) == Ok(s[i + 1])
      ensures Step2(t[i], a.lines[i], PAGE_SYMBOLS, PAGE_INFOS) == Ok(t[i + 1])
    {
      PageLine1(i);
      PageLine2(i);
    }
    Traced(a, s, t);
  }

  lemma PageIsGood()
    ensures GoodSource(FarZeroPage())
  {
    hide Run1, Run2, GoodLine;
    PageRun();
    var a := FarZeroPage();
    forall i | 0 <= i < |a.lines| ensures GoodLine(a.Before2(i).ctx, a.lines[i].op, a.Symbols(), a.Kinds()) {
      PageLineIsGood(i);
    }
  }

  lemma PageLineIsGood(i: nat)
    requires i < 5
    ensures GoodLine(PageCtxs()[i], FarZeroPage().lines[i].op, PAGE_SYMBOLS, PAGE_INFOS)
  {
    hide Eval, ForEncode;
    LitIs(128, PAGE_SYMBOLS, false);
    LitIs(1, PAGE_SYMBOLS, false);
  }

  lemma PageUsed()
    ensures var c := CodeCtx(1); UsedNames(c, c.order) == ["_USR_PAGE0", "_CODE"]
    ensures CanonicalNames(["_USR_PAGE0", "_CODE"]) == ["_USR_PAGE0", "_CODE"]
  {
    PageNames();
    var c := CodeCtx(1);
    assert c.order[1..] == ["_USR_PAGE0", "_CODE"] && c.order[1..][1..] == ["_CODE"] && c.order[1..][1..][1..] == [];
    assert UsedNames(c, ["_CODE"]) == ["_CODE"];
    assert UsedNames(c, ["_USR_PAGE0", "_CODE"]) == ["_USR_PAGE0", "_CODE"];
  }

  lemma PageModule()
    ensures FarZeroPage().Succeeds()
    ensures var m := ModuleOf(FarZeroPage(), [], []);
      m.words == [LOAD_WORD] && m.relocs == [LOAD_RELOC] && Ready(FarZeroPage(), m) &&
      (forall n :: n in AreaNames(m) <==> n == "_USR_PAGE0" || n == "_CODE") &&
      InfoSize(m.areas, "_USR_PAGE0") == 129 && InfoSize(m.areas, "_CODE") == 1
  {
    hide Run1, Run2, OrderLinkAreaNames, Fits, SymbolOrder, TablesOf, UsedNames, InfoSize, FinalSize, IsNoload,
      AreaNames;
    PageRun();
    PageNames();
    PageUsed();
    NoGlobals(FarZeroPage().Kinds());
    var c, m := CodeCtx(1), ModuleOf(FarZeroPage(), [], []);
    OrderedShorter(["_USR_PAGE0", "_CODE"]);
    FewNames(m);
    NamesOfSnapshot(m, c, ["_USR_PAGE0", "_CODE"]);
    PageSizes();
  }

  lemma PageSizes()
    ensures InfoSize(SnapshotAreas(CodeCtx(1)), "_USR_PAGE0") == 129
    ensures InfoSize(SnapshotAreas(CodeCtx(1)), "_CODE") == 1
  {
    hide SnapshotAreas, InfoSize;
    PageNames();
    SnapshotSize(CodeCtx(1), "_USR_PAGE0");
    SnapshotSize(CodeCtx(1), "_CODE");
  }

  lemma FarZeroPageLinks()
    ensures FarZeroPage().Succeeds()
    ensures var p := OneFile(FarZeroPage(), [], []);
      Built(p) && Placed(p) && TargetsFit(p) && p.ms[0].relocs == [LOAD_RELOC] &&
      (exists bytes :: Linked(bytes, p.rels, p.defs)) &&
      TargetWord(LinkerBases(p.rels, p.defs)[0], p.defs, LOAD_RELOC) == 192
  {
    hide Built, Run1, Run2, GoodSource, Ready, WellFormed, Reads, AreaNames, Linked, RelText, ParsedText,
      InfoSize, ModuleOf, Roomy, WordsApart, LinkerBases;
    PageIsGood();
    PageModule();
    PageNames();
    var p := OneFile(FarZeroPage(), [], []);
    OneFileBuilt(FarZeroPage(), [], []);
    Starts();
    OnlyBase(p, "_USR_PAGE0");
    OnlyBase(p, "_CODE");
    PagePlaced(p);
    assert Landed(p.ms, p.rels, p.defs);
    LinkedImage.SomeImageIsLinked(p.ms, p.rels, p.defs);
  }

  /** In every image the linker can make of this source, the fixup leaves a byte other than the low byte of
      X's word address, which is 192. */
  lemma FarZeroPageIsWrong()
    ensures FarZeroPage().Succeeds()
    ensures var p := OneFile(FarZeroPage(), [], []);
      Built(p) && TargetWord(LinkerBases(p.rels, p.defs)[0], p.defs, LOAD_RELOC) == 192 &&
      (exists bytes :: Linked(bytes, p.rels, p.defs)) &&
      forall bytes | Linked(bytes, p.rels, p.defs) ::
        Get(Fixed(bytes, p.rels, p.defs), FieldAt(p.rels, p.defs, 0, LOAD_RELOC)) != 192
  {
    hide Built, Run1, Run2, Linked, ModuleOf, Placed, Fixed, FieldAt, LinkerBases, TargetsFit, RelText, ParsedText;
    FarZeroPageLinks();
    var p := OneFile(FarZeroPage(), [], []);
    assert LOAD_RELOC in p.ms[0].relocs;
    forall bytes | Linked(bytes, p.rels, p.defs)
      ensures Get(Fixed(bytes, p.rels, p.defs), FieldAt(p.rels, p.defs, 0, LOAD_RELOC)) != 192
    {
      SourcesLinkInWords(p, bytes);
      assert FieldRight(p.ms, p.rels, p.defs, Fixed(bytes, p.rels, p.defs), 0, LOAD_RELOC);
    }
  }

  lemma PagePlaced(p: Project)
    requires Built(p) && |p.ms| == |p.rels| == 1 && p.defs == [] && p.ms[0].words == [LOAD_WORD]
    requires forall n :: n in AreaNames(p.ms[0]) <==> n == "_USR_PAGE0" || n == "_CODE"
    requires forall n | n == "_USR_PAGE0" || n == "_CODE" :: SizeOf(p.rels[0], n) < 0x8000
    ensures Placed(p)
  {
    hide Built, AreaNames, LinkerBases, AreaStart, SizeOf, Share, Upper;
    Starts();
    forall i, a | 0 <= i < |p.ms| && a in AreaNames(p.ms[i]) ensures Roomy(p.rels, p.defs, a) {
    }
  }

  // ----- a split immediate with a global name

  /** `N .equ 20`, declared global, and `AI R0, #N`. */
  function GlobalSplit(): Assembled {
    Assembled([Line(None, Equ("N", Lit(20))), Line(None, Code(ADD_N))], {"N"})
  }

  const ADD_N: Instr := AiSi(0x480, [Ref("R0"), Ref("N")])
  const SPLIT_SYMBOLS: SymbolTable := map["N" := 20]
  const SPLIT_INFOS: Infos := map["N" := SymbolInfo(20, Kind.Global, None)]

  /** The encoder cuts 20 into 15 and 5; the relocation meant for addresses clears the second word, a skip
      of everything `AI` was to add. */
  lemma GlobalSplitIsCleared()
    ensures var a := GlobalSplit();
      a.Succeeds() && Encode(ADD_N, 0, ForEncode(a.Symbols(), a.Kinds())) == Ok([0x480f, 0x4805]) &&
      a.Pass2().value.words == [EmittedWord(0, 0x480f, "_CODE"), EmittedWord(1, 0, "_CODE")]
  {
    hide WithPc, Step1, Step2, Run1, Run2;
    var a := GlobalSplit();
    var s1 := Pass1State(Assembler.START, SPLIT_SYMBOLS, map[]);
    var s2 := s1.(ctx := WithPc(Assembler.START, 2));
    SplitPass1();
    assert BuildInfos(s2, {"N"}) == SPLIT_INFOS;
    SplitEncodes();
    SplitPass2();
    var t2 := Step2(START2, a.lines[1], SPLIT_SYMBOLS, SPLIT_INFOS).value;
    assert Step2(START2, a.lines[0], SPLIT_SYMBOLS, SPLIT_INFOS) == Ok(START2) by { SplitEquIgnored(); }
    Traced(a, [START1, s1, s2], [START2, START2, t2]);
  }

  lemma SplitEquIgnored()
    ensures Step2(START2, GlobalSplit().lines[0], SPLIT_SYMBOLS, SPLIT_INFOS) == Ok(START2)
  {
  }

  lemma StepsOf20()
    ensures Steps(20) == [15, 5]
  {
    assert StepsDown(5) == [5] by { assert StepsDown(0) == []; }
  }

  lemma SplitPass1()
    ensures Step1(START1, GlobalSplit().lines[0]) == Ok(Pass1State(Assembler.START, SPLIT_SYMBOLS, map[]))
    ensures Step1(Pass1State(Assembler.START, SPLIT_SYMBOLS, map[]), GlobalSplit().lines[1]) ==
      Ok(Pass1State(WithPc(Assembler.START, 2), SPLIT_SYMBOLS, map[]))
  {
    hide WithPc, Steps;
    StepsOf20();
    assert Upper("N") == "N";
    assert Eval(Name("N"), SPLIT_SYMBOLS, true) == Ok(20);
  }

  lemma SplitEncodes()
    ensures Encode(ADD_N, 0, ForEncode(SPLIT_SYMBOLS, SPLIT_INFOS)) == Ok([0x480f, 0x4805])
  {
    hide Steps;
    StepsOf20();
    var symbols := ForEncode(SPLIT_SYMBOLS, SPLIT_INFOS);
    assert Eval(Name("N"), symbols, false) == Ok(20);
    var ws := Encode(ADD_N, 0, symbols).value;
    assert |ws| == 2 && ws[0] == 0x480f && ws[1] == 0x4805;
    assert ws == [0x480f, 0x4805];
  }

  lemma SplitPass2()
    ensures Step2(START2, GlobalSplit().lines[1], SPLIT_SYMBOLS, SPLIT_INFOS).Ok?
    ensures Step2(START2, GlobalSplit().lines[1], SPLIT_SYMBOLS, SPLIT_INFOS).value.words ==
      [EmittedWord(0, 0x480f, "_CODE"), EmittedWord(1, 0, "_CODE")]
  {
    hide WithPc, ForEncode, Encode;
    SplitEncodes();
    var ws, infos := [0x480f, 0x4805], SPLIT_INFOS;
    EmitAllWords(START2, 0, ws);
    var t := EmitAll(START2, 0, ws);
    assert t.words == [EmittedWord(0, 0x480f, "_CODE"), EmittedWord(1, 0x4805, "_CODE")];
    assert MatchAbs(Ref("N"), infos) == Some(Symbol("N"));
    assert ADD_N.args[1..] == [Ref("N")] && FirstMatch([Ref("N")], infos, false) == Some(Symbol("N"));
    assert FirstMatch(ADD_N.args, infos, false) == Some(Symbol("N"));
  }

  // ----- an area whose counter was set back

  /** `.area X`, `.dw 1, 2`, `.org 0`. */
  function SetBack(): Assembled {
    Assembled([Line(None, Area("X", false)),
               Line(None, Data([Plain(Lit(1)), Plain(Lit(2))])),
               Line(None, Org(Lit(0)))], {})
  }

  function BackCtx(pc: nat): Ctx {
    Ctx("X", ["", "X"], map["" := Loc(0, false), "X" := Loc(pc, false)])
  }

  const BACK_WORDS: seq<EmittedWord> := [EmittedWord(0, 1, "X"), EmittedWord(1, 2, "X")]

  lemma BackSteps(x: nat, y: nat)
    requires y < 0x1_0000
    ensures WithPc(BackCtx(x), y) == BackCtx(y) && Switched(Assembler.START, "X", false) == BackCtx(0)
    ensures Upper("X") == "X"
  {
    assert Upper("X") == "X";
    hide Upper;
    assert WithPc(BackCtx(x), y).locs == BackCtx(y).locs;
    assert Switched(Assembler.START, "X", false).locs == BackCtx(0).locs;
  }

  lemma BackData()
    ensures DataWords(Pass2State(BackCtx(0), [], []), [Plain(Lit(1)), Plain(Lit(2))], map[], map[]) ==
      Ok(Pass2State(BackCtx(2), BACK_WORDS, []))
  {
    hide Eval, WithPc, Upper;
    BackSteps(0, 1);
    BackSteps(1, 2);
    LitIs(1, map[], false);
    var s, args := Pass2State(BackCtx(0), [], []), [Plain(Lit(1)), Plain(Lit(2))];
    var t := Pass2State(BackCtx(1), [EmittedWord(0, 1, "X")], []);
    assert args[1..] == [Plain(Lit(2))];
    OneDatum(s, 1, map[], map[]);
    assert s.words + [EmittedWord(0, 1, "X")] == t.words;
    OneDatum(t, 2, map[], map[]);
    assert DataWord(s, args[0], map[], map[]) == Ok(t);
    assert t.words + [EmittedWord(1, 2, "X")] == BACK_WORDS;
    hide DataWord;
    assert DataWords(s, args, map[], map[]) == DataWords(t, args[1..], map[], map[]);
  }

  lemma BackRun()
    ensures var a := SetBack();
      a.Succeeds() && a.Pass2().value == Pass2State(BackCtx(0), BACK_WORDS, [])
  {
    hide Eval, WithPc, Switched, DataWords, Upper, Run1, Run2;
    BackSteps(0, 2);
    BackSteps(2, 0);
    BackData();
    LitIs(0, map[], true);
    LitIs(0, map[], false);
    var s := [START1, Pass1State(BackCtx(0), map[], map[]), Pass1State(BackCtx(2), map[], map[]),
              Pass1State(BackCtx(0), map[], map[])];
    var t := [START2, Pass2State(BackCtx(0), [], []), Pass2State(BackCtx(2), BACK_WORDS, []),
              Pass2State(BackCtx(0), BACK_WORDS, [])];
    assert BuildInfos(s[3], {}) == map[];
    Traced(SetBack(), s, t);
  }

  /** The module has two words in an area recorded with size 0; the writer gives it 2 bytes of the 4. */
  lemma SetBackIsCutShort()
    ensures SetBack().Succeeds()
    ensures var m := ModuleOf(SetBack(), [], []);
      m.words == BACK_WORDS && InfoSize(m.areas, "X") == 0 && SizeRel(m, "X") == 2 && !Sizes.SizeCovers(m, "X")
  {
    hide Run1, Run2, OrderLinkAreaNames, InfoSize, WordsOf;
    BackRun();
    BackSteps(0, 0);
    var m := ModuleOf(SetBack(), [], []);
    InfoSizeIs(m.areas, BackCtx(0), "X");
    assert WordsOf(m, "X") == BACK_WORDS by { BackWordsOf(m); }
    assert MaxAddress(BACK_WORDS) == 1 by { assert BACK_WORDS[1..] == [EmittedWord(1, 2, "X")]; }
    Sizes.AreaSizeCovers(m, "X");
  }

  lemma BackWordsOf(m: Module)
    requires m.words == BACK_WORDS
    ensures WordsOf(m, "X") == BACK_WORDS
  {
    BackSteps(0, 0);
    var b := EmittedWord(1, 2, "X");
    assert BACK_WORDS[1..] == [b] && [b][1..] == [];
    assert SelectWords([b], "X") == [b] && SelectWords(BACK_WORDS, "X") == BACK_WORDS;
    assert Sort([b]) == [b] && Insert(BACK_WORDS[0], [b]) == BACK_WORDS;
  }

  // ----- `LI R0, #10/N` on the TMS9995

  const QUOTIENT: Tms9995.Instr<Expr> := Tms9995.RegImm(Tms9995.LI, 0, Bin(Div, Lit(10), Name("N")))

  /** An operand's value in 16 bits. */
  function Operand(symbols: SymbolTable, allowUndefined: bool): Expr -> Option<nat> {
    e => var v := Eval(e, symbols, allowUndefined); if v.Ok? then Some(Low16(v.value)) else None
  }

  /** With `N` not 0 the instruction has its two words, and the first pass divides by zero for its size. */
  lemma DividesByUndefined(n: nat, pc: nat)
    requires 0 < n < 0x1_0000
    ensures Tms9995.Assemble(QUOTIENT, Operand(map["N" := n], false), pc, false) == Some([0x0200, 10 / n])
    ensures Tms9995.InstructionSize(QUOTIENT, Operand(map[], true)) == None
  {
    hide Eval, Tms9995.Assemble, Tms9995.InstructionSize;
    QuotientValues(n);
    Evaluating(Operand(map["N" := n], false), pc);
    Evaluating(Operand(map[], true), pc);
  }

  lemma Evaluating(eval: Expr -> Option<nat>, pc: nat)
    ensures var v := eval(Bin(Div, Lit(10), Name("N")));
      if v.Some? then Tms9995.Assemble(QUOTIENT, eval, pc, false) == Some([0x0200, v.value])
      else Tms9995.InstructionSize(QUOTIENT, eval) == None
  {
    var e := Bin(Div, Lit(10), Name("N"));
    assert Tms9995.ValuesOf(QUOTIENT) == [e] && Tms9995.ValuesOf(QUOTIENT)[0] == e;
    assert Tms9995.Evaluates(QUOTIENT, eval) <==> eval(e).Some?;
  }

  lemma QuotientValues(n: nat)
    requires 0 < n < 0x1_0000
    ensures var e := Bin(Div, Lit(10), Name("N"));
      Eval(e, map["N" := n], false) == Ok(10 / n) && Eval(e, map[], true).Err?
  {
    var ten, name := Lit(10), Name("N");
    var full, none: SymbolTable := map["N" := n], map[];
    assert Eval(ten, full, false) == Ok(10) && Eval(name, full, false) == Ok(n);
    assert Eval(ten, none, true) == Ok(10) && Eval(name, none, true) == Ok(0);
    assert Eval(Bin(Div, ten, name), full, false) == Expression.Apply(Div, 10, n);
  }
}
