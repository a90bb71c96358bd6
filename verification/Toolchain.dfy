/** Assembler, REL writer, linker and fixup together: from source lines to the bytes in memory. */
module Toolchain {
  import opened Results
  import opened Assembly
  import Expression
  import opened Assembler
  import opened TwoPass
  import opened WrittenSymbols
  import opened Globals
  import opened EmittedModules
  import opened RelWriter
  import opened RelParser
  import opened RelRoundTrip
  import opened SdldLink
  import opened AreaBases
  import opened WordAddressLink
  import opened LinkTheorem
  import opened Landing

  /** Sources, the modules and files made of them, and the symbols the linker defined. */
  datatype Project = Project(
    sources: seq<Assembled>, names: seq<string>, ms: seq<Module>, rels: seq<ParsedRel>, defs: Defs)

  /** Every module is what the second pass made of its source, and every file what the writer made of
      its module. */
  ghost predicate Built(p: Project) {
    |p.sources| == |p.ms| && Files(p.ms, p.names, p.rels) &&
    forall i | 0 <= i < |p.ms| :: Delivered(p.sources[i], p.ms[i])
  }

  ghost predicate Delivered(a: Assembled, m: Module) {
    GoodSource(a) && m == ModuleOf(a, m.globals, m.checkpoints) && Lists(m.globals, a.Kinds()) && Fits(TablesOf(m))
  }

  /** The writer writes the module of a good source exactly when relocations against `_CODE` find that area. */
  lemma SourceIsWritten(a: Assembled, m: Module, name: string)
    requires Delivered(a, m)
    ensures RelText(m, name).Ok? <==> CodeResolves(m)
    ensures RelText(m, name).Ok? <==> WellFormed(m)
  {
    hide GoodSource, ModuleOf, Lists, Fits, RelText, AreaNames, SymbolOrder, NoClash, Sits, DistinctSlots, InfoSize,
      GoodReloc;
    EmittedSits(a, m.globals, m.checkpoints);
    EmittedIsWellFormed(a, m.globals, m.checkpoints);
    WriterAcceptsIff(m, name);
    if RelText(m, name).Ok? {
      forall r | r in m.relocs && r.left.Word? && r.left.area == Some("_CODE") ensures "_CODE" in AreaNames(m) {
        CodeIsCanonical();
        assert RelocItem(r, 0, TablesOf(m)).Some?;
      }
    } else {
      assert !WellFormed(m) by { if WellFormed(m) { WriterAccepts(m, name); } }
    }
  }

  /** The modules of a project that could be written are well formed. */
  lemma BuiltIsWellFormed(p: Project, i: nat)
    requires Built(p) && i < |p.ms|
    ensures |p.rels| == |p.ms| == |p.names| && WellFormed(p.ms[i]) && Reads(p.rels[i], p.ms[i])
  {
    hide Delivered, WellFormed, RelText, ParsedText, Reads;
    assert Delivered(p.sources[i], p.ms[i]);
    SourceIsWritten(p.sources[i], p.ms[i], p.names[i]);
    WrittenAndRead(p.ms[i], p.names[i]);
  }

  /** The linker gave every area an even base and room below 64K, and no two words of different areas, or
      of the vectors in different modules, one place. */
  ghost predicate Placed(p: Project)
    requires Built(p)
  {
    (forall i, a | 0 <= i < |p.ms| && a in AreaNames(p.ms[i]) :: Roomy(p.rels, p.defs, a)) &&
    WordsApart(p.ms, p.rels, p.defs)
  }

  /** A placed project's areas are placed. */
  lemma PlacedProject(p: Project)
    requires Built(p) && Placed(p)
    ensures AllPlaced(p.ms, p.rels, LinkerBases(p.rels, p.defs))
  {
    hide Delivered, WellFormed, Roomy, WordsApart, AreaNames, LinkerBases, RelText, ParsedText, Reads, AllPlaced;
    forall i | 0 <= i < |p.ms| ensures WellFormed(p.ms[i]) && Reads(p.rels[i], p.ms[i]) { BuiltIsWellFormed(p, i); }
    LandedIsPlaced(p.ms, p.rels, p.defs);
  }

  /** Every target lies below 64K. */
  ghost predicate TargetsFit(p: Project)
    requires Built(p)
  {
    forall i: nat, r | i < |p.ms| && r in p.ms[i].relocs :: TargetFits(LinkerBases(p.rels, p.defs)[i], p.defs, r)
  }

  /** From sources to memory: the assembled modules, written, linked in bytes and fixed up, are linked in
      words. */
  lemma SourcesLinkInWords(p: Project, bytes: ByteMap)
    requires Built(p) && Placed(p) && Linked(bytes, p.rels, p.defs) && TargetsFit(p)
    ensures forall i: nat, r | i < |p.ms| && r in p.ms[i].relocs ::
      FieldRight(p.ms, p.rels, p.defs, Fixed(bytes, p.rels, p.defs), i, r)
    ensures forall x | !InField(p.ms, p.rels, p.defs, x) :: Get(Fixed(bytes, p.rels, p.defs), x) == Get(bytes, x)
  {
    hide Delivered, WellFormed, Roomy, WordsApart, AreaNames, Linked, TargetFits, FieldRight, InField, LinkerBases,
      Fixed, RelText, ParsedText;
    forall i | 0 <= i < |p.ms| ensures WellFormed(p.ms[i]) { BuiltIsWellFormed(p, i); }
    LinkedInWords(p.ms, p.names, p.rels, p.defs, bytes);
  }

  /** A relocation against an area offset stands for a local label. */
  lemma OffsetIsLabel(a: Assembled, m: Module, r: Reloc)
    requires Delivered(a, m) && r in m.relocs && r.left.Word?
    ensures exists n :: Names(r.left, a.Kinds(), n)
  {
    hide Run1, Run2, GoodLine, OneCode, NoClash, DistinctSlots, Keys, BuildInfos, Lists, Fits;
    WholeEmission(a);
    assert GoodReloc(r, a.Kinds());
  }

  /** Line `k` of the source defines the label for good: no later `.equ` overwrites it. */
  ghost predicate Defines(a: Assembled, k: nat, n: string) {
    k < |a.lines| && a.lines[k].labelName.Some? && !a.lines[k].op.Equ? && Upper(a.lines[k].labelName.value) == n &&
    forall j | k < j < |a.lines| :: !Sets(a.lines[j], n)
  }

  /** Where a 16-bit reference to a local label is patched, memory holds the word base of the label's area
      plus the address at which the second pass stood when it came to the label's line. */
  lemma ReferenceReachesLine(p: Project, bytes: ByteMap, i: nat, r: Reloc, n: string, k: nat)
    requires Built(p) && Placed(p) && Linked(bytes, p.rels, p.defs) && TargetsFit(p)
    requires i < |p.ms| && r in p.ms[i].relocs && r.width.Word16? && Names(r.left, p.sources[i].Kinds(), n)
    requires Defines(p.sources[i], k, n)
    requires forall j | 0 <= j < |p.sources[i].lines| ::
      SizingAgrees(p.sources[i].lines[j].op, p.sources[i].Early(j), p.sources[i].Symbols(), p.sources[i].Kinds())
    ensures Read16(Fixed(bytes, p.rels, p.defs), FieldAt(p.rels, p.defs, i, r)) ==
      TargetBase(LinkerBases(p.rels, p.defs)[i], p.defs, r) / 2 + Pc(p.sources[i].Before2(k).ctx)
  {
    hide Built, Placed, Linked, TargetsFit, Run1, Run2, Fixed, LinkerBases, TargetBase, FieldAt, Read16, SizingAgrees,
      Delivered, Pc, Defines;
    FromSource(p, i);
    FieldHolds(p, bytes, i, r);
    LabelAt(p.sources[i], k, n);
  }

  /** A 16-bit field of the fixed image holds its target's word address. */
  lemma FieldHolds(p: Project, bytes: ByteMap, i: nat, r: Reloc)
    requires Built(p) && Placed(p) && Linked(bytes, p.rels, p.defs) && TargetsFit(p)
    requires i < |p.ms| && r in p.ms[i].relocs && r.width.Word16?
    ensures i < |p.rels| && Read16(Fixed(bytes, p.rels, p.defs), FieldAt(p.rels, p.defs, i, r)) ==
      TargetWord(LinkerBases(p.rels, p.defs)[i], p.defs, r)
  {
    hide Built, Placed, Linked, TargetsFit, Fixed, LinkerBases, FieldAt, Read16, Delivered, TargetWord;
    FromSource(p, i);
    SourcesLinkInWords(p, bytes);
    assert FieldRight(p.ms, p.rels, p.defs, Fixed(bytes, p.rels, p.defs), i, r);
  }

  lemma FromSource(p: Project, i: nat)
    requires Built(p) && i < |p.ms|
    ensures |p.sources| == |p.ms| == |p.rels| && Delivered(p.sources[i], p.ms[i]) && p.sources[i].Succeeds()
  {
    hide Lists, Fits, ModuleOf, GoodLine, OneCode;
    assert Delivered(p.sources[i], p.ms[i]);
  }

  /** A label's recorded value is the address at which the second pass reaches its line. */
  lemma LabelAt(a: Assembled, k: nat, n: string)
    requires a.Succeeds() && Defines(a, k, n)
    requires forall j | 0 <= j < |a.lines| :: SizingAgrees(a.lines[j].op, a.Early(j), a.Symbols(), a.Kinds())
    ensures k < |a.lines| && n in a.Kinds() && a.Kinds()[n].value == Pc(a.Before2(k).ctx) < 0x1_0000
  {
    hide Run1, Run2, SizingAgrees, Sets;
    LabelsAreEmissionAddresses(a, k);
    SmallCounter(a, k);
  }

  /** A counter of the second pass is a 16-bit number. */
  lemma SmallCounter(a: Assembled, k: nat)
    requires a.Succeeds() && k <= |a.lines|
    requires forall j | 0 <= j < |a.lines| :: SizingAgrees(a.lines[j].op, a.Early(j), a.Symbols(), a.Kinds())
    ensures Pc(a.Before2(k).ctx) < 0x1_0000
  {
    hide Run1, Run2, SizingAgrees;
    AgreeIffUpto(a, k);
  }

  // ----- symbols of other modules

  /** The file of module `j`. */
  function TextOf(p: Project, j: nat): seq<RelLine>
    requires j < |p.ms| && j < |p.names|
  {
    var text := RelText(p.ms[j], p.names[j]);
    if text.Ok? then text.value else []
  }

  /** The linker's map tells of every definition in every file: the value of its S line, counted from where the
      linker put that module's part of the area whose A line comes before it. */
  ghost predicate DefsTold(p: Project)
    requires Built(p)
  {
    forall j, area, name, v |
      0 <= j < |p.ms| && (Some(area), SLine(name, true, v)) in Symbols(TextOf(p, j), None) ::
      area in p.rels[j].areas && DefLookup(p.defs, name) == Some(PartStart(p.rels, p.defs, j, area) + v)
  }

  /** So it tells of every global. */
  lemma GlobalTold(p: Project, j: nat, g: Global)
    requires Built(p) && DefsTold(p) && j < |p.ms| && g in p.ms[j].globals && g.def
    ensures var area := CanonicalAreaName(g.area);
      |p.rels| == |p.ms| && area in LinkerBases(p.rels, p.defs)[j] &&
      DefLookup(p.defs, SdldSymName(g.name)) == Some(LinkerBases(p.rels, p.defs)[j][area] + 2 * g.value % 0x1_0000)
  {
    hide Delivered, RelText, ParsedText, DefLookup, CanonicalAreaName, SdldSymName, PartStart, Symbols;
    var m, text := p.ms[j], TextOf(p, j);
    assert Delivered(p.sources[j], m);
    MnSource(p.sources[j], m);
    SymbolsWritten(m, p.names[j]);
    var i :| 0 <= i < |m.globals| && m.globals[i] == g;
    var e := GlobalEntries(m.globals, false)[i];
    assert e in multiset(GlobalEntries(m.globals, false));
    assert e in multiset(Symbols(text, None));
    assert e == (Some(CanonicalAreaName(g.area)), SLine(SdldSymName(g.name), true, 2 * g.value % 0x1_0000));
  }

  lemma MnSource(a: Assembled, m: Module)
    requires Delivered(a, m)
    ensures !m.byteAddrs
  {
    hide GoodSource, Lists, Fits;
  }

  /** The base of a module's area is even. */
  lemma EvenBase(p: Project, j: nat, area: string)
    requires Built(p) && Placed(p) && j < |p.ms| && area in AreaNames(p.ms[j])
    ensures area in LinkerBases(p.rels, p.defs)[j] && LinkerBases(p.rels, p.defs)[j][area] % 2 == 0
  {
    hide Delivered, WellFormed, Roomy, WordsApart, AreaNames, LinkerBases, RelText, ParsedText, Reads;
    forall i | 0 <= i < |p.ms| ensures WellFormed(p.ms[i]) && Reads(p.rels[i], p.ms[i]) { BuiltIsWellFormed(p, i); }
    AreaHasRoom(p.ms, p.rels, p.defs, j, area);
  }

  /** The counter of a good source stays in the lower half of the word address space. */
  lemma LowCounter(a: Assembled, k: nat)
    requires GoodSource(a) && k < |a.lines|
    ensures Pc(a.Before2(k).ctx) < 0x8000
  {
    hide Run1, Run2, OneCode, PatchesOperand, NextPc;
    assert GoodLine(a.Before2(k).ctx, a.lines[k].op, a.Symbols(), a.Kinds());
  }

  /** A defined global stands in the table as global, and its entry is made of that. */
  lemma ListedGlobal(a: Assembled, m: Module, g: Global)
    requires Delivered(a, m) && g in m.globals && g.def
    ensures g.name in a.Kinds() && a.Kinds()[g.name].kind == Kind.Global && g == Entry(g.name, a.Kinds()[g.name])
  {
    hide GoodSource, ModuleOf, Fits, Entry;
    assert IsEntry(g, g.name, a.Kinds());
    EntryDefines(g.name, a.Kinds()[g.name]);
  }

  lemma EntryDefines(n: string, info: SymbolInfo)
    requires info.kind != Local
    ensures Entry(n, info).def <==> info.kind == Kind.Global
  {
  }

  /** Where a 16-bit reference to a global label is patched, memory holds the word base of the label's area in
      the module that defines it plus the address at which that module's second pass came to the label's line. */
  lemma GlobalReferenceReachesLine(p: Project, bytes: ByteMap, i: nat, r: Reloc, j: nat, g: Global, k: nat)
    requires Built(p) && Placed(p) && Linked(bytes, p.rels, p.defs) && TargetsFit(p) && DefsTold(p)
    requires i < |p.ms| && r in p.ms[i].relocs && r.width.Word16? && r.left == Symbol(g.name)
    requires j < |p.ms| && g in p.ms[j].globals && g.def
    requires Defines(p.sources[j], k, g.name)
    requires forall q | 0 <= q < |p.sources[j].lines| ::
      SizingAgrees(p.sources[j].lines[q].op, p.sources[j].Early(q), p.sources[j].Symbols(), p.sources[j].Kinds())
    ensures CanonicalAreaName(g.area) in LinkerBases(p.rels, p.defs)[j]
    ensures Read16(Fixed(bytes, p.rels, p.defs), FieldAt(p.rels, p.defs, i, r)) ==
      LinkerBases(p.rels, p.defs)[j][CanonicalAreaName(g.area)] / 2 + Pc(p.sources[j].Before2(k).ctx)
  {
    hide Built, Placed, Linked, TargetsFit, DefsTold, Run1, Run2, Fixed, LinkerBases, FieldAt, Read16, SizingAgrees,
      Delivered, Pc, AreaNames, CanonicalAreaName, Defines, TargetWord, BuildInfos, GoodSource;
    FromSource(p, j);
    LabelAt(p.sources[j], k, g.name);
    ListedGlobal(p.sources[j], p.ms[j], g);
    DeliveredIsGood(p.sources[j], p.ms[j]);
    LowCounter(p.sources[j], k);
    GlobalReference(p, bytes, i, r, j, g);
  }

  /** A 16-bit reference to a global: the word base of the area its definition is given plus its value, cut to
      15 bits. */
  lemma GlobalReference(p: Project, bytes: ByteMap, i: nat, r: Reloc, j: nat, g: Global)
    requires Built(p) && Placed(p) && Linked(bytes, p.rels, p.defs) && TargetsFit(p) && DefsTold(p)
    requires i < |p.ms| && r in p.ms[i].relocs && r.width.Word16? && r.left == Symbol(g.name)
    requires j < |p.ms| && g in p.ms[j].globals && g.def
    ensures CanonicalAreaName(g.area) in LinkerBases(p.rels, p.defs)[j]
    ensures LinkerBases(p.rels, p.defs)[j][CanonicalAreaName(g.area)] + 2 * (g.value % 0x8000) < 0x1_0000
    ensures LinkerBases(p.rels, p.defs)[j][CanonicalAreaName(g.area)] % 2 == 0
    ensures Read16(Fixed(bytes, p.rels, p.defs), FieldAt(p.rels, p.defs, i, r)) ==
      LinkerBases(p.rels, p.defs)[j][CanonicalAreaName(g.area)] / 2 + g.value % 0x8000
  {
    hide Built, Placed, Linked, TargetsFit, DefsTold, Fixed, LinkerBases, FieldAt, Read16, AreaNames, CanonicalAreaName,
      TargetWord;
    FromSource(p, i);
    FieldHolds(p, bytes, i, r);
    GlobalAreaNamed(p.ms[j], g);
    EvenBase(p, j, CanonicalAreaName(g.area));
    SymbolFits(p, i, r);
    TargetOfGlobal(p, i, r, j, g);
  }

  lemma SymbolFits(p: Project, i: nat, r: Reloc)
    requires Built(p) && TargetsFit(p) && i < |p.ms| && r in p.ms[i].relocs && r.left.Symbol?
    ensures SymbolValue(p.defs, SdldSymName(r.left.name)) < 0x1_0000
  {
    hide Built, LinkerBases, Linked;
    FromSource(p, i);
    assert TargetFits(LinkerBases(p.rels, p.defs)[i], p.defs, r);
  }

  lemma DeliveredIsGood(a: Assembled, m: Module)
    requires Delivered(a, m)
    ensures GoodSource(a)
  {
    hide GoodLine, OneCode, Lists, Fits;
  }

  lemma TargetOfGlobal(p: Project, i: nat, r: Reloc, j: nat, g: Global)
    requires Built(p) && DefsTold(p) && i < |p.rels| && j < |p.ms| && r.left == Symbol(g.name)
    requires g in p.ms[j].globals && g.def
    ensures |p.rels| == |p.ms| && CanonicalAreaName(g.area) in LinkerBases(p.rels, p.defs)[j]
    ensures var base := LinkerBases(p.rels, p.defs)[j][CanonicalAreaName(g.area)];
      SymbolValue(p.defs, SdldSymName(g.name)) == base + 2 * (g.value % 0x8000) &&
      (base % 2 == 0 ==> TargetWord(LinkerBases(p.rels, p.defs)[i], p.defs, r) == base / 2 + g.value % 0x8000)
  {
    hide Built, DefsTold, LinkerBases, CanonicalAreaName, DefLookup;
    GlobalTold(p, j, g);
    DoubledUnits(g.value);
  }

  lemma DoubledUnits(v: nat)
    ensures 2 * v % 0x1_0000 == 2 * (v % 0x8000)
  {
  }

  /** A global `.equ` has no area, so the writer gives it `_CODE` and the linker adds that area's base: a
      16-bit reference to it holds its value exactly when the defining module's part of `_CODE` starts at 0
      and the value is below 8000h. */
  lemma GlobalConstantMoves(p: Project, bytes: ByteMap, i: nat, r: Reloc, j: nat, g: Global)
    requires Built(p) && Placed(p) && Linked(bytes, p.rels, p.defs) && TargetsFit(p) && DefsTold(p)
    requires i < |p.ms| && r in p.ms[i].relocs && r.width.Word16? && r.left == Symbol(g.name)
    requires j < |p.ms| && g in p.ms[j].globals && g.def && g.name in p.sources[j].Kinds()
    requires p.sources[j].Kinds()[g.name].area == None
    ensures "_CODE" in LinkerBases(p.rels, p.defs)[j]
    ensures var value := Expression.Low16(p.sources[j].Kinds()[g.name].value);
      var base, found := LinkerBases(p.rels, p.defs)[j]["_CODE"],
                         Read16(Fixed(bytes, p.rels, p.defs), FieldAt(p.rels, p.defs, i, r));
      found == base / 2 + value % 0x8000 && (found == value <==> base == 0 && value < 0x8000)
  {
    hide Built, Placed, Linked, TargetsFit, DefsTold, Fixed, LinkerBases, FieldAt, Read16, Delivered, BuildInfos;
    FromSource(p, j);
    ListedGlobal(p.sources[j], p.ms[j], g);
    CodeIsCanonical();
    GlobalReference(p, bytes, i, r, j, g);
  }
}
