/** From a source line to memory: what is found where `.dw X` or a two-word instruction names a label. */
module SourceLines {
  import opened Results
  import opened Assembly
  import opened Assembler
  import opened TwoPass
  import opened LabelAreas
  import opened EmittedModules
  import opened EmittedLines
  import opened RelWriter
  import opened RelRoundTrip
  import opened SdldLink
  import opened AreaBases
  import opened WordAddressLink
  import opened LinkTheorem
  import opened FreeWords
  import opened Toolchain

  /** The canonical name of the area the second pass is in at line `q`. */
  function AreaAt(a: Assembled, q: nat): string
    requires q < |a.lines|
  {
    CanonicalAreaName(a.Before2(q).ctx.current)
  }

  /** Both passes see the same sizes. */
  ghost predicate Agree(a: Assembled) {
    forall j | 0 <= j < |a.lines| :: SizingAgrees(a.lines[j].op, a.Early(j), a.Symbols(), a.Kinds())
  }

  /** Line `k` defines the local label `n`: its place. */
  lemma LabelPlace(a: Assembled, k: nat, n: string)
    requires GoodSource(a) && Defines(a, k, n) && Agree(a)
    ensures k < |a.lines| && n in a.Kinds() && n in a.Symbols() && a.Kinds()[n].area == Some(AreaAt(a, k))
    ensures a.Kinds()[n].value == a.Symbols()[n] == Pc(a.Before2(k).ctx) < 0x8000
  {
    hide Run1, Run2, SizingAgrees, Sets, GoodLine, OneCode, BuildInfos, CanonicalAreaName;
    LabelAt(a, k, n);
    LabelArea(a, k);
    LowCounter(a, k);
    LabelsAreEmissionAddresses(a, k);
  }

  /** What a lone name asks for. */
  lemma Asked(a: Assembled, n: string) returns (m: Option<Operand>)
    requires n in a.Kinds() && a.Kinds()[n].kind == Local && a.Kinds()[n].area.Some?
    ensures m == MatchAbs(Ref(n), a.Kinds())
    ensures var area := a.Kinds()[n].area.value;
      if RelocatableArea(area) then
        m.Some? && Names(m.value, a.Kinds(), n) && m.value.Word? && m.value.area == Some(area)
      else m == None
  {
    hide BuildInfos, RelocatableArea;
    m := MatchAbs(Ref(n), a.Kinds());
  }

  /** The address, inside its area, of word `d` of line `q`. */
  function AddressAt(a: Assembled, q: nat, d: nat): nat
    requires q < |a.lines|
  {
    Pc(a.Before2(q).ctx) + d
  }

  /** The relocation a line asks for is in the module, on the word the line emits. */
  lemma EmittedReloc(a: Assembled, m: Module, q: nat, d: nat, n: string, left: Operand) returns (r: Reloc)
    requires Delivered(a, m) && q < |a.lines| && Holds(a.lines[q].op, d, n) && MatchAbs(Ref(n), a.Kinds()) == Some(left)
    ensures r in m.relocs && r.left == left && r.width.Word16?
    ensures RelocArea(r) == AreaAt(a, q) && Slot(r) == AddressAt(a, q, d)
  {
    hide CanonicalAreaName, Pc, MatchAbs, Holds, GoodSource, Slot, Delivered, Run1, Run2, BuildInfos;
    DeliveredIsGood(a, m);
    InModule(a, m);
    OperandInModule(a, q, d, n);
    r := Reloc(AddressAt(a, q, d) * 2, left, Const(0), Some(AreaAt(a, q)), Word16);
    CanonicalTwice(a.Before2(q).ctx.current);
    SlotOf(r, AddressAt(a, q, d));
  }

  /** A word of a line that asks for no relocation is in the module, and free. */
  lemma EmittedWord(a: Assembled, m: Module, q: nat, d: nat, n: string) returns (w: Assembly.EmittedWord)
    requires Delivered(a, m) && q < |a.lines| && Holds(a.lines[q].op, d, n) && MatchAbs(Ref(n), a.Kinds()) == None
    ensures w in m.words && Free(m, w) && w.value == ValueOf(a.Symbols(), n)
    ensures CanonicalAreaName(w.area) == AreaAt(a, q) && w.address == AddressAt(a, q, d)
  {
    hide CanonicalAreaName, Pc, MatchAbs, Holds, GoodSource, Slot, Delivered, Run1, Run2, BuildInfos, ValueOf,
      RelocArea;
    DeliveredIsGood(a, m);
    InModule(a, m);
    OperandInModule(a, q, d, n);
    w := Assembly.EmittedWord(AddressAt(a, q, d), ValueOf(a.Symbols(), n), AreaAt(a, q));
    CanonicalTwice(a.Before2(q).ctx.current);
    forall r | r in m.relocs ensures RelocArea(r) != CanonicalAreaName(w.area) || Slot(r) != w.address {
      assert !OnWord(r, w);
    }
  }

  /** Where the relocation's field lies. */
  lemma RelocLies(p: Project, i: nat, r: Reloc)
    requires Built(p) && Placed(p) && i < |p.ms| && r in p.ms[i].relocs && r.width.Word16?
    ensures i < |p.rels| && RelocArea(r) in LinkerBases(p.rels, p.defs)[i]
    ensures FieldAt(p.rels, p.defs, i, r) == LinkerBases(p.rels, p.defs)[i][RelocArea(r)] + 2 * Slot(r)
  {
    hide Built, Placed, LinkerBases, ModulePlaced, ModulesApart, FieldAt, RelocArea, Slot;
    PlacedProject(p);
    var w := WordOfField(p.ms, p.rels, p.defs, i, r);
  }

  /** A free word stands in memory as emitted. */
  lemma WordLies(p: Project, bytes: ByteMap, i: nat, w: Assembly.EmittedWord)
    requires Built(p) && Placed(p) && Linked(bytes, p.rels, p.defs)
    requires i < |p.ms| && w in p.ms[i].words && Free(p.ms[i], w)
    ensures i < |p.rels| && CanonicalAreaName(w.area) in LinkerBases(p.rels, p.defs)[i]
    ensures Read16(Fixed(bytes, p.rels, p.defs),
                   LinkerBases(p.rels, p.defs)[i][CanonicalAreaName(w.area)] + 2 * w.address) == w.value
  {
    hide Built, Placed, LinkerBases, ModulePlaced, ModulesApart, Linked, Fixed, Free, CanonicalAreaName, Read16;
    PlacedProject(p);
    FreeWord(p.ms, p.rels, p.defs, bytes, i, w);
  }

  lemma SlotOf(r: Reloc, address: nat)
    requires r.byteAddr == address * 2
    ensures Slot(r) == address
  {
  }

  lemma InModule(a: Assembled, m: Module)
    requires Delivered(a, m)
    ensures a.Succeeds() && m.words == a.Pass2().value.words && m.relocs == a.Pass2().value.relocs
  {
    hide Run1, Run2, GoodLine, OneCode;
  }

  lemma LocalKind(a: Assembled, n: string)
    requires n in a.Kinds() && n in a.Symbols() && n !in a.globl
    ensures a.Kinds()[n].kind == Local
  {
  }

  lemma PlainValue(a: Assembled, n: string)
    requires n in a.Symbols() && 0 <= a.Symbols()[n] < 0x1_0000
    ensures ValueOf(a.Symbols(), n) == a.Symbols()[n]
  {
  }

  /** The area of the target has a base, because the relocation could be written. */
  lemma LabelBase(p: Project, i: nat, k: nat, n: string, r: Reloc)
    requires Built(p) && Placed(p) && i < |p.ms| && k < |p.sources[i].lines| && r in p.ms[i].relocs
    requires r.left.Word? && r.left.area == Some(AreaAt(p.sources[i], k))
    ensures AreaAt(p.sources[i], k) in LinkerBases(p.rels, p.defs)[i]
    ensures TargetBase(LinkerBases(p.rels, p.defs)[i], p.defs, r) ==
      LinkerBases(p.rels, p.defs)[i][AreaAt(p.sources[i], k)]
  {
    hide Built, Placed, LinkerBases, WellFormed, Reads, AreaNames, Resolvable, CanonicalAreaName;
    FromSource(p, i);
    BuiltIsWellFormed(p, i);
    CanonicalTwice(p.sources[i].Before2(k).ctx.current);
    TargetNamed(p.ms[i], r);
    EvenBase(p, i, AreaAt(p.sources[i], k));
  }

  lemma TargetNamed(m: Module, r: Reloc)
    requires WellFormed(m) && r in m.relocs && r.left.Word?
    ensures r.left.area.Some? && CanonicalAreaName(r.left.area.value) in AreaNames(m)
  {
    hide AreaNames, Sits, NoClash, Fits, InfoSize;
    assert Resolvable(m, r);
  }

  /** An area other than `_CODE` that holds a label has a base. */
  lemma OtherBase(p: Project, i: nat, k: nat, n: string)
    requires Built(p) && Placed(p) && i < |p.ms| && k < |p.sources[i].lines| && AreaAt(p.sources[i], k) != "_CODE"
    requires n in p.sources[i].Kinds() && p.sources[i].Kinds()[n].area == Some(AreaAt(p.sources[i], k))
    ensures AreaAt(p.sources[i], k) in LinkerBases(p.rels, p.defs)[i]
    ensures LinkerBases(p.rels, p.defs)[i][AreaAt(p.sources[i], k)] % 2 == 0
  {
    hide Built, Placed, LinkerBases, AreaNames, AreaAt, GoodSource;
    FromSource(p, i);
    DeliveredIsGood(p.sources[i], p.ms[i]);
    RecordedAreas(p.sources[i], p.ms[i]);
    LabelAreaNamed(p.sources[i], p.ms[i], n);
    EvenBase(p, i, AreaAt(p.sources[i], k));
  }

  lemma RecordedAreas(a: Assembled, m: Module)
    requires Delivered(a, m)
    ensures a.Succeeds() && m.areas == SnapshotAreas(a.Pass2().value.ctx)
  {
    hide Run1, Run2, GoodLine, OneCode, SnapshotAreas;
  }

  /** The areas whose labels are relocated. */
  const RELOCATED: set<string> := {"_CODE", "_DATA", "_WORK", "_SYS_PAGE0", "_USR_PAGE0"}

  lemma RelocatedAreas(area: string)
    ensures RelocatableArea(area) <==> area in RELOCATED
  {
  }

  /** Word `d` of line `q` names the local label that line `k` defines. */
  ghost predicate NamesLabel(a: Assembled, q: nat, d: nat, n: string, k: nat) {
    q < |a.lines| && k < |a.lines| && Holds(a.lines[q].op, d, n) && Defines(a, k, n) && n !in a.globl && Agree(a)
  }

  /** The base of an area in a module, if it has one. */
  function BaseOf(p: Project, i: nat, area: string): Option<nat> {
    if i < |p.rels| && area in LinkerBases(p.rels, p.defs)[i] then Some(LinkerBases(p.rels, p.defs)[i][area]) else None
  }

  /** A line's word that names a local label.  If the label lies in a relocatable area, memory holds there the
      word base of that area plus the address at which the second pass came to the label's line.  In any other
      area it holds that address alone, which is the label's place exactly when the area starts at 0. */
  lemma LineReaches(p: Project, bytes: ByteMap, i: nat, q: nat, d: nat, n: string, k: nat)
    requires Built(p) && Placed(p) && Linked(bytes, p.rels, p.defs) && TargetsFit(p)
    requires i < |p.ms| && i < |p.sources| && NamesLabel(p.sources[i], q, d, n, k)
    ensures var a := p.sources[i];
      var here, there := BaseOf(p, i, AreaAt(a, q)), BaseOf(p, i, AreaAt(a, k));
      here.Some? && there.Some? &&
      var found := Read16(Fixed(bytes, p.rels, p.defs), here.value + 2 * AddressAt(a, q, d));
      var place := there.value / 2 + AddressAt(a, k, 0);
      if AreaAt(a, k) in RELOCATED then found == place
      else found == AddressAt(a, k, 0) && (found == place <==> there.value == 0)
  {
    hide Built, Placed, TargetsFit, LinkerBases, Linked, Fixed, Read16, Pc, Holds, FieldAt, TargetBase, GoodSource,
      Agree, Defines, ValueOf, MatchAbs, BuildInfos, AreaAt, Delivered, RelocatableArea;
    var a := p.sources[i];
    FromSource(p, i);
    DeliveredIsGood(a, p.ms[i]);
    LabelPlace(a, k, n);
    RelocatedAreas(AreaAt(a, k));
    if RelocatableArea(AreaAt(a, k)) {
      LineReachesMoved(p, bytes, i, q, d, n, k);
    } else {
      LineReachesFixed(p, bytes, i, q, d, n, k);
    }
  }

  lemma LineReachesMoved(p: Project, bytes: ByteMap, i: nat, q: nat, d: nat, n: string, k: nat)
    requires Built(p) && Placed(p) && Linked(bytes, p.rels, p.defs) && TargetsFit(p)
    requires i < |p.ms| && i < |p.sources| && NamesLabel(p.sources[i], q, d, n, k)
    requires RelocatableArea(AreaAt(p.sources[i], k))
    ensures var a := p.sources[i];
      var here, there := BaseOf(p, i, AreaAt(a, q)), BaseOf(p, i, AreaAt(a, k));
      here.Some? && there.Some? &&
      Read16(Fixed(bytes, p.rels, p.defs), here.value + 2 * AddressAt(a, q, d)) ==
      there.value / 2 + AddressAt(a, k, 0)
  {
    hide Built, Placed, TargetsFit, LinkerBases, Linked, Fixed, Read16, Pc, Holds, FieldAt, TargetBase, GoodSource,
      SizingAgrees, Defines, MatchAbs, BuildInfos, AreaAt, Delivered, RelocatableArea, RelocArea, Slot, Run1, Run2,
      Names;
    var a := p.sources[i];
    FromSource(p, i);
    DeliveredIsGood(a, p.ms[i]);
    LabelPlace(a, k, n);
    LocalKind(a, n);
    var m := Asked(a, n);
    var r := EmittedReloc(a, p.ms[i], q, d, n, m.value);
    RelocLies(p, i, r);
    LabelBase(p, i, k, n, r);
    ReferenceReachesLine(p, bytes, i, r, n, k);
  }

  lemma LineReachesFixed(p: Project, bytes: ByteMap, i: nat, q: nat, d: nat, n: string, k: nat)
    requires Built(p) && Placed(p) && Linked(bytes, p.rels, p.defs)
    requires i < |p.ms| && i < |p.sources| && NamesLabel(p.sources[i], q, d, n, k)
    requires !RelocatableArea(AreaAt(p.sources[i], k))
    ensures var a := p.sources[i];
      var here, there := BaseOf(p, i, AreaAt(a, q)), BaseOf(p, i, AreaAt(a, k));
      here.Some? && there.Some? && there.value % 2 == 0 &&
      Read16(Fixed(bytes, p.rels, p.defs), here.value + 2 * AddressAt(a, q, d)) == AddressAt(a, k, 0)
  {
    hide Built, Placed, LinkerBases, Linked, Fixed, Read16, Pc, Holds, GoodSource, Agree, Defines, ValueOf, MatchAbs,
      BuildInfos, AreaAt, Delivered, CanonicalAreaName, Run1, Run2;
    var a := p.sources[i];
    FromSource(p, i);
    DeliveredIsGood(a, p.ms[i]);
    LabelPlace(a, k, n);
    LocalKind(a, n);
    var m := Asked(a, n);
    var w := EmittedWord(a, p.ms[i], q, d, n);
    WordLies(p, bytes, i, w);
    OtherBase(p, i, k, n);
    PlainValue(a, n);
  }

  /** A line's word that names a global or external symbol `j` defines: the word base of the area the definition
      is given in that module, plus its value in 15 bits. */
  lemma LineReachesGlobal(p: Project, bytes: ByteMap, i: nat, q: nat, d: nat, n: string, j: nat, g: Global)
    requires Built(p) && Placed(p) && Linked(bytes, p.rels, p.defs) && TargetsFit(p) && DefsTold(p)
    requires i < |p.ms| && i < |p.sources| && q < |p.sources[i].lines| && Holds(p.sources[i].lines[q].op, d, n)
    requires n in p.sources[i].Kinds() && p.sources[i].Kinds()[n].kind != Local
    requires j < |p.ms| && g in p.ms[j].globals && g.def && g.name == n
    ensures var here, there := BaseOf(p, i, AreaAt(p.sources[i], q)), BaseOf(p, j, CanonicalAreaName(g.area));
      here.Some? && there.Some? &&
      Read16(Fixed(bytes, p.rels, p.defs), here.value + 2 * AddressAt(p.sources[i], q, d)) ==
      there.value / 2 + g.value % 0x8000
  {
    hide Built, Placed, TargetsFit, DefsTold, LinkerBases, Linked, Fixed, Read16, Pc, Holds, FieldAt, BuildInfos,
      AreaAt, Delivered, RelocArea, Slot, CanonicalAreaName;
    FromSource(p, i);
    FromSource(p, j);
    assert MatchAbs(Ref(n), p.sources[i].Kinds()) == Some(Symbol(n));
    var r := EmittedReloc(p.sources[i], p.ms[i], q, d, n, Symbol(n));
    RelocLies(p, i, r);
    GlobalReference(p, bytes, i, r, j, g);
  }
}
