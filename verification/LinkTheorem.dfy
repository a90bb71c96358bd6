/** The whole pipeline: any list of modules, linked in bytes and fixed up, is linked in words. */
module LinkTheorem {
  import opened Assembly
  import opened RelWriter
  import opened RelParser
  import opened RelRoundTrip
  import opened SdldLink
  import opened AreaBases
  import opened Fixup
  import opened WordAddressLink

  // ----- all modules

  function AllActions(ms: seq<Module>, bases: seq<Bases>, defs: Defs): seq<Action>
    requires |bases| == |ms|
  {
    if ms == [] then []
    else ModuleActions(ms[0], bases[0], defs, AreaNames(ms[0])) + AllActions(ms[1..], bases[1..], defs)
  }

  /** The module is well formed, its file was read back, and its areas have room and keep apart. */
  ghost predicate ModulePlaced(m: Module, p: ParsedRel, base: Bases) {
    WellFormed(m) && Reads(p, m) &&
    (forall a | a in AreaNames(m) :: AreaPlaced(m, base, a)) &&
    (forall a, b | a in AreaNames(m) && b in AreaNames(m) && a != b :: AreasApart(m, base, a, m, base, b))
  }

  ghost predicate ModulesApart(m: Module, base: Bases, m': Module, base': Bases) {
    forall a, b | a in AreaNames(m) && b in AreaNames(m') :: AreasApart(m, base, a, m', base', b)
  }

  ghost predicate AllPlaced(ms: seq<Module>, rels: seq<ParsedRel>, bases: seq<Bases>) {
    |rels| == |ms| == |bases| &&
    (forall i | 0 <= i < |ms| :: ModulePlaced(ms[i], rels[i], bases[i])) &&
    (forall i, j | 0 <= i < j < |ms| :: ModulesApart(ms[i], bases[i], ms[j], bases[j]))
  }

  lemma TailPlaced(ms: seq<Module>, rels: seq<ParsedRel>, bases: seq<Bases>)
    requires AllPlaced(ms, rels, bases) && ms != []
    ensures AllPlaced(ms[1..], rels[1..], bases[1..])
  {
    hide ModulePlaced, ModulesApart;
    forall i | 0 <= i < |ms| - 1 ensures ModulePlaced(ms[1..][i], rels[1..][i], bases[1..][i]) {
      assert ModulePlaced(ms[i + 1], rels[i + 1], bases[i + 1]);
    }
    forall i, j | 0 <= i < j < |ms| - 1 ensures ModulesApart(ms[1..][i], bases[1..][i], ms[1..][j], bases[1..][j]) {
      assert ModulesApart(ms[i + 1], bases[i + 1], ms[j + 1], bases[j + 1]);
    }
  }

  lemma NamesNoDup(m: Module)
    ensures NoDup(AreaNames(m))
  {
    hide OrderLinkAreaNames, MentionedAreas;
  }

  ghost predicate InSomeModule(ms: seq<Module>, bases: seq<Bases>, x: int)
    requires |bases| == |ms|
  {
    exists i :: 0 <= i < |ms| && InSomeArea(ms[i], bases[i], AreaNames(ms[i]), x)
  }

  /** What the fixup does to the image is one action per relocation. */
  lemma {:induction false} FixupIsActions(ms: seq<Module>, rels: seq<ParsedRel>, bases: seq<Bases>, defs: Defs)
    requires AllPlaced(ms, rels, bases)
    ensures RelActions(rels, bases, defs) == AllActions(ms, bases, defs)
    decreases ms
  {
    if ms != [] {
      hide WellFormed, AreaPlaced, AreaNames, ModuleActions, ChunkActions, AreasApart, ModulesApart, AllChunks,
        AreaSizes, Renamed;
      TailPlaced(ms, rels, bases);
      FixupIsActions(ms[1..], rels[1..], bases[1..], defs);
      assert ModulePlaced(ms[0], rels[0], bases[0]);
      FixupOfModule(ms[0], rels[0], bases[0], defs, AreaNames(ms[0]));
    }
  }

  lemma FirstOrderly(m: Module, p: ParsedRel, base: Bases, defs: Defs)
    requires ModulePlaced(m, p, base)
    ensures var acts := ModuleActions(m, base, defs, AreaNames(m));
      Orderly(acts) && forall k | 0 <= k < |acts| :: InSomeArea(m, base, AreaNames(m), WordOf(acts[k]))
  {
    hide WellFormed, AreaPlaced, InSomeArea, AreaNames, WordOf, ModuleActions, AreasApart, Reads, Orderly;
    NamesNoDup(m);
    ModuleOrderly(m, base, defs, AreaNames(m));
  }

  lemma TailModule(ms: seq<Module>, bases: seq<Bases>, x: int) returns (k: nat)
    requires ms != [] && |bases| == |ms| && InSomeModule(ms[1..], bases[1..], x)
    ensures 0 < k < |ms| && InSomeArea(ms[k], bases[k], AreaNames(ms[k]), x)
  {
    hide InSomeArea, AreaNames;
    var i :| 0 <= i < |ms[1..]| && InSomeArea(ms[1..][i], bases[1..][i], AreaNames(ms[1..][i]), x);
    k := i + 1;
  }

  /** No two actions of the fixup work on the same word. */
  lemma {:induction false} AllOrderly(ms: seq<Module>, rels: seq<ParsedRel>, bases: seq<Bases>, defs: Defs)
    requires AllPlaced(ms, rels, bases)
    ensures Orderly(AllActions(ms, bases, defs))
    ensures forall k | 0 <= k < |AllActions(ms, bases, defs)| ::
      InSomeModule(ms, bases, WordOf(AllActions(ms, bases, defs)[k]))
    decreases ms
  {
    if ms != [] {
      hide ModulePlaced, InSomeArea, AreaNames, WordOf, ModuleActions, ModulesApart, Orderly;
      var m, base := ms[0], bases[0];
      TailPlaced(ms, rels, bases);
      AllOrderly(ms[1..], rels[1..], bases[1..], defs);
      FirstOrderly(m, rels[0], base, defs);
      var here, rest := ModuleActions(m, base, defs, AreaNames(m)), AllActions(ms[1..], bases[1..], defs);
      FirstApart(ms, bases, here, rest);
      OrderlyConcat(here, rest);
      forall k | 0 <= k < |here + rest| ensures InSomeModule(ms, bases, WordOf((here + rest)[k])) {
        if k < |here| {
          assert InSomeArea(ms[0], bases[0], AreaNames(ms[0]), WordOf(here[k]));
        } else {
          var i := TailModule(ms, bases, WordOf(rest[k - |here|]));
        }
      }
    }
  }

  /** Actions in the first module and in the later ones work on different words. */
  lemma FirstApart(ms: seq<Module>, bases: seq<Bases>, here: seq<Action>, rest: seq<Action>)
    requires |bases| == |ms| && ms != []
    requires forall j | 0 < j < |ms| :: ModulesApart(ms[0], bases[0], ms[j], bases[j])
    requires forall k | 0 <= k < |here| :: InSomeArea(ms[0], bases[0], AreaNames(ms[0]), WordOf(here[k]))
    requires forall k | 0 <= k < |rest| :: InSomeModule(ms[1..], bases[1..], WordOf(rest[k]))
    ensures forall i, j | 0 <= i < |here| && 0 <= j < |rest| :: WordOf(here[i]) != WordOf(rest[j])
  {
    hide ModulePlaced, InSomeArea, InSomeModule, AreaNames, WordOf, ModulesApart;
    forall i, j | 0 <= i < |here| && 0 <= j < |rest| ensures WordOf(here[i]) != WordOf(rest[j]) {
      var k := TailModule(ms, bases, WordOf(rest[j]));
      assert ModulesApart(ms[0], bases[0], ms[k], bases[k]);
      NotInBoth(ms[0], bases[0], ms[k], bases[k], WordOf(here[i]));
    }
  }

  lemma NotInBoth(m: Module, base: Bases, m': Module, base': Bases, x: int)
    requires ModulesApart(m, base, m', base')
    ensures !(InSomeArea(m, base, AreaNames(m), x) && InSomeArea(m', base', AreaNames(m'), x))
  {
    hide AreaNames, InArea;
    if InSomeArea(m, base, AreaNames(m), x) {
      var a :| a in AreaNames(m) && InArea(m, base, a, x);
      forall b | b in AreaNames(m') ensures !InArea(m', base', b, x) {
        assert AreasApart(m, base, a, m', base', b);
      }
    }
  }

  // ----- the linker

  /** What the linker adds to a 16-bit field. */
  function Delta(p: ParsedRel, base: Bases, defs: Defs, chunk: RelChunk, it: Item): nat {
    if it.mode / 2 % 2 == 1 then SymbolValue(defs, SymbolAt(p, it.index))
    else SourceBase(base, defs, AreaAt(p, it.index, chunk.areaName))
  }

  ghost predicate CoversByte(chunk: RelChunk, it: Item, d: int) {
    it in chunk.items && (d == it.rtp - 2 || (it.mode % 2 == 0 && d == it.rtp - 1))
  }

  /** The linker's image of one chunk: data bytes at their place, and the byte address of the target
      added into every 16-bit field.  Nothing is said of 8-bit fields, which the fixup overwrites. */
  ghost predicate ChunkLinked(bytes: ByteMap, p: ParsedRel, base: Bases, defs: Defs, chunk: RelChunk) {
    (forall it | it in chunk.items && it.mode % 2 == 0 ::
      Read16(bytes, FieldAddr(base, chunk, it)) ==
      (DataAt(chunk, it.rtp - 2) * 256 + DataAt(chunk, it.rtp - 1) + Delta(p, base, defs, chunk, it)) % 0x1_0000) &&
    (forall d | 0 <= d < |chunk.data| && (forall it :: !CoversByte(chunk, it, d)) ::
      Get(bytes, (if chunk.areaName in base then base[chunk.areaName] else 0) + chunk.tAddr + d) == chunk.data[d])
  }

  /** An image as the linker produces it from the files of all modules. */
  ghost predicate Linked(bytes: ByteMap, rels: seq<ParsedRel>, defs: Defs) {
    forall i, k | 0 <= i < |rels| && 0 <= k < |rels[i].chunks| ::
      ChunkLinked(bytes, rels[i], LinkerBases(rels, defs)[i], defs, rels[i].chunks[k])
  }

  /** The word address a relocation asks for: the offset plus the word base of its area, or the
      symbol's word address. */
  function TargetWord(base: Bases, defs: Defs, r: Reloc): nat {
    if r.left.Symbol? then SymbolValue(defs, SdldSymName(r.left.name)) / 2
    else if r.left.Word? then TargetBase(base, defs, r) / 2 + r.left.value
    else 0
  }

  /** The target's byte address fits 16 bits, and an area's byte base is even. */
  ghost predicate TargetFits(base: Bases, defs: Defs, r: Reloc) {
    (r.left.Symbol? ==> SymbolValue(defs, SdldSymName(r.left.name)) < 0x1_0000) &&
    (r.left.Word? ==> TargetBase(base, defs, r) % 2 == 0 && TargetBase(base, defs, r) + 2 * r.left.value < 0x1_0000)
  }

  // ----- the piece that holds a relocation

  lemma {:induction false} PieceOf(b: Body, cs: seq<seq<EmittedWord>>, r: Reloc) returns (k: nat)
    requires (forall k | 0 <= k < |cs| :: cs[k] != []) && r in Written(b, cs)
    ensures k < |cs| && r in Claimed(b, cs[k])
  {
    hide Claimed;
    if r in Claimed(b, cs[0]) {
      k := 0;
    } else {
      var k' := PieceOf(b, cs[1..], r);
      k := k' + 1;
    }
  }

  lemma {:induction false} ChunkIn(m: Module, t: Tables, names: seq<string>, area: string, k: nat) returns (n: nat)
    requires area in names && k < |AreaChunks(m, t, area)|
    ensures n < |AllChunks(m, t, names)| && AllChunks(m, t, names)[n] == AreaChunks(m, t, area)[k]
  {
    hide AreaChunks;
    if area == names[0] {
      n := k;
    } else {
      var n' := ChunkIn(m, t, names[1..], area, k);
      n := n' + |AreaChunks(m, t, names[0])|;
    }
  }

  lemma PieceWords(m: Module, area: string, k: nat)
    requires !m.byteAddrs && k < |Chunks(WordsOf(m, area), false)|
    ensures var c := Chunks(WordsOf(m, area), false)[k];
      c != [] && Consecutive(c, false) && forall w | w in c :: w in WordsOf(m, area)
  {
    hide WordsOf, Chunks, Consecutive, MayPart;
    var s := WordsOf(m, area);
    ChunksPartition(s, false);
    assert Chunks(s, false)[k] in Chunks(s, false);
    JoinHas(Chunks(s, false), k);
  }

  lemma {:induction false} JoinHas(cs: seq<seq<EmittedWord>>, k: nat)
    requires k < |cs|
    ensures forall w | w in cs[k] :: w in Join(cs)
  {
    if k > 0 {
      JoinHas(cs[1..], k - 1);
    }
  }

  /** The field of a 16-bit relocation, as the linker leaves it. */
  lemma FieldLinked(bytes: ByteMap, m: Module, p: ParsedRel, base: Bases, defs: Defs, r: Reloc)
    requires ModulePlaced(m, p, base) && r in m.relocs && r.width.Word16?
    requires forall k | 0 <= k < |p.chunks| :: ChunkLinked(bytes, p, base, defs, p.chunks[k])
    ensures Read16(bytes, FieldAction(base, defs, RelocArea(r), r).addr) ==
      (Seeded(r.left) +
       (if r.left.Symbol? then SymbolValue(defs, SdldSymName(r.left.name)) else TargetBase(base, defs, r)))
      % 0x1_0000
  {
    hide AreaNames, WordsOf, Chunks, Consecutive, Within, AllChunks, NoClash, Sits, SizeRel, ItemFor, RelocArea,
      Placeholder, SymbolOrder, TablesOf, AreaWritten, IndexMap, RelocsOf, Renamed, AreasApart, AreaSizes, Fits;
    var area, t := RelocArea(r), TablesOf(m);
    var b := BodyOf(m, t, area);
    SlotInArea(m, r);
    AreaWrittenOnce(m, area);
    var cs := Chunks(WordsOf(m, area), false);
    assert r in Written(b, cs) by { assert AreaWritten(m, area) == Written(b, cs) by { AreaWrittenIs(m, area); } }
    var k := PieceOf(b, cs, r);
    var c := cs[k];
    PieceWords(m, area, k);
    var start := 2 * c[0].address;
    WithinHas(b.relocs, start, start + 2 * |c|);
    var w := WordInPiece(m, area, c, r);
    assert AreaChunks(m, t, area)[k] == ChunkOf(b, c);
    var n := ChunkIn(m, t, AreaNames(m), area, k);
    assert ChunkLinked(bytes, p, base, defs, p.chunks[n]);
    FieldInChunk(bytes, m, p, base, defs, area, c, r, w);
  }

  lemma AreaWrittenIs(m: Module, area: string)
    ensures AreaWritten(m, area) == Written(BodyOf(m, TablesOf(m), area), Chunks(WordsOf(m, area), false))
  {
  }

  lemma WordUnderField(c: seq<EmittedWord>, r: Reloc, w: EmittedWord)
    requires c != [] && Consecutive(c, false) && w in c
    requires w.address == Slot(r) && r.byteAddr % 2 == 0 && w.value < 0x1_0000
    ensures var off := r.byteAddr - 2 * c[0].address;
      0 <= off && off + 1 < |ChunkBytes(c)| && ChunkBytes(c)[off] * 256 + ChunkBytes(c)[off + 1] == w.value
  {
    var i :| 0 <= i < |c| && c[i] == w;
    assert ByteAddr(c[i], false) == ByteAddr(c[0], false) + 2 * i;
  }

  lemma FieldInChunk(bytes: ByteMap, m: Module, p: ParsedRel, base: Bases, defs: Defs, area: string,
                     c: seq<EmittedWord>, r: Reloc, w: EmittedWord)
    requires Resolvable(m, r) && p.symbols == Renamed(SymbolOrder(m)) && p.areas == AreaNames(m) && !m.byteAddrs
    requires c != [] && Consecutive(c, false) && w in c
    requires Placeholder(w, r) && c[0].address < 0x8000 && w.value < 0x1_0000
    requires area in base && base[area] + r.byteAddr < WORD32 && r.width.Word16?
    requires r in Claimed(BodyOf(m, TablesOf(m), area), c) && r.byteAddr >= 2 * c[0].address
    requires ChunkLinked(bytes, p, base, defs, ChunkOf(BodyOf(m, TablesOf(m), area), c))
    ensures Read16(bytes, base[area] + r.byteAddr) ==
      (Seeded(r.left) +
       (if r.left.Symbol? then SymbolValue(defs, SdldSymName(r.left.name)) else TargetBase(base, defs, r)))
      % 0x1_0000
  {
    hide SymbolOrder, AreaNames, TablesOf, ItemFor, Claimed, ChunkBytes, Consecutive, Renamed, SymbolValue, SourceBase,
      SymbolAt, AreaAt, Read16, CoversByte, ItemsFor, Slot, Seeded;
    var t, start := TablesOf(m), 2 * c[0].address;
    ItemIsMode(m, r, start, p);
    var chunk, it := ChunkOf(BodyOf(m, t, area), c), ItemFor(r, start, t);
    ItemWritten(m, area, c, r);
    assert chunk.areaName == area && chunk.tAddr == start && chunk.data == ChunkBytes(c);
    assert FieldAddr(base, chunk, it) == base[area] + r.byteAddr;
    WordUnderField(c, r, w);
    assert DataAt(chunk, it.rtp - 2) * 256 + DataAt(chunk, it.rtp - 1) == Seeded(r.left);
    assert Delta(p, base, defs, chunk, it) ==
      if r.left.Symbol? then SymbolValue(defs, SdldSymName(r.left.name)) else TargetBase(base, defs, r);
  }

  lemma ItemWritten(m: Module, area: string, c: seq<EmittedWord>, r: Reloc)
    requires c != [] && !m.byteAddrs && r in Claimed(BodyOf(m, TablesOf(m), area), c)
    ensures ItemFor(r, 2 * c[0].address, TablesOf(m)) in ChunkOf(BodyOf(m, TablesOf(m), area), c).items
  {
    hide TablesOf, ItemFor, Claimed, ChunkBytes;
    var b := BodyOf(m, TablesOf(m), area);
    var rs := Claimed(b, c);
    var j :| 0 <= j < |rs| && rs[j] == r;
    assert ChunkOf(b, c).items[j] == ItemFor(r, 2 * c[0].address, TablesOf(m));
  }

  // ----- the theorems

  lemma {:induction false} ActionIn(m: Module, base: Bases, defs: Defs, names: seq<string>, r: Reloc) returns (k: nat)
    requires RelocArea(r) in names && r in AreaWritten(m, RelocArea(r))
    ensures k < |ModuleActions(m, base, defs, names)|
    ensures ModuleActions(m, base, defs, names)[k] == FieldAction(base, defs, RelocArea(r), r)
  {
    hide AreaWritten, FieldAction, RelocArea;
    var area := RelocArea(r);
    if area == names[0] {
      var rs := AreaWritten(m, area);
      k :| 0 <= k < |rs| && rs[k] == r;
    } else {
      var k' := ActionIn(m, base, defs, names[1..], r);
      k := k' + |FieldActions(base, defs, names[0], AreaWritten(m, names[0]))|;
    }
  }

  /** Every relocation has its action. */
  lemma {:induction false} ActionAmong(ms: seq<Module>, bases: seq<Bases>, defs: Defs, i: nat, r: Reloc)
    returns (k: nat)
    requires |bases| == |ms| && i < |ms| && WellFormed(ms[i]) && r in ms[i].relocs
    ensures k < |AllActions(ms, bases, defs)|
    ensures AllActions(ms, bases, defs)[k] == FieldAction(bases[i], defs, RelocArea(r), r)
    decreases i
  {
    hide WellFormed, ModuleActions, AreaNames, FieldAction, RelocArea, AreaWritten;
    if i == 0 {
      SlotInArea(ms[0], r);
      AreaWrittenOnce(ms[0], RelocArea(r));
      k := ActionIn(ms[0], bases[0], defs, AreaNames(ms[0]), r);
    } else {
      assert ms[1..][i - 1] == ms[i];
      var k' := ActionAmong(ms[1..], bases[1..], defs, i - 1, r);
      k := k' + |ModuleActions(ms[0], bases[0], defs, AreaNames(ms[0]))|;
    }
  }

  /** Every action belongs to a relocation. */
  lemma {:induction false} ActionOf(m: Module, base: Bases, defs: Defs, names: seq<string>, k: nat) returns (r: Reloc)
    requires WellFormed(m) && k < |ModuleActions(m, base, defs, names)|
    ensures r in m.relocs && ModuleActions(m, base, defs, names)[k] == FieldAction(base, defs, RelocArea(r), r)
  {
    hide WellFormed, AreaWritten, FieldAction, RelocArea;
    AreaWrittenOnce(m, names[0]);
    var rs := AreaWritten(m, names[0]);
    if k < |rs| {
      r := rs[k];
      assert r in rs;
    } else {
      r := ActionOf(m, base, defs, names[1..], k - |rs|);
    }
  }

  lemma {:induction false} ActionOfSome(ms: seq<Module>, bases: seq<Bases>, defs: Defs, k: nat)
    returns (i: nat, r: Reloc)
    requires |bases| == |ms| && (forall i | 0 <= i < |ms| :: WellFormed(ms[i])) && k < |AllActions(ms, bases, defs)|
    ensures i < |ms| && r in ms[i].relocs
    ensures AllActions(ms, bases, defs)[k] == FieldAction(bases[i], defs, RelocArea(r), r)
    decreases ms
  {
    hide WellFormed, ModuleActions, AreaNames, FieldAction, RelocArea;
    var here := ModuleActions(ms[0], bases[0], defs, AreaNames(ms[0]));
    if k < |here| {
      i := 0;
      r := ActionOf(ms[0], bases[0], defs, AreaNames(ms[0]), k);
    } else {
      var i' : nat;
      assert forall j | 0 <= j < |ms| - 1 :: ms[1..][j] == ms[j + 1];
      i', r := ActionOfSome(ms[1..], bases[1..], defs, k - |here|);
      i := i' + 1;
    }
  }

  /** In a placed project the fixup works with the bases of the linker. */
  lemma PlacedAgree(ms: seq<Module>, rels: seq<ParsedRel>, defs: Defs)
    requires AllPlaced(ms, rels, LinkerBases(rels, defs))
    ensures AllBases(rels, defs) == LinkerBases(rels, defs)
  {
    hide AllBases, LinkerBases, ModulePlaced, ModulesApart, NoDup, PartStart, SizeOf, AreaFits;
    var bases := LinkerBases(rels, defs);
    forall k | 0 <= k < |rels| ensures NoDup(rels[k].areas) {
      AreasOnce(ms[k], rels[k], bases[k]);
    }
    forall k, a | 0 <= k < |rels| && a in rels[k].areas ensures AreaFits(rels, defs, a) {
      forall j | 0 <= j < |rels| && a in rels[j].areas
        ensures PartStart(rels, defs, j, a) + SizeOf(rels[j], a) <= 0x1_0000
      {
        PartFits(ms[j], rels, defs, j, a);
      }
      AllPartsFit(rels, defs, a, k);
    }
    BasesAgree(rels, defs);
  }

  lemma AreasOnce(m: Module, p: ParsedRel, base: Bases)
    requires ModulePlaced(m, p, base)
    ensures NoDup(p.areas)
  {
    hide WellFormed, AreaNames, AreasApart, AllChunks, Renamed, NoDup, AreaPlaced, AreaSizes;
    NamesNoDup(m);
  }

  lemma PartFits(m: Module, rels: seq<ParsedRel>, defs: Defs, j: nat, a: string)
    requires j < |rels| && a in rels[j].areas && ModulePlaced(m, rels[j], LinkerBases(rels, defs)[j])
    ensures PartStart(rels, defs, j, a) + SizeOf(rels[j], a) <= 0x1_0000
  {
    hide WellFormed, Reads, AreaNames, AreasApart, PartStart, SizeRel, SizeOf;
    assert SizeOf(rels[j], a) <= SizeRel(m, a) && a in AreaNames(m) by { SizeFound(m, rels[j], a); }
    assert AreaPlaced(m, LinkerBases(rels, defs)[j], a);
  }

  lemma SizeFound(m: Module, p: ParsedRel, a: string)
    requires Reads(p, m) && a in p.areas
    ensures a in AreaNames(m) && SizeOf(p, a) <= SizeRel(m, a)
  {
    hide AreaNames, AllChunks, Renamed, SizeRel, SymbolOrder, TablesOf;
  }

  lemma AllPartsFit(rels: seq<ParsedRel>, defs: Defs, area: string, k: nat)
    requires k < |rels| && area in rels[k].areas
    requires forall j | 0 <= j < |rels| && area in rels[j].areas ::
      PartStart(rels, defs, j, area) + SizeOf(rels[j], area) <= 0x1_0000
    ensures AreaFits(rels, defs, area)
  {
    hide AreaStart, SizeOf, Share;
    assert PartStart(rels, defs, k, area) + SizeOf(rels[k], area) <= 0x1_0000;
    forall j | 0 <= j < |rels| && area in rels[j].areas
      ensures AreaStart(defs, area) + SharesBefore(rels, j, area) + SizeOf(rels[j], area) <= 0x1_0000
    {
      assert PartStart(rels, defs, j, area) + SizeOf(rels[j], area) <= 0x1_0000;
    }
    PartsFit(rels, AreaStart(defs, area), area, 0x1_0000);
  }

  /** The effect of the fixup on the field of one relocation. */
  lemma FieldDone(ms: seq<Module>, rels: seq<ParsedRel>, defs: Defs, bytes: ByteMap, i: nat, r: Reloc)
    requires AllPlaced(ms, rels, LinkerBases(rels, defs)) && i < |ms| && r in ms[i].relocs
    ensures Done(FieldAction(LinkerBases(rels, defs)[i], defs, RelocArea(r), r), bytes, Fixed(bytes, rels, defs))
  {
    hide ModulePlaced, ModulesApart, AllActions, AllBases, LinkerBases, ApplyAll, Done, RelActions, FieldAction,
      RelocArea;
    var bases := LinkerBases(rels, defs);
    PlacedAgree(ms, rels, defs);
    FixupIsActions(ms, rels, bases, defs);
    AllOrderly(ms, rels, bases, defs);
    assert WellFormed(ms[i]) by { PlacedIsWellFormed(ms[i], rels[i], bases[i]); }
    var k := ActionAmong(ms, bases, defs, i, r);
    Independent(bytes, AllActions(ms, bases, defs), k);
  }

  lemma PlacedIsWellFormed(m: Module, p: ParsedRel, base: Bases)
    requires ModulePlaced(m, p, base)
    ensures WellFormed(m)
  {
    hide WellFormed;
  }

  /** The byte address of a relocation's field in the image. */
  function FieldAt(rels: seq<ParsedRel>, defs: Defs, i: nat, r: Reloc): int
    requires i < |rels|
  {
    FieldAction(LinkerBases(rels, defs)[i], defs, RelocArea(r), r).addr
  }

  lemma HalfOfSum(v: nat, base: nat)
    requires base % 2 == 0 && base + 2 * v < 0x1_0000
    ensures (v * 2 % 0x1_0000 + base) % 0x1_0000 / 2 == base / 2 + v
  {
  }

  /** Every 16-bit field holds the word address of its target: what a linker working in word
      addresses would have stored. */
  lemma WordFields(ms: seq<Module>, rels: seq<ParsedRel>, defs: Defs, bytes: ByteMap, i: nat, r: Reloc)
    requires AllPlaced(ms, rels, LinkerBases(rels, defs)) && Linked(bytes, rels, defs)
    requires i < |ms| && r in ms[i].relocs && r.width.Word16? && TargetFits(LinkerBases(rels, defs)[i], defs, r)
    ensures Read16(Fixed(bytes, rels, defs), FieldAt(rels, defs, i, r)) ==
      TargetWord(LinkerBases(rels, defs)[i], defs, r)
  {
    hide WellFormed, ModulesApart, LinkerBases, Fixed, Read16, ChunkLinked, RelocArea, SymbolValue, TargetBase,
      SymbolOrder, AreaNames, AreaPlaced, AreasApart, Reads;
    var base := LinkerBases(rels, defs)[i];
    FieldDone(ms, rels, defs, bytes, i, r);
    assert ModulePlaced(ms[i], rels[i], base);
    FieldLinked(bytes, ms[i], rels[i], base, defs, r);
    assert !r.left.Const? by { NotConst(ms[i], r); }
    if r.left.Word? {
      HalfOfSum(r.left.value, TargetBase(base, defs, r));
    }
  }

  lemma NotConst(m: Module, r: Reloc)
    requires WellFormed(m) && r in m.relocs
    ensures !r.left.Const?
  {
    hide Sits, Fits, NoClash;
  }

  lemma LowByte(v: nat, base: nat)
    requires base % 2 == 0 && base + 2 * v < 0x1_0000
    ensures (base + v * 2 % 0x1_0000 % 256) % WORD32 / 2 % 256 == (base / 2 + v) % 256 <==> v % 256 < 128
  {
    LostBit(v);
    var k, h, l := SplitByte(v);
    HalfBase(base, l);
    Mod256(k, base / 2 + l + 128 * h);
    OneBit(base / 2 + l, h);
  }

  lemma SplitByte(v: nat) returns (k: nat, h: nat, l: nat)
    ensures v == 256 * k + 128 * h + l && h <= 1 && l == v % 128 < 128
    ensures v % 256 < 128 <==> h == 0
  {
    var q := v / 128;
    k, h, l := q / 2, q % 2, v % 128;
    Mod256(k, 128 * h + l);
  }

  lemma LostBit(v: nat)
    requires 2 * v < 0x1_0000
    ensures v * 2 % 0x1_0000 % 256 == 2 * (v % 128)
  {
    Mod256(v / 128, 2 * (v % 128));
  }

  lemma HalfBase(base: nat, l: nat)
    requires base % 2 == 0 && base < 0x1_0000 && l < 128
    ensures (base + 2 * l) % WORD32 / 2 == base / 2 + l
  {
  }

  lemma OneBit(x: int, h: int)
    requires 0 <= h <= 1
    ensures (x + 128 * h) % 256 == x % 256 <==> h == 0
  {
  }

  lemma Mod256(k: int, x: int)
    ensures (256 * k + x) % 256 == x % 256
  {
  }

  /** The fixup of a `*label` byte starts from the low byte of the doubled offset, which has lost bit 7
      of the offset. */
  predicate KeepsBit7(r: Reloc) { r.left.Word? ==> r.left.value % 256 < 128 }

  /** A `*label` byte holds the low byte of its target's word address exactly when the target is a
      symbol, or an offset whose low byte is below 128. */
  lemma LowByteFields(ms: seq<Module>, rels: seq<ParsedRel>, defs: Defs, bytes: ByteMap, i: nat, r: Reloc)
    requires AllPlaced(ms, rels, LinkerBases(rels, defs))
    requires i < |ms| && r in ms[i].relocs && r.width.Low8? && TargetFits(LinkerBases(rels, defs)[i], defs, r)
    ensures var target := TargetWord(LinkerBases(rels, defs)[i], defs, r);
      Get(Fixed(bytes, rels, defs), FieldAt(rels, defs, i, r)) == target % 256 <==> KeepsBit7(r)
  {
    hide WellFormed, ModulesApart, LinkerBases, Fixed, RelocArea, SymbolValue, TargetBase, AreaNames, AreaPlaced,
      AreasApart, Reads;
    var base := LinkerBases(rels, defs)[i];
    FieldDone(ms, rels, defs, bytes, i, r);
    assert ModulePlaced(ms[i], rels[i], base);
    assert !r.left.Const? by { NotConst(ms[i], r); }
    if r.left.Word? {
      LowByte(r.left.value, TargetBase(base, defs, r));
    }
  }

  /** Is byte `x` of the image part of a relocation's field? */
  ghost predicate InField(ms: seq<Module>, rels: seq<ParsedRel>, defs: Defs, x: int)
    requires |rels| == |ms|
  {
    exists i: nat, r :: i < |ms| && r in ms[i].relocs &&
      (x == FieldAt(rels, defs, i, r) || (r.width.Word16? && x == FieldAt(rels, defs, i, r) + 1))
  }

  /** Every byte outside the fields stays as the linker left it. */
  lemma OtherBytes(ms: seq<Module>, rels: seq<ParsedRel>, defs: Defs, bytes: ByteMap, x: int)
    requires AllPlaced(ms, rels, LinkerBases(rels, defs)) && !InField(ms, rels, defs, x)
    ensures Get(Fixed(bytes, rels, defs), x) == Get(bytes, x)
  {
    hide ModulePlaced, ModulesApart, AllActions, AllBases, LinkerBases, ApplyAll, RelActions, RelocArea, SymbolValue,
      TargetBase;
    var bases := LinkerBases(rels, defs);
    PlacedAgree(ms, rels, defs);
    var acts := AllActions(ms, bases, defs);
    FixupIsActions(ms, rels, bases, defs);
    forall i | 0 <= i < |ms| ensures WellFormed(ms[i]) {
      assert ModulePlaced(ms[i], rels[i], bases[i]);
      PlacedIsWellFormed(ms[i], rels[i], bases[i]);
    }
    forall k | 0 <= k < |acts| ensures !Touches(acts[k], x) {
      var i, r := ActionOfSome(ms, bases, defs, k);
      assert acts[k].addr == FieldAt(rels, defs, i, r);
    }
    Untouched(bytes, acts, x);
  }
}
