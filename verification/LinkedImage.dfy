/** Whatever modules land apart, an image as the linker is taken to produce it exists: the assumption
    about the linker never rules a link out. */
module LinkedImage {
  import opened Bytes
  import opened Assembly
  import opened RelWriter
  import opened RelParser
  import opened RelRoundTrip
  import opened SdldLink
  import opened AreaBases
  import opened WordAddressLink
  import opened LinkTheorem
  import opened Landing

  // ----- where a word lies

  ghost predicate LiesAt(m: Module, base: Bases, w: EmittedWord, x: int) {
    w in m.words && CanonicalAreaName(w.area) in base && base[CanonicalAreaName(w.area)] + 2 * w.address == x
  }

  lemma WordFacts(m: Module, area: string, w: EmittedWord)
    requires WellFormed(m) && area in AreaNames(m) && w in WordsOf(m, area)
    ensures w in m.words && CanonicalAreaName(w.area) == area && w.address < 0x8000 && w.value < 0x1_0000
    ensures 2 * w.address + 2 <= SizeRel(m, area)
  {
    hide AreaNames, Resolvable, Sits, Fits, NoClash, WordsOf, InfoSize, SizeRel;
    WordsOfArea(m, area);
    SizeIsDoubled(m, area);
  }

  lemma WordLies(m: Module, base: Bases, w: EmittedWord, x: int)
    requires WellFormed(m) && LiesAt(m, base, w, x) && AreaPlaced(m, base, CanonicalAreaName(w.area))
    ensures var a := CanonicalAreaName(w.area);
      a in AreaNames(m) && w in WordsOf(m, a) && InArea(m, base, a, x) && x % 2 == 0 && 0 <= x && x + 1 < 0x1_0000
  {
    hide WellFormed, AreaNames, WordsOf, SizeRel, CanonicalAreaName;
    var a := CanonicalAreaName(w.area);
    WordAreaNamed(m, w);
    WordsDoNotClash(m);
    WordsOfArea(m, a);
    WordFacts(m, a, w);
  }

  lemma NotInTwoModules(ms: seq<Module>, rels: seq<ParsedRel>, bases: seq<Bases>, i: nat, v: EmittedWord, j: nat,
                        w: EmittedWord, x: int)
    requires AllPlaced(ms, rels, bases) && i < j < |ms| && LiesAt(ms[i], bases[i], v, x)
    ensures !LiesAt(ms[j], bases[j], w, x)
  {
    hide WellFormed, AreaNames, WordsOf, InArea, Reads, AreaPlaced, CanonicalAreaName;
    assert ModulePlaced(ms[i], rels[i], bases[i]) && ModulePlaced(ms[j], rels[j], bases[j]);
    assert ModulesApart(ms[i], bases[i], ms[j], bases[j]);
    WordAreaNamed(ms[i], v);
    WordLies(ms[i], bases[i], v, x);
    if LiesAt(ms[j], bases[j], w, x) {
      WordAreaNamed(ms[j], w);
      WordLies(ms[j], bases[j], w, x);
    }
  }

  /** No two words of all modules lie at one address. */
  lemma OneWord(ms: seq<Module>, rels: seq<ParsedRel>, bases: seq<Bases>, i: nat, v: EmittedWord, j: nat,
                w: EmittedWord, x: int)
    requires AllPlaced(ms, rels, bases) && i < |ms| && j < |ms|
    requires LiesAt(ms[i], bases[i], v, x) && LiesAt(ms[j], bases[j], w, x)
    ensures i == j && v == w
  {
    hide WellFormed, AreaNames, WordsOf, InArea, Reads, AreaPlaced, CanonicalAreaName, ModulesApart;
    if i < j {
      NotInTwoModules(ms, rels, bases, i, v, j, w, x);
    } else if j < i {
      NotInTwoModules(ms, rels, bases, j, w, i, v, x);
    } else {
      var a, b := CanonicalAreaName(v.area), CanonicalAreaName(w.area);
      assert ModulePlaced(ms[i], rels[i], bases[i]);
      WordAreaNamed(ms[i], v);
      WordAreaNamed(ms[i], w);
      WordLies(ms[i], bases[i], v, x);
      WordLies(ms[i], bases[i], w, x);
      WordsDoNotClash(ms[i]);
      WordsOfArea(ms[i], a);
      if a == b { StrictUnique(WordsOf(ms[i], a), v, w); }
    }
  }

  // ----- the image

  ghost predicate Patches(m: Module, r: Reloc, w: EmittedWord) {
    r in m.relocs && r.width.Word16? && RelocArea(r) == CanonicalAreaName(w.area) && Slot(r) == w.address
  }

  function Added(base: Bases, defs: Defs, r: Reloc): nat {
    if r.left.Symbol? then SymbolValue(defs, SdldSymName(r.left.name)) else TargetBase(base, defs, r)
  }

  ghost function LinkedWord(m: Module, base: Bases, defs: Defs, w: EmittedWord): nat {
    if r :| Patches(m, r, w) then (w.value + Added(base, defs, r)) % 0x1_0000 else w.value % 0x1_0000
  }

  /** One relocation at most patches a word. */
  lemma OnePatch(m: Module, r: Reloc, q: Reloc, w: EmittedWord)
    requires WellFormed(m) && Patches(m, r, w) && Patches(m, q, w)
    ensures r == q
  {
    hide NoClash, Resolvable, Sits, Fits, AreaNames, InfoSize, RelocArea, CanonicalAreaName, Slot;
    var i :| 0 <= i < |m.relocs| && m.relocs[i] == r;
    var j :| 0 <= j < |m.relocs| && m.relocs[j] == q;
  }

  lemma PatchedWord(m: Module, base: Bases, defs: Defs, r: Reloc, w: EmittedWord)
    requires WellFormed(m) && Patches(m, r, w)
    ensures LinkedWord(m, base, defs, w) == (w.value + Added(base, defs, r)) % 0x1_0000
  {
    hide WellFormed, Added;
    forall q | Patches(m, q, w) ensures q == r {
      OnePatch(m, r, q, w);
    }
  }

  /** Every word of every module at its place, with the target's address added where it is patched. */
  ghost function Image(ms: seq<Module>, bases: seq<Bases>, defs: Defs): ByteMap
    requires |bases| == |ms|
  {
    map x: int | 0 <= x < 0x1_0000 :: ImageByte(ms, bases, defs, x)
  }

  ghost function ImageByte(ms: seq<Module>, bases: seq<Bases>, defs: Defs, x: int): Byte
    requires |bases| == |ms|
  {
    var even := x - x % 2;
    if i: nat, w :| i < |ms| && LiesAt(ms[i], bases[i], w, even) then
      var v := LinkedWord(ms[i], bases[i], defs, w);
      if x % 2 == 0 then Hi(v) else Lo(v)
    else 0
  }

  lemma ImageHolds(ms: seq<Module>, rels: seq<ParsedRel>, bases: seq<Bases>, defs: Defs, i: nat, w: EmittedWord, x: int)
    requires AllPlaced(ms, rels, bases) && |bases| == |ms| && i < |ms| && LiesAt(ms[i], bases[i], w, x)
    ensures var v := LinkedWord(ms[i], bases[i], defs, w);
      var bytes := Image(ms, bases, defs);
      Get(bytes, x) == Hi(v) && Get(bytes, x + 1) == Lo(v) && Read16(bytes, x) == v
  {
    hide LinkedWord, LiesAt, AllPlaced;
    PlaceOfWord(ms, rels, bases, i, w, x);
    forall j: nat, u | j < |ms| && LiesAt(ms[j], bases[j], u, x) ensures j == i && u == w {
      OneWord(ms, rels, bases, j, u, i, w, x);
    }
    var v := LinkedWord(ms[i], bases[i], defs, w);
    WordRange(ms[i], bases[i], defs, w);
    assert ImageByte(ms, bases, defs, x) == Hi(v) && ImageByte(ms, bases, defs, x + 1) == Lo(v);
    assert Hi(v) * 256 + Lo(v) == v;
  }

  lemma PlaceOfWord(ms: seq<Module>, rels: seq<ParsedRel>, bases: seq<Bases>, i: nat, w: EmittedWord, x: int)
    requires AllPlaced(ms, rels, bases) && i < |ms| && LiesAt(ms[i], bases[i], w, x)
    ensures |bases| == |ms| && x % 2 == 0 && 0 <= x && x + 1 < 0x1_0000
  {
    hide WellFormed, AreaNames, Reads, ModulesApart, AreasApart, CanonicalAreaName, AreaPlaced;
    assert ModulePlaced(ms[i], rels[i], bases[i]);
    WordAreaNamed(ms[i], w);
    WordLies(ms[i], bases[i], w, x);
  }

  lemma WordRange(m: Module, base: Bases, defs: Defs, w: EmittedWord)
    ensures LinkedWord(m, base, defs, w) < 0x1_0000
  {
  }

  // ----- chunk by chunk

  lemma {:induction false} ChunkFrom(m: Module, t: Tables, names: seq<string>, n: nat) returns (area: string, k: nat)
    requires n < |AllChunks(m, t, names)|
    ensures area in names && k < |AreaChunks(m, t, area)| && AllChunks(m, t, names)[n] == AreaChunks(m, t, area)[k]
  {
    hide AreaChunks;
    if n < |AreaChunks(m, t, names[0])| {
      area, k := names[0], n;
    } else {
      area, k := ChunkFrom(m, t, names[1..], n - |AreaChunks(m, t, names[0])|);
    }
  }

  /** The image is linked where the words of one chunk lie. */
  lemma PieceLinked(ms: seq<Module>, rels: seq<ParsedRel>, bases: seq<Bases>, defs: Defs, i: nat, area: string,
                    c: seq<EmittedWord>)
    requires AllPlaced(ms, rels, bases) && i < |ms| && area in AreaNames(ms[i])
    requires c != [] && Consecutive(c, false) && forall w | w in c :: w in WordsOf(ms[i], area)
    ensures
      ChunkLinked(Image(ms, bases, defs), rels[i], bases[i], defs, ChunkOf(BodyOf(ms[i], TablesOf(ms[i]), area), c))
  {
    hide WellFormed, AreaNames, WordsOf, Reads, ModulesApart, AreasApart, Image, TablesOf, ItemsFor, ChunkBytes,
      Claimed, Read16, FieldAddr, DataAt, Delta, CoversByte, Consecutive, SizeRel;
    var m, p, base, t := ms[i], rels[i], bases[i], TablesOf(ms[i]);
    assert ModulePlaced(m, p, base) && AreaPlaced(m, base, area);
    var b := BodyOf(m, t, area);
    var chunk := ChunkOf(b, c);
    forall it | it in chunk.items && it.mode % 2 == 0
      ensures Read16(Image(ms, bases, defs), FieldAddr(base, chunk, it)) ==
        (DataAt(chunk, it.rtp - 2) * 256 + DataAt(chunk, it.rtp - 1) + Delta(p, base, defs, chunk, it)) % 0x1_0000
    {
      ItemLinked(ms, rels, bases, defs, i, area, c, it);
    }
    WordFacts(m, area, c[0]);
    forall d | 0 <= d < |chunk.data| && (forall it :: !CoversByte(chunk, it, d))
      ensures Get(Image(ms, bases, defs), base[area] + chunk.tAddr + d) == chunk.data[d]
    {
      ByteLinked(ms, rels, bases, defs, i, area, c, d);
    }
  }

  /** The relocation and the word behind a 16-bit item. */
  lemma ItemReloc(m: Module, p: ParsedRel, area: string, c: seq<EmittedWord>, it: Item)
    returns (r: Reloc, w: EmittedWord)
    requires WellFormed(m) && Reads(p, m) && area in AreaNames(m)
    requires c != [] && Consecutive(c, false) && forall w | w in c :: w in WordsOf(m, area)
    requires it in ChunkOf(BodyOf(m, TablesOf(m), area), c).items && it.mode % 2 == 0
    ensures it == ItemFor(r, 2 * c[0].address, TablesOf(m)) && r.byteAddr >= 2 * c[0].address
    ensures w in c && Placeholder(w, r) && Patches(m, r, w) && r.byteAddr == 2 * w.address
  {
    hide WellFormed, AreaNames, WordsOf, TablesOf, ChunkBytes, Claimed, ItemFor, SizeRel, Consecutive, SymbolOrder,
      Renamed, SymbolAt, AreaAt, Seeded, AllChunks, AreaSizes, CanonicalAreaName, RelocArea, Resolvable,
      HasAddress;
    var b, start := BodyOf(m, TablesOf(m), area), 2 * c[0].address;
    MnModule(m);
    var chunk := ChunkOf(b, c);
    var j :| 0 <= j < |Claimed(b, c)| && chunk.items[j] == it;
    r := Claimed(b, c)[j];
    assert r in Claimed(b, c) && it == ItemFor(r, start, TablesOf(m));
    ClaimedIs(m, area, c, r);
    w := WordInPiece(m, area, c, r);
    WordFacts(m, area, w);
    RelocFacts(m, r);
    ItemIsMode(m, r, start, p);
    SlotInArea(m, r);
  }

  /** What the linker reads for it: the word's place and value, and the target to add. */
  lemma ItemMeans(m: Module, p: ParsedRel, base: Bases, defs: Defs, area: string, c: seq<EmittedWord>, r: Reloc,
                  w: EmittedWord)
    requires WellFormed(m) && Reads(p, m) && area in AreaNames(m) && AreaPlaced(m, base, area)
    requires c != [] && Consecutive(c, false) && (forall w | w in c :: w in WordsOf(m, area)) && w in c
    requires Patches(m, r, w) && r.byteAddr == 2 * w.address && r.byteAddr >= 2 * c[0].address
    ensures var chunk, it := ChunkOf(BodyOf(m, TablesOf(m), area), c), ItemFor(r, 2 * c[0].address, TablesOf(m));
      FieldAddr(base, chunk, it) == base[area] + 2 * w.address &&
      DataAt(chunk, it.rtp - 2) * 256 + DataAt(chunk, it.rtp - 1) == w.value &&
      Delta(p, base, defs, chunk, it) == Added(base, defs, r)
  {
    hide WellFormed, AreaNames, WordsOf, TablesOf, ChunkBytes, Claimed, ItemFor, SizeRel, Consecutive, SymbolOrder,
      Renamed, SymbolValue, SourceBase, SymbolAt, AreaAt, Seeded, AllChunks, AreaSizes, CanonicalAreaName,
      RelocArea, Resolvable, ItemsFor;
    var start := 2 * c[0].address;
    var chunk, it := ChunkOf(BodyOf(m, TablesOf(m), area), c), ItemFor(r, start, TablesOf(m));
    assert c[0] in c;
    WordFacts(m, area, c[0]);
    WordFacts(m, area, w);
    MnModule(m);
    assert chunk.areaName == area && chunk.tAddr == start && chunk.data == ChunkBytes(c);
    RelocFacts(m, r);
    ItemIsMode(m, r, start, p);
    WordUnderField(c, r, w);
  }

  lemma ItemLinked(ms: seq<Module>, rels: seq<ParsedRel>, bases: seq<Bases>, defs: Defs, i: nat, area: string,
                   c: seq<EmittedWord>, it: Item)
    requires AllPlaced(ms, rels, bases) && i < |ms| && area in AreaNames(ms[i])
    requires c != [] && Consecutive(c, false) && forall w | w in c :: w in WordsOf(ms[i], area)
    requires it in ChunkOf(BodyOf(ms[i], TablesOf(ms[i]), area), c).items && it.mode % 2 == 0
    ensures var chunk := ChunkOf(BodyOf(ms[i], TablesOf(ms[i]), area), c);
      Read16(Image(ms, bases, defs), FieldAddr(bases[i], chunk, it)) ==
      (DataAt(chunk, it.rtp - 2) * 256 + DataAt(chunk, it.rtp - 1) +
       Delta(rels[i], bases[i], defs, chunk, it)) % 0x1_0000
  {
    hide WellFormed, AreaNames, WordsOf, ModulesApart, AreasApart, Image, TablesOf, ChunkOf, Read16, ItemFor,
      FieldAddr, DataAt, Delta, Consecutive, LinkedWord, Reads, Patches, Placeholder, Added, SizeRel;
    var m, base := ms[i], bases[i];
    assert ModulePlaced(m, rels[i], base) && AreaPlaced(m, base, area);
    var r, w := ItemReloc(m, rels[i], area, c, it);
    ItemMeans(m, rels[i], base, defs, area, c, r, w);
    WordFacts(m, area, w);
    ImageHolds(ms, rels, bases, defs, i, w, base[area] + 2 * w.address);
    PatchedWord(m, base, defs, r, w);
  }

  lemma RelocFacts(m: Module, r: Reloc)
    requires WellFormed(m) && r in m.relocs
    ensures Resolvable(m, r) && !r.left.Const? && (r.left.Word? ==> r.left.area.Some?)
  {
    hide Sits, Fits, NoClash, AreaNames, SymbolOrder;
  }

  lemma ClaimedIs(m: Module, area: string, c: seq<EmittedWord>, r: Reloc)
    requires WellFormed(m) && c != []
    ensures r in Claimed(BodyOf(m, TablesOf(m), area), c) <==>
        r in m.relocs && RelocArea(r) == area && 2 * c[0].address <= r.byteAddr < 2 * c[0].address + 2 * |c|
  {
    hide WellFormed, TablesOf, Within, RelocArea, RelocsOf, Slots, NoDup;
    var b := BodyOf(m, TablesOf(m), area);
    MnModule(m);
    AreaOfBody(m, area);
    WithinHas(b.relocs, 2 * c[0].address, 2 * c[0].address + 2 * |c|);
  }

  lemma ByteLinked(ms: seq<Module>, rels: seq<ParsedRel>, bases: seq<Bases>, defs: Defs, i: nat, area: string,
                   c: seq<EmittedWord>, d: nat)
    requires AllPlaced(ms, rels, bases) && i < |ms| && area in AreaNames(ms[i])
    requires c != [] && Consecutive(c, false) && forall w | w in c :: w in WordsOf(ms[i], area)
    requires var chunk := ChunkOf(BodyOf(ms[i], TablesOf(ms[i]), area), c);
      d < |chunk.data| && forall it :: !CoversByte(chunk, it, d)
    ensures var chunk := ChunkOf(BodyOf(ms[i], TablesOf(ms[i]), area), c);
      area in bases[i] && Get(Image(ms, bases, defs), bases[i][area] + chunk.tAddr + d) == chunk.data[d]
  {
    hide WellFormed, AreaNames, WordsOf, ModulesApart, AreasApart, Image, TablesOf, Claimed, ItemFor, SizeRel, Reads,
      RelocArea;
    var m, p, base, t := ms[i], rels[i], bases[i], TablesOf(ms[i]);
    assert ModulePlaced(m, p, base) && AreaPlaced(m, base, area);
    var b := BodyOf(m, t, area);
    var chunk, start, w := ChunkOf(b, c), 2 * c[0].address, c[d / 2];
    assert w in c && c[0] in c;
    WordFacts(m, area, c[0]);
    WordFacts(m, area, w);
    assert ByteAddr(c[d / 2], false) == ByteAddr(c[0], false) + 2 * (d / 2);
    MnModule(m);
    assert chunk.tAddr == start;
    forall r ensures !Patches(m, r, w) {
      if Patches(m, r, w) {
        PatchCovers(m, p, area, c, d, r);
      }
    }
    ImageHolds(ms, rels, bases, defs, i, w, base[area] + 2 * w.address);
  }

  /** A patched word has an item over both its bytes. */
  lemma PatchCovers(m: Module, p: ParsedRel, area: string, c: seq<EmittedWord>, d: nat, r: Reloc)
    requires WellFormed(m) && Reads(p, m) && c != [] && d / 2 < |c| && Consecutive(c, false)
    requires CanonicalAreaName(c[d / 2].area) == area && Patches(m, r, c[d / 2])
    ensures exists it :: CoversByte(ChunkOf(BodyOf(m, TablesOf(m), area), c), it, d)
  {
    hide WellFormed, AreaNames, TablesOf, ItemFor, Claimed, ChunkOf, ChunkBytes, SymbolOrder, Renamed, AllChunks,
      AreaSizes, AreaAt, SymbolAt, WordsOf, SizeRel, BodyOf, HasAddress, RelocArea, Slot, CanonicalAreaName,
      Resolvable;
    assert ByteAddr(c[d / 2], false) == ByteAddr(c[0], false) + 2 * (d / 2);
    SlotInArea(m, r);
    ClaimedIs(m, area, c, r);
    MnModule(m);
    RelocFacts(m, r);
    ItemWritten(m, area, c, r);
    ItemIsMode(m, r, 2 * c[0].address, p);
    var it := ItemFor(r, 2 * c[0].address, TablesOf(m));
    assert CoversByte(ChunkOf(BodyOf(m, TablesOf(m), area), c), it, d);
  }

  // ----- the whole image

  /** For every placement there is an image that the linker's description fits. */
  lemma ImageIsLinked(ms: seq<Module>, rels: seq<ParsedRel>, defs: Defs)
    requires AllPlaced(ms, rels, LinkerBases(rels, defs))
    ensures Linked(Image(ms, LinkerBases(rels, defs), defs), rels, defs)
  {
    hide LinkerBases, WellFormed, AreaNames, WordsOf, ModulesApart, Image, TablesOf, ChunkOf, ChunkLinked, Chunks,
      Consecutive, AreaPlaced, AreasApart;
    var bases := LinkerBases(rels, defs);
    forall i, n | 0 <= i < |rels| && 0 <= n < |rels[i].chunks|
      ensures ChunkLinked(Image(ms, bases, defs), rels[i], bases[i], defs, rels[i].chunks[n])
    {
      assert ModulePlaced(ms[i], rels[i], bases[i]);
      MnModule(ms[i]);
      var area, k := ChunkFrom(ms[i], TablesOf(ms[i]), AreaNames(ms[i]), n);
      PieceWords(ms[i], area, k);
      PieceLinked(ms, rels, bases, defs, i, area, Chunks(WordsOf(ms[i], area), false)[k]);
    }
  }

  /** So a link of landed modules never lacks an image to start from. */
  lemma SomeImageIsLinked(ms: seq<Module>, rels: seq<ParsedRel>, defs: Defs)
    requires Landed(ms, rels, defs)
    ensures exists bytes :: Linked(bytes, rels, defs)
  {
    hide Landed, Linked, AllPlaced, Image, LinkerBases;
    LandedIsPlaced(ms, rels, defs);
    assert |LinkerBases(rels, defs)| == |ms| by { PlacedLengths(ms, rels, defs); }
    ImageIsLinked(ms, rels, defs);
  }

  lemma PlacedLengths(ms: seq<Module>, rels: seq<ParsedRel>, defs: Defs)
    requires AllPlaced(ms, rels, LinkerBases(rels, defs))
    ensures |LinkerBases(rels, defs)| == |ms| == |rels|
  {
    hide ModulePlaced, ModulesApart;
  }
}
