/** Words that no relocation is on: link and fixup leave them as they were emitted. */
module FreeWords {
  import opened Assembly
  import opened RelWriter
  import opened RelParser
  import opened RelRoundTrip
  import opened SdldLink
  import opened AreaBases
  import opened WordAddressLink
  import opened LinkTheorem
  import opened LinkedImage

  ghost predicate Free(m: Module, w: EmittedWord) {
    forall r | r in m.relocs :: RelocArea(r) != CanonicalAreaName(w.area) || Slot(r) != w.address
  }

  /** No item of a chunk is over a byte of a word that no relocation is on. */
  lemma NotCovered(m: Module, p: ParsedRel, area: string, c: seq<EmittedWord>, d: nat, it: Item)
    requires WellFormed(m) && Reads(p, m) && area in AreaNames(m)
    requires c != [] && Consecutive(c, false) && d / 2 < |c|
    requires CanonicalAreaName(c[d / 2].area) == area && Free(m, c[d / 2])
    ensures !CoversByte(ChunkOf(BodyOf(m, TablesOf(m), area), c), it, d)
  {
    hide WellFormed, AreaNames, TablesOf, ItemFor, Claimed, ChunkBytes, SymbolOrder, Renamed, AllChunks, AreaSizes,
      AreaAt, SymbolAt, RelocArea, CanonicalAreaName, Resolvable;
    var b, start := BodyOf(m, TablesOf(m), area), 2 * c[0].address;
    MnModule(m);
    var chunk := ChunkOf(b, c);
    if it in chunk.items {
      var j :| 0 <= j < |Claimed(b, c)| && chunk.items[j] == it;
      var r := Claimed(b, c)[j];
      assert r in Claimed(b, c) && it == ItemFor(r, start, TablesOf(m));
      ClaimedIs(m, area, c, r);
      RelocFacts(m, r);
      ItemIsMode(m, r, start, p);
      assert ByteAddr(c[d / 2], false) == ByteAddr(c[0], false) + 2 * (d / 2);
      FieldParity(m, r);
      Halves(r.byteAddr, start, d);
    }
  }

  lemma FieldParity(m: Module, r: Reloc)
    requires WellFormed(m) && r in m.relocs
    ensures r.byteAddr == 2 * Slot(r) + (if r.width.Low8? then 1 else 0)
  {
    hide WellFormed;
    SlotInArea(m, r);
  }

  lemma Halves(at: nat, start: nat, d: nat)
    requires start % 2 == 0
    ensures at - start == d || (at % 2 == 0 && at - start + 1 == d) ==> at / 2 == start / 2 + d / 2
  {
  }

  /** Word `w` in a piece of its area. */
  lemma {:induction false} PieceHolding(cs: seq<seq<EmittedWord>>, w: EmittedWord) returns (k: nat, j: nat)
    requires w in Join(cs)
    ensures k < |cs| && j < |cs[k]| && cs[k][j] == w
  {
    if w in cs[0] {
      k := 0;
      j :| 0 <= j < |cs[0]| && cs[0][j] == w;
    } else {
      var k';
      k', j := PieceHolding(cs[1..], w);
      k := k' + 1;
    }
  }

  /** The linker leaves a word without a relocation as it was emitted. */
  lemma FreeLinked(bytes: ByteMap, m: Module, p: ParsedRel, base: Bases, defs: Defs, w: EmittedWord)
    requires ModulePlaced(m, p, base) && w in m.words && Free(m, w)
    requires forall k | 0 <= k < |p.chunks| :: ChunkLinked(bytes, p, base, defs, p.chunks[k])
    ensures CanonicalAreaName(w.area) in base
    ensures Read16(bytes, base[CanonicalAreaName(w.area)] + 2 * w.address) == w.value
  {
    hide WellFormed, AreaNames, WordsOf, Chunks, Consecutive, TablesOf, CanonicalAreaName, AllChunks, AreaSizes,
      AreasApart, ChunkOf, Free, Renamed, MayPart, SizeRel, BodyOf, ChunkLinked;
    var area, t := CanonicalAreaName(w.area), TablesOf(m);
    WordAreaNamed(m, w);
    WordsDoNotClash(m);
    WordsOfArea(m, area);
    MnModule(m);
    var cs := Chunks(WordsOf(m, area), false);
    ChunksPartition(WordsOf(m, area), false);
    var k, j := PieceHolding(cs, w);
    PieceWords(m, area, k);
    assert AreaChunks(m, t, area)[k] == ChunkOf(BodyOf(m, t, area), cs[k]);
    var n := ChunkIn(m, t, AreaNames(m), area, k);
    assert ChunkLinked(bytes, p, base, defs, p.chunks[n]);
    FreeInChunk(bytes, m, p, base, defs, area, cs[k], j);
  }

  lemma FreeInChunk(bytes: ByteMap, m: Module, p: ParsedRel, base: Bases, defs: Defs, area: string,
                    c: seq<EmittedWord>, j: nat)
    requires WellFormed(m) && Reads(p, m) && area in AreaNames(m) && AreaPlaced(m, base, area)
    requires c != [] && Consecutive(c, false) && (forall w | w in c :: w in WordsOf(m, area))
    requires j < |c| && Free(m, c[j])
    requires ChunkLinked(bytes, p, base, defs, ChunkOf(BodyOf(m, TablesOf(m), area), c))
    ensures area in base && Read16(bytes, base[area] + 2 * c[j].address) == c[j].value
  {
    hide WellFormed, AreaNames, WordsOf, Consecutive, TablesOf, CanonicalAreaName, Reads, ChunkBytes, Free, CoversByte,
      Claimed, ItemsFor, Lo, Hi, SizeRel, Delta, FieldAddr, DataAt;
    MnModule(m);
    assert c[0] in c && c[j] in c;
    WordFacts(m, area, c[0]);
    WordFacts(m, area, c[j]);
    var chunk := ChunkOf(BodyOf(m, TablesOf(m), area), c);
    assert chunk.areaName == area && chunk.tAddr == 2 * c[0].address && chunk.data == ChunkBytes(c);
    forall d, it | 2 * j <= d <= 2 * j + 1 ensures !CoversByte(chunk, it, d) { NotCovered(m, p, area, c, d, it); }
    FreeBytes(c, j);
    assert Get(bytes, base[area] + chunk.tAddr + 2 * j) == chunk.data[2 * j];
    assert Get(bytes, base[area] + chunk.tAddr + (2 * j + 1)) == chunk.data[2 * j + 1];
  }

  lemma FreeBytes(c: seq<EmittedWord>, j: nat)
    requires c != [] && Consecutive(c, false) && j < |c| && c[j].value < 0x1_0000
    ensures 2 * j + 1 < |ChunkBytes(c)| && c[j].address == c[0].address + j
    ensures ChunkBytes(c)[2 * j] == Hi(c[j].value) && ChunkBytes(c)[2 * j + 1] == Lo(c[j].value)
    ensures Hi(c[j].value) * 256 + Lo(c[j].value) == c[j].value
  {
    assert ByteAddr(c[j], false) == ByteAddr(c[0], false) + 2 * j;
  }

  /** No relocation's field is over a byte of a word that none is on. */
  lemma FreeOfFields(ms: seq<Module>, rels: seq<ParsedRel>, defs: Defs, i: nat, w: EmittedWord, x: int)
    requires AllPlaced(ms, rels, LinkerBases(rels, defs)) && i < |ms| && LiesAt(ms[i], LinkerBases(rels, defs)[i], w, x)
    requires Free(ms[i], w)
    ensures !InField(ms, rels, defs, x) && !InField(ms, rels, defs, x + 1)
  {
    hide LinkerBases, AllPlaced, Free, CanonicalAreaName, RelocArea;
    var bases := LinkerBases(rels, defs);
    PlaceOfWord(ms, rels, bases, i, w, x);
    forall j: nat, r | j < |ms| && r in ms[j].relocs
      ensures var f := FieldAt(rels, defs, j, r);
        f != x && f != x + 1 && (r.width.Word16? ==> f + 1 != x && f + 1 != x + 1)
    {
      var v := WordOfField(ms, rels, defs, j, r);
      var y := bases[j][RelocArea(r)] + 2 * v.address;
      PlaceOfWord(ms, rels, bases, j, v, y);
      if x == y {
        OneWord(ms, rels, bases, i, w, j, v, x);
        FreeMisses(ms[i], w, r);
      }
    }
  }

  lemma FreeMisses(m: Module, w: EmittedWord, r: Reloc)
    requires Free(m, w) && r in m.relocs
    ensures RelocArea(r) != CanonicalAreaName(w.area) || Slot(r) != w.address
  {
  }

  /** The word under a relocation's field. */
  lemma WordOfField(ms: seq<Module>, rels: seq<ParsedRel>, defs: Defs, i: nat, r: Reloc) returns (w: EmittedWord)
    requires AllPlaced(ms, rels, LinkerBases(rels, defs)) && i < |ms| && r in ms[i].relocs
    ensures w.address == Slot(r) && CanonicalAreaName(w.area) == RelocArea(r) && w in ms[i].words
    ensures RelocArea(r) in LinkerBases(rels, defs)[i]
    ensures var y := LinkerBases(rels, defs)[i][RelocArea(r)] + 2 * w.address;
      LiesAt(ms[i], LinkerBases(rels, defs)[i], w, y) &&
      FieldAt(rels, defs, i, r) == y + (if r.width.Low8? then 1 else 0)
  {
    hide WellFormed, LinkerBases, ModulesApart, AreasApart, RelocArea, CanonicalAreaName, AreaNames, Reads, Slot,
      Placeholder, HasAddress, SizeRel;
    var bases := LinkerBases(rels, defs);
    assert ModulePlaced(ms[i], rels[i], bases[i]);
    SlotInArea(ms[i], r);
    assert AreaPlaced(ms[i], bases[i], RelocArea(r));
    w := SittingWord(ms[i], r);
  }

  lemma SittingWord(m: Module, r: Reloc) returns (w: EmittedWord)
    requires WellFormed(m) && r in m.relocs
    ensures w in m.words && CanonicalAreaName(w.area) == RelocArea(r) && w.address == Slot(r)
  {
    hide RelocArea, CanonicalAreaName, NoClash, Resolvable, Fits, AreaNames, InfoSize, TablesOf;
    assert Sits(m, r);
    w :| w in m.words && CanonicalAreaName(w.area) == RelocArea(r) && Placeholder(w, r);
  }

  /** A word without a relocation stands in the fixed image as it was emitted. */
  lemma FreeWord(ms: seq<Module>, rels: seq<ParsedRel>, defs: Defs, bytes: ByteMap, i: nat, w: EmittedWord)
    requires AllPlaced(ms, rels, LinkerBases(rels, defs)) && Linked(bytes, rels, defs)
    requires i < |ms| && w in ms[i].words && Free(ms[i], w)
    ensures var area := CanonicalAreaName(w.area);
      area in LinkerBases(rels, defs)[i] &&
      Read16(Fixed(bytes, rels, defs), LinkerBases(rels, defs)[i][area] + 2 * w.address) == w.value
  {
    hide LinkerBases, ModulePlaced, ModulesApart, Free, CanonicalAreaName, Fixed, ChunkLinked;
    var bases := LinkerBases(rels, defs);
    assert ModulePlaced(ms[i], rels[i], bases[i]);
    FreeLinked(bytes, ms[i], rels[i], bases[i], defs, w);
    var x := bases[i][CanonicalAreaName(w.area)] + 2 * w.address;
    FreeOfFields(ms, rels, defs, i, w, x);
    OtherBytes(ms, rels, defs, bytes, x);
    OtherBytes(ms, rels, defs, bytes, x + 1);
  }
}
