/** From what a link really assumes — even area bases, room below 64 KiB, no two words on one byte — to
    the placement the theorems of the pipeline start from. */
module Landing {
  import opened Assembly
  import opened RelWriter
  import opened RelParser
  import opened RelRoundTrip
  import opened SdldLink
  import opened AreaBases
  import opened WordAddressLink
  import opened LinkTheorem

  // ----- the writer accepts every well-formed module

  lemma {:induction false} ItemsAccepted(rs: seq<Reloc>, start: nat, end: nat, t: Tables)
    requires forall r | r in rs :: RelocItem(r, 0, t).Some?
    ensures Items(rs, start, end, t).Ok?
  {
    if rs != [] {
      ItemsAccepted(rs[1..], start, end, t);
      assert rs[0] in rs;
      assert rs[0].byteAddr >= start ==> RelocItem(rs[0], 2 + (rs[0].byteAddr - start), t).Some?;
    }
  }

  lemma {:induction false} BodyAccepted(b: Body, s: seq<EmittedWord>)
    requires forall r | r in b.relocs :: RelocItem(r, 0, b.t).Some?
    ensures BodyLines(b, s).Ok?
    decreases |s|
  {
    hide Chunks, Items, RelocItem, Consecutive;
    if s != [] {
      var n := FirstChunk(s, b.byteAddrs);
      var start := ByteAddr(s[0], b.byteAddrs);
      ItemsAccepted(b.relocs, start, start + 2 * n, b.t);
      BodyAccepted(b, s[n..]);
    }
  }

  lemma {:induction false} AreasAccepted(m: Module, t: Tables, names: seq<string>)
    requires forall r | r in m.relocs :: RelocItem(r, 0, t).Some?
    ensures AllAreaLines(m, t, names).Ok?
  {
    hide BodyLines, RelocItem, SizeRel, DefLines, CheckpointLines, WordsOf;
    if names != [] {
      SelectRelocsHas(m.relocs, names[0]);
      BodyAccepted(BodyOf(m, t, names[0]), WordsOf(m, names[0]));
      AreasAccepted(m, t, names[1..]);
    }
  }

  /** The writer never stops on a well-formed module. */
  lemma WriterAccepts(m: Module, moduleName: string)
    requires WellFormed(m)
    ensures RelText(m, moduleName).Ok?
  {
    hide AreaNames, SymbolOrder, AllAreaLines, HeadLines, NoClash, Sits, InfoSize;
    forall r | r in m.relocs ensures RelocItem(r, 0, TablesOf(m)).Some? {
      assert Resolvable(m, r);
    }
    AreasAccepted(m, TablesOf(m), AreaNames(m));
  }

  // ----- and no module with a relocation it cannot write

  lemma {:induction false} ItemsNeeded(rs: seq<Reloc>, start: nat, end: nat, t: Tables)
    requires Items(rs, start, end, t).Ok?
    ensures forall r | r in rs && start <= r.byteAddr < end :: RelocItem(r, 0, t).Some?
  {
    if rs != [] {
      ItemsNeeded(rs[1..], start, end, t);
    }
  }

  lemma {:induction false} BodyNeeded(b: Body, s: seq<EmittedWord>)
    requires !b.byteAddrs && Strict(s) && BodyLines(b, s).Ok?
    ensures forall r | r in b.relocs && HasAddress(s, Slot(r)) :: RelocItem(r, 0, b.t).Some?
    decreases |s|
  {
    hide Chunks, Items, RelocItem, Consecutive, Strict;
    if s != [] {
      var n := FirstChunk(s, false);
      var c, start := s[..n], ByteAddr(s[0], false);
      StrictParts(s, n);
      ItemsNeeded(b.relocs, start, start + 2 * n, b.t);
      BodyNeeded(b, s[n..]);
      ChunkWords(s, n);
      assert s == c + s[n..];
      forall r | r in b.relocs && HasAddress(s, Slot(r)) ensures RelocItem(r, 0, b.t).Some? {
        assert HasAddress(c, Slot(r)) || HasAddress(s[n..], Slot(r));
      }
    }
  }

  lemma {:induction false} AreaNeeded(m: Module, t: Tables, names: seq<string>, area: string)
    requires area in names && AllAreaLines(m, t, names).Ok?
    ensures AreaLines(m, t, area).Ok?
  {
    hide AreaLines;
    if area != names[0] {
      AreaNeeded(m, t, names[1..], area);
    }
  }

  /** The writer stops exactly at a relocation whose symbol or area has no number: on any module with one
      word per address and every relocation on a word. */
  lemma WriterAcceptsIff(m: Module, moduleName: string)
    requires !m.byteAddrs && NoClash(m.words) && forall r | r in m.relocs :: Sits(m, r)
    ensures RelText(m, moduleName).Ok? <==> forall r | r in m.relocs :: RelocItem(r, 0, TablesOf(m)).Some?
  {
    hide AreaNames, SymbolOrder, AllAreaLines, HeadLines, NoClash, Sits, RelocItem, TablesOf;
    var t := TablesOf(m);
    if forall r | r in m.relocs :: RelocItem(r, 0, t).Some? {
      AreasAccepted(m, t, AreaNames(m));
    }
    if RelText(m, moduleName).Ok? {
      forall r | r in m.relocs ensures RelocItem(r, 0, t).Some? {
        assert Sits(m, r);
        RelocNeeded(m, t, r);
      }
    }
  }

  lemma RelocNeeded(m: Module, t: Tables, r: Reloc)
    requires !m.byteAddrs && NoClash(m.words) && r in m.relocs && Sits(m, r) && AllAreaLines(m, t, AreaNames(m)).Ok?
    ensures RelocItem(r, 0, t).Some?
  {
    hide AreaNames, AllAreaLines, NoClash, RelocItem, BodyLines, DefLines, CheckpointLines, SizeRel, WordsOf,
      SelectRelocs, RelocArea, CanonicalAreaName, Slot;
    var area := RelocArea(r);
    var w :| w in m.words && CanonicalAreaName(w.area) == area && Placeholder(w, r);
    WordAreaNamed(m, w);
    AreaNeeded(m, t, AreaNames(m), area);
    WordsOfArea(m, area);
    SelectRelocsHas(m.relocs, area);
    assert w in WordsOf(m, area) && w.address == Slot(r);
    BodyNeeded(BodyOf(m, t, area), WordsOf(m, area));
  }

  // ----- where areas land

  /** Every module's part of the area, the gaps `.org` leaves included, ends at or below 64 KiB, and the
      area starts at an even byte. */
  ghost predicate Roomy(rels: seq<ParsedRel>, defs: Defs, area: string) {
    AreaStart(defs, area) % 2 == 0 &&
    forall j | 0 <= j < |rels| && area in rels[j].areas ::
      PartStart(rels, defs, j, area) + SizeOf(rels[j], area) <= 0x1_0000
  }

  /** The byte at which module `i`'s word lands. */
  function PlaceOf(rels: seq<ParsedRel>, defs: Defs, i: nat, w: EmittedWord): int
    requires i < |rels|
  {
    var base, area := LinkerBases(rels, defs)[i], CanonicalAreaName(w.area);
    (if area in base then base[area] else 0) + 2 * w.address
  }

  /** Words the linker does not keep apart by itself: of different areas, or of the overlay `_VECTOR` in
      different modules. */
  predicate MayCollide(i: nat, v: EmittedWord, j: nat, w: EmittedWord) {
    CanonicalAreaName(v.area) != CanonicalAreaName(w.area) || (i != j && CanonicalAreaName(v.area) == "_VECTOR")
  }

  /** No two such words land on one byte.  The spans of the areas may overlap. */
  ghost predicate WordsApart(ms: seq<Module>, rels: seq<ParsedRel>, defs: Defs)
    requires |rels| == |ms|
  {
    forall i: nat, j: nat, v, w |
      i < |ms| && j < |ms| && v in ms[i].words && w in ms[j].words && MayCollide(i, v, j, w) ::
      PlaceOf(rels, defs, i, v) != PlaceOf(rels, defs, j, w)
  }

  /** The assumptions of a link, about its inputs and about where the linker started each area. */
  ghost predicate Landed(ms: seq<Module>, rels: seq<ParsedRel>, defs: Defs) {
    |rels| == |ms| &&
    (forall i | 0 <= i < |ms| :: WellFormed(ms[i]) && Reads(rels[i], ms[i])) &&
    (forall i, a | 0 <= i < |ms| && a in AreaNames(ms[i]) :: Roomy(rels, defs, a)) &&
    WordsApart(ms, rels, defs)
  }

  lemma SizesRead(m: Module, p: ParsedRel, area: string)
    requires WellFormed(m) && Reads(p, m) && area in AreaNames(m)
    ensures SizeOf(p, area) == SizeRel(m, area) && SizeRel(m, area) % 2 == 0
  {
    hide AreaNames, WellFormed, SizeRel, AllChunks, Renamed, InfoSize, SymbolOrder, TablesOf;
    SizeIsDoubled(m, area);
  }

  lemma SharesEven(ms: seq<Module>, rels: seq<ParsedRel>, defs: Defs, area: string)
    requires Landed(ms, rels, defs)
    ensures forall k | 0 <= k < |rels| :: Share(rels[k], area) % 2 == 0
  {
    hide AreaNames, WellFormed, Roomy, WordsApart, SizeOf, AllChunks, Renamed, AreaSizes, SymbolOrder, TablesOf,
      SizeRel;
    forall k | 0 <= k < |rels| ensures Share(rels[k], area) % 2 == 0 {
      assert WellFormed(ms[k]) && Reads(rels[k], ms[k]);
      if area in AreaNames(ms[k]) {
        SizesRead(ms[k], rels[k], area);
      }
    }
  }

  lemma RoomyFits(rels: seq<ParsedRel>, defs: Defs, area: string, i: nat)
    requires Roomy(rels, defs, area) && i < |rels| && area in rels[i].areas
    ensures AreaFits(rels, defs, area)
  {
    hide AreaStart, SizeOf, Share;
    assert PartStart(rels, defs, i, area) + SizeOf(rels[i], area) <= 0x1_0000;
    PartsFit(rels, AreaStart(defs, area), area, 0x1_0000);
  }

  /** A module's part of an area starts at an even base and ends below 64 KiB. */
  lemma AreaHasRoom(ms: seq<Module>, rels: seq<ParsedRel>, defs: Defs, i: nat, area: string)
    requires Landed(ms, rels, defs) && i < |ms| && area in AreaNames(ms[i])
    ensures AreaPlaced(ms[i], LinkerBases(rels, defs)[i], area)
  {
    hide AreaNames, WellFormed, WordsApart, SizeRel, AllChunks, Renamed, AreaSizes, SizeOf, SymbolOrder, TablesOf,
      Share, SharesBefore, AreaStart;
    assert WellFormed(ms[i]) && Reads(rels[i], ms[i]) && Roomy(rels, defs, area);
    SizesRead(ms[i], rels[i], area);
    SharesEven(ms, rels, defs, area);
    BeforeEven(rels, i, area);
  }

  /** A word the area holds lies where the area's base puts it. */
  lemma WordPlace(m: Module, rels: seq<ParsedRel>, defs: Defs, i: nat, area: string, x: int) returns (w: EmittedWord)
    requires WellFormed(m) && i < |rels| && InArea(m, LinkerBases(rels, defs)[i], area, x)
    ensures w in m.words && CanonicalAreaName(w.area) == area && PlaceOf(rels, defs, i, w) == x
    ensures w in WordsOf(m, area) && LinkerBases(rels, defs)[i][area] + 2 * w.address == x
  {
    hide WellFormed, LinkerBases, WordsOf, CanonicalAreaName;
    WordsDoNotClash(m);
    WordsOfArea(m, area);
    var base := LinkerBases(rels, defs)[i];
    w :| w in WordsOf(m, area) && base[area] + 2 * w.address == x;
  }

  lemma NotOnePlace(ms: seq<Module>, rels: seq<ParsedRel>, defs: Defs, i: nat, v: EmittedWord, j: nat, w: EmittedWord)
    requires |rels| == |ms| && WordsApart(ms, rels, defs) && i < |ms| && j < |ms|
    requires v in ms[i].words && w in ms[j].words && MayCollide(i, v, j, w)
    ensures PlaceOf(rels, defs, i, v) != PlaceOf(rels, defs, j, w)
  {
    hide PlaceOf, MayCollide;
  }

  lemma CollidingApart(ms: seq<Module>, rels: seq<ParsedRel>, defs: Defs, i: nat, a: string, j: nat, b: string)
    requires |rels| == |ms| && WordsApart(ms, rels, defs) && i < |ms| && j < |ms|
    requires WellFormed(ms[i]) && WellFormed(ms[j])
    requires a != b || (a == "_VECTOR" && i != j)
    ensures var bases := LinkerBases(rels, defs); AreasApart(ms[i], bases[i], a, ms[j], bases[j], b)
  {
    hide WellFormed, WordsApart, LinkerBases, InArea, WordsOf, CanonicalAreaName, PlaceOf;
    var bases := LinkerBases(rels, defs);
    forall x ensures !(InArea(ms[i], bases[i], a, x) && InArea(ms[j], bases[j], b, x)) {
      if InArea(ms[i], bases[i], a, x) && InArea(ms[j], bases[j], b, x) {
        var v := WordPlace(ms[i], rels, defs, i, a, x);
        var w := WordPlace(ms[j], rels, defs, j, b, x);
        NotOnePlace(ms, rels, defs, i, v, j, w);
      }
    }
  }

  lemma SameAreaApart(ms: seq<Module>, rels: seq<ParsedRel>, defs: Defs, i: nat, j: nat, a: string)
    requires Landed(ms, rels, defs) && i < j < |ms| && a in AreaNames(ms[i]) && a in AreaNames(ms[j]) && a != "_VECTOR"
    ensures var bases := LinkerBases(rels, defs); AreasApart(ms[i], bases[i], a, ms[j], bases[j], a)
  {
    hide AreaNames, WellFormed, SizeRel, WordsApart, Roomy, AllChunks, Renamed, AreaSizes, InArea, WordsOf, PartStart;
    assert Reads(rels[i], ms[i]) && WellFormed(ms[i]) && Roomy(rels, defs, a);
    assert Reads(rels[j], ms[j]) && WellFormed(ms[j]);
    RoomyFits(rels, defs, a, i);
    assert a in rels[i].areas && a in rels[j].areas;
    SharesAreDisjoint(rels, defs, i, j, a);
    SizesRead(ms[i], rels[i], a);
    SizeIsDoubled(ms[i], a);
    var bases := LinkerBases(rels, defs);
    forall x ensures !(InArea(ms[i], bases[i], a, x) && InArea(ms[j], bases[j], a, x)) {
      if InArea(ms[i], bases[i], a, x) && InArea(ms[j], bases[j], a, x) {
        var v := WordPlace(ms[i], rels, defs, i, a, x);
        var w := WordPlace(ms[j], rels, defs, j, a, x);
      }
    }
  }

  /** Under these assumptions every area is placed, and no two areas of any modules share the place of a
      word. */
  lemma LandedIsPlaced(ms: seq<Module>, rels: seq<ParsedRel>, defs: Defs)
    requires Landed(ms, rels, defs)
    ensures AllPlaced(ms, rels, LinkerBases(rels, defs))
  {
    hide AreaNames, WellFormed, Reads, LinkerBases, AreaPlaced, AreasApart, Roomy, WordsApart;
    var bases := LinkerBases(rels, defs);
    forall i | 0 <= i < |ms| ensures ModulePlaced(ms[i], rels[i], bases[i]) {
      forall a | a in AreaNames(ms[i]) ensures AreaPlaced(ms[i], bases[i], a) { AreaHasRoom(ms, rels, defs, i, a); }
      forall a, b | a in AreaNames(ms[i]) && b in AreaNames(ms[i]) && a != b
        ensures AreasApart(ms[i], bases[i], a, ms[i], bases[i], b)
      {
        assert WellFormed(ms[i]);
        CollidingApart(ms, rels, defs, i, a, i, b);
      }
    }
    forall i, j | 0 <= i < j < |ms| ensures ModulesApart(ms[i], bases[i], ms[j], bases[j]) {
      forall a, b | a in AreaNames(ms[i]) && b in AreaNames(ms[j])
        ensures AreasApart(ms[i], bases[i], a, ms[j], bases[j], b)
      {
        if a == b && a != "_VECTOR" {
          SameAreaApart(ms, rels, defs, i, j, a);
        } else {
          assert WellFormed(ms[i]) && WellFormed(ms[j]);
          CollidingApart(ms, rels, defs, i, a, j, b);
        }
      }
    }
  }

  // ----- the pipeline, end to end

  /** The files of all modules, written and read back. */
  ghost predicate Files(ms: seq<Module>, moduleNames: seq<string>, rels: seq<ParsedRel>) {
    |moduleNames| == |ms| == |rels| &&
    forall i | 0 <= i < |ms| ::
      RelText(ms[i], moduleNames[i]).Ok? && rels[i] == ParsedText(RelText(ms[i], moduleNames[i]).value)
  }

  /** For any list of well-formed modules: write the files, link them in bytes at areas that have room,
      no two words on one byte, halve the relocated fields; the result is the word-address link.  Every 16-bit
      field holds its target's word address; a low-byte field holds the low byte of it unless bit 7 of
      the offset is set; every other byte is as the linker left it. */
  lemma LinkedInWords(ms: seq<Module>, moduleNames: seq<string>, rels: seq<ParsedRel>, defs: Defs, bytes: ByteMap)
    requires Files(ms, moduleNames, rels) && forall i | 0 <= i < |ms| :: WellFormed(ms[i])
    requires forall i, a | 0 <= i < |ms| && a in AreaNames(ms[i]) :: Roomy(rels, defs, a)
    requires WordsApart(ms, rels, defs)
    requires Linked(bytes, rels, defs)
    requires forall i: nat, r | i < |ms| && r in ms[i].relocs :: TargetFits(LinkerBases(rels, defs)[i], defs, r)
    ensures forall i: nat, r | i < |ms| && r in ms[i].relocs ::
      FieldRight(ms, rels, defs, Fixed(bytes, rels, defs), i, r)
    ensures forall x | !InField(ms, rels, defs, x) :: Get(Fixed(bytes, rels, defs), x) == Get(bytes, x)
  {
    hide WellFormed, LinkerBases, Linked, AreaNames, Fixed, TargetFits, FieldAt, InField, RelText, AllPlaced,
      FieldRight, WordsApart, Roomy, Reads, ParsedText;
    forall i | 0 <= i < |ms| ensures Reads(rels[i], ms[i]) { WrittenAndRead(ms[i], moduleNames[i]); }
    LandedIsPlaced(ms, rels, defs);
    forall i: nat, r | i < |ms| && r in ms[i].relocs
      ensures FieldRight(ms, rels, defs, Fixed(bytes, rels, defs), i, r)
    {
      OneField(ms, rels, defs, bytes, i, r);
    }
    forall x | !InField(ms, rels, defs, x) ensures Get(Fixed(bytes, rels, defs), x) == Get(bytes, x) {
      OtherBytes(ms, rels, defs, bytes, x);
    }
  }

  /** The field of the relocation holds its target's word address, or the low byte of it. */
  ghost predicate FieldRight(ms: seq<Module>, rels: seq<ParsedRel>, defs: Defs, out: ByteMap, i: nat, r: Reloc)
    requires i < |rels|
  {
    var target := TargetWord(LinkerBases(rels, defs)[i], defs, r);
    (r.width.Word16? ==> Read16(out, FieldAt(rels, defs, i, r)) == target) &&
    (r.width.Low8? ==> (Get(out, FieldAt(rels, defs, i, r)) == target % 256 <==> KeepsBit7(r)))
  }

  lemma OneField(ms: seq<Module>, rels: seq<ParsedRel>, defs: Defs, bytes: ByteMap, i: nat, r: Reloc)
    requires AllPlaced(ms, rels, LinkerBases(rels, defs)) && Linked(bytes, rels, defs)
    requires i < |ms| && r in ms[i].relocs && TargetFits(LinkerBases(rels, defs)[i], defs, r)
    ensures FieldRight(ms, rels, defs, Fixed(bytes, rels, defs), i, r)
  {
    hide LinkerBases, Linked, Fixed, TargetFits, FieldAt, AllPlaced, Read16, TargetWord;
    if r.width.Word16? {
      WordFields(ms, rels, defs, bytes, i, r);
    } else {
      LowByteFields(ms, rels, defs, bytes, i, r);
    }
  }

  lemma WrittenAndRead(m: Module, moduleName: string)
    requires WellFormed(m) && RelText(m, moduleName).Ok?
    ensures Reads(ParsedText(RelText(m, moduleName).value), m)
  {
    hide AreaNames, RelText, ParsedText, Renamed, SymbolOrder, AllChunks, AreaSizes, NoClash, Sits, Resolvable,
      InfoSize, TablesOf, Fits;
    RoundTrip(m, moduleName);
  }
}
