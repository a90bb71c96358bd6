/** Doubling, linking in bytes and halving is linking in words: the REL writer, the linker and the
    fixup together put every relocated field of every module at its target's word address. */
module WordAddressLink {
  import opened Assembly
  import opened RelWriter
  import opened RelParser
  import opened RelRoundTrip
  import opened SdldLink
  import opened Fixup

  // ----- the words of an area

  ghost predicate Strict(s: seq<EmittedWord>) {
    forall i, j | 0 <= i < j < |s| :: s[i].address < s[j].address
  }

  ghost predicate DistinctAddresses(s: seq<EmittedWord>) {
    forall i, j | 0 <= i < j < |s| :: s[i].address != s[j].address
  }

  lemma SameMembers(r: seq<EmittedWord>, s: seq<EmittedWord>, w: EmittedWord)
    requires multiset(r) == multiset(s)
    ensures w in r <==> w in s
  {
    assert w in r <==> w in multiset(r);
    assert w in s <==> w in multiset(s);
  }

  lemma StrictCons(h: EmittedWord, rest: seq<EmittedWord>)
    requires Strict(rest) && forall x | x in rest :: h.address < x.address
    ensures Strict([h] + rest)
  {
  }

  /** Below everything that follows it, the head stays below a larger word put among them. */
  lemma HeadIsLeast(w: EmittedWord, s: seq<EmittedWord>)
    requires Strict(s) && s != [] && s[0].address < w.address
    ensures forall x | x in Insert(w, s[1..]) :: s[0].address < x.address
  {
    hide Insert;
    forall x | x in Insert(w, s[1..]) ensures s[0].address < x.address {
      SameMembers(Insert(w, s[1..]), [w] + s[1..], x);
    }
  }

  lemma {:induction false} InsertStrict(w: EmittedWord, s: seq<EmittedWord>)
    requires Strict(s) && forall x | x in s :: x.address != w.address
    ensures Strict(Insert(w, s))
  {
    if s == [] || w.address <= s[0].address {
      StrictCons(w, s);
    } else {
      assert Strict(s[1..]);
      InsertStrict(w, s[1..]);
      HeadIsLeast(w, s);
      StrictCons(s[0], Insert(w, s[1..]));
    }
  }

  lemma {:induction false} SortStrict(s: seq<EmittedWord>)
    requires DistinctAddresses(s)
    ensures Strict(Sort(s))
  {
    if s != [] {
      SortStrict(s[1..]);
      forall x | x in Sort(s[1..]) ensures x.address != s[0].address {
        SameMembers(Sort(s[1..]), s[1..], x);
      }
      InsertStrict(s[0], Sort(s[1..]));
    }
  }

  lemma {:induction false} SelectWordsHas(ws: seq<EmittedWord>, area: string)
    ensures forall w :: w in SelectWords(ws, area) <==> w in ws && CanonicalAreaName(w.area) == area
  {
    hide CanonicalAreaName;
    if ws != [] {
      SelectWordsHas(ws[1..], area);
    }
  }

  /** No two words of the same area have the same address. */
  ghost predicate NoClash(ws: seq<EmittedWord>) {
    forall i, j | 0 <= i < j < |ws| ::
      CanonicalAreaName(ws[i].area) == CanonicalAreaName(ws[j].area) ==> ws[i].address != ws[j].address
  }

  lemma {:induction false} SelectDistinct(ws: seq<EmittedWord>, area: string)
    requires NoClash(ws)
    ensures DistinctAddresses(SelectWords(ws, area))
  {
    hide CanonicalAreaName;
    if ws != [] {
      SelectDistinct(ws[1..], area);
      SelectWordsHas(ws[1..], area);
      forall x | x in SelectWords(ws[1..], area) && CanonicalAreaName(ws[0].area) == area
        ensures x.address != ws[0].address
      {
        var j :| 0 <= j < |ws[1..]| && ws[1..][j] == x;
        assert ws[j + 1] == x;
      }
    }
  }

  lemma WordsOfArea(m: Module, area: string)
    requires NoClash(m.words)
    ensures Strict(WordsOf(m, area))
    ensures forall w :: w in WordsOf(m, area) <==> w in m.words && CanonicalAreaName(w.area) == area
  {
    hide Sort, SelectWords, NoClash;
    SelectDistinct(m.words, area);
    SortStrict(SelectWords(m.words, area));
    SelectWordsHas(m.words, area);
    forall w ensures w in WordsOf(m, area) <==> w in SelectWords(m.words, area) {
      SameMembers(WordsOf(m, area), SelectWords(m.words, area), w);
    }
  }

  // ----- every relocation is written once

  ghost predicate HasAddress(s: seq<EmittedWord>, a: int) { exists w :: w in s && w.address == a }

  /** The relocations in the order their items are written, chunk by chunk. */
  function Written(b: Body, cs: seq<seq<EmittedWord>>): seq<Reloc>
    requires forall k | 0 <= k < |cs| :: cs[k] != []
  {
    if cs == [] then [] else Claimed(b, cs[0]) + Written(b, cs[1..])
  }

  /** The word a relocation patches, as an address inside its area. */
  function Slot(r: Reloc): nat { r.byteAddr / 2 }

  function Slots(rs: seq<Reloc>): seq<nat> { seq(|rs|, i requires 0 <= i < |rs| => Slot(rs[i])) }

  lemma {:induction false} WithinHas(rs: seq<Reloc>, start: nat, end: nat)
    ensures forall r :: r in Within(rs, start, end) <==> r in rs && start <= r.byteAddr < end
  {
    if rs != [] {
      WithinHas(rs[1..], start, end);
    }
  }

  lemma SlotsConcat(a: seq<Reloc>, b: seq<Reloc>)
    ensures Slots(a + b) == Slots(a) + Slots(b)
  {
  }

  lemma SlotsHas(rs: seq<Reloc>, x: nat)
    requires x in Slots(rs)
    ensures exists r :: r in rs && Slot(r) == x
  {
    var i :| 0 <= i < |Slots(rs)| && Slots(rs)[i] == x;
    assert rs[i] in rs;
  }

  lemma {:induction false} WithinNoDup(rs: seq<Reloc>, start: nat, end: nat)
    requires NoDup(Slots(rs))
    ensures NoDup(Slots(Within(rs, start, end)))
  {
    hide Slot;
    if rs != [] {
      assert rs == [rs[0]] + rs[1..];
      SlotsConcat([rs[0]], rs[1..]);
      NoDupConcat(Slots([rs[0]]), Slots(rs[1..]));
      WithinNoDup(rs[1..], start, end);
      WithinHas(rs[1..], start, end);
      var rest := Within(rs[1..], start, end);
      SlotsConcat([rs[0]], rest);
      forall x | x in Slots(rest) ensures x in Slots(rs[1..]) {
        SlotsHas(rest, x);
        var r :| r in rest && Slot(r) == x;
        var i :| 0 <= i < |rs[1..]| && rs[1..][i] == r;
        assert Slots(rs[1..])[i] == x;
      }
      NoDupConcat(Slots([rs[0]]), Slots(rest));
      if start <= rs[0].byteAddr < end {
        assert Within(rs, start, end) == [rs[0]] + rest;
        assert NoDup(Slots([rs[0]]) + Slots(rest));
      } else {
        assert Within(rs, start, end) == rest;
      }
    }
  }

  /** Each relocation that patches a word of the area is written in exactly one R record: what is
      written is exactly the relocations with a word to patch, each once. */
  lemma {:induction false} WrittenOnce(b: Body, s: seq<EmittedWord>)
    requires !b.byteAddrs && Strict(s) && NoDup(Slots(b.relocs))
    ensures var ws := Written(b, Chunks(s, false));
      NoDup(Slots(ws)) &&
      forall r :: r in ws <==> r in b.relocs && HasAddress(s, Slot(r))
    decreases |s|
  {
    hide Chunks, Within, Slots, Strict, NoDup, Consecutive;
    if s == [] {
      NoChunks(false);
      NoneWritten();
    } else {
      var n := FirstChunk(s, false);
      var c, cs := s[..n], Chunks(s[n..], false);
      var start := ByteAddr(c[0], false);
      StrictParts(s, n);
      WrittenOnce(b, s[n..]);
      var here, rest := Claimed(b, c), Written(b, cs);
      WithinHas(b.relocs, start, start + 2 * n);
      WithinNoDup(b.relocs, start, start + 2 * n);
      FirstPiece(b, s, n);
      assert Chunks(s, false)[1..] == cs;
      assert Written(b, Chunks(s, false)) == here + rest;
      ChunkWords(s, n);
      forall x | x in Slots(here) ensures x !in Slots(rest) {
        SlotsHas(here, x);
        if x in Slots(rest) {
          SlotsHas(rest, x);
        }
      }
      SlotsConcat(here, rest);
      NoDupConcat(Slots(here), Slots(rest));
      forall a ensures HasAddress(s, a) <==> HasAddress(c, a) || HasAddress(s[n..], a) {
        assert s == c + s[n..];
      }
    }
  }

  lemma NoneWritten()
    ensures NoDup(Slots([]))
  {
  }

  lemma StrictParts(s: seq<EmittedWord>, n: nat)
    requires Strict(s) && n <= |s|
    ensures Strict(s[..n]) && Strict(s[n..])
  {
  }

  lemma FirstPiece(b: Body, s: seq<EmittedWord>, n: nat)
    requires s != [] && 0 < n <= |s| && Chunks(s, b.byteAddrs) == [s[..n]] + Chunks(s[n..], b.byteAddrs)
    ensures Written(b, Chunks(s, b.byteAddrs)) == Claimed(b, s[..n]) + Written(b, Chunks(s[n..], b.byteAddrs))
  {
    hide Chunks, Claimed;
    assert Chunks(s, b.byteAddrs)[1..] == Chunks(s[n..], b.byteAddrs);
  }

  /** The words of a consecutive piece fill an interval, and the words behind it come later. */
  lemma ChunkWords(s: seq<EmittedWord>, n: nat)
    requires s != [] && 0 < n <= |s| && Strict(s) && Consecutive(s[..n], false)
    ensures forall a :: HasAddress(s[..n], a) <==> s[0].address <= a < s[0].address + n
    ensures forall w | w in s[n..] :: w.address >= s[0].address + n
  {
    var c := s[..n];
    assert c[0] == s[0];
    forall i | 0 <= i < n ensures c[i].address == s[0].address + i {
      assert ByteAddr(c[i], false) == ByteAddr(c[0], false) + 2 * i;
    }
    forall a ensures HasAddress(c, a) <==> s[0].address <= a < s[0].address + n {
      if s[0].address <= a < s[0].address + n {
        assert c[a - s[0].address] in c;
      }
    }
    forall w | w in s[n..] ensures w.address >= s[0].address + n {
      var i :| 0 <= i < |s[n..]| && s[n..][i] == w;
      assert s[n + i] == w && s[n - 1] == c[n - 1];
    }
  }

  // ----- modules the pipeline is meant for

  /** What the assembler leaves in the patched word: twice the offset, or 0 for a symbol. */
  function Seeded(left: Operand): nat { if left.Word? then left.value * 2 % 0x1_0000 else 0 }

  ghost predicate Placeholder(w: EmittedWord, r: Reloc) {
    w.address == Slot(r) &&
    (r.width.Word16? ==> r.byteAddr % 2 == 0 && w.value == Seeded(r.left)) &&
    (r.width.Low8? ==> r.byteAddr % 2 == 1 && Lo(w.value) == Seeded(r.left) % 256)
  }

  ghost predicate Resolvable(m: Module, r: Reloc) {
    r.right == Const(0) && !r.left.Const? &&
    (r.left.Symbol? ==> r.left.name in SymbolOrder(m)) &&
    (r.left.Word? ==> r.left.area.Some? && CanonicalAreaName(r.left.area.value) in AreaNames(m))
  }

  ghost predicate Sits(m: Module, r: Reloc) {
    exists w :: w in m.words && CanonicalAreaName(w.area) == RelocArea(r) && Placeholder(w, r)
  }

  /** An MN1613 module as the second pass leaves it: one word per address, sizes that cover the words,
      and one relocation at most per word, with its placeholder in place. */
  ghost predicate WellFormed(m: Module) {
    !m.byteAddrs && NoClash(m.words) &&
    (forall w | w in m.words :: w.value < 0x1_0000 && w.address < InfoSize(m.areas, CanonicalAreaName(w.area))) &&
    (forall a | a in AreaNames(m) :: InfoSize(m.areas, a) < 0x8000) &&
    (forall r | r in m.relocs :: Resolvable(m, r) && Sits(m, r)) &&
    (forall i, j | 0 <= i < j < |m.relocs| && RelocArea(m.relocs[i]) == RelocArea(m.relocs[j]) ::
      Slot(m.relocs[i]) != Slot(m.relocs[j])) &&
    Fits(TablesOf(m))
  }

  lemma {:induction false} MaxAddressBound(s: seq<EmittedWord>, bound: nat)
    requires forall w | w in s :: w.address < bound
    ensures s != [] ==> MaxAddress(s) < bound
  {
    if s != [] {
      assert s[0] in s;
      MaxAddressBound(s[1..], bound);
    }
  }

  /** The recorded size of a well-formed area is its byte size: even, and past its last word. */
  lemma SizeIsDoubled(m: Module, area: string)
    requires WellFormed(m) && area in AreaNames(m)
    ensures SizeRel(m, area) == 2 * InfoSize(m.areas, area) < 0x1_0000
    ensures forall w | w in WordsOf(m, area) :: 2 * w.address + 2 <= SizeRel(m, area)
  {
    hide AreaNames, Resolvable, Sits, Fits, WordsOf, NoClash, InfoSize, MaxAddress, UnitsToRelAddr, CanonicalAreaName;
    WordsOfArea(m, area);
    MaxAddressBound(WordsOf(m, area), InfoSize(m.areas, area));
    NoWrap(InfoSize(m.areas, area));
  }

  lemma NoWrap(v: nat)
    requires v < 0x8000
    ensures UnitsToRelAddr(v, false) == 2 * v
  {
  }

  lemma {:induction false} SelectRelocsHas(rs: seq<Reloc>, area: string)
    ensures forall r :: r in SelectRelocs(rs, area) <==> r in rs && RelocArea(r) == area
  {
    hide RelocArea;
    if rs != [] {
      SelectRelocsHas(rs[1..], area);
    }
  }

  lemma {:induction false} SelectRelocsSlots(rs: seq<Reloc>, area: string)
    requires forall i, j | 0 <= i < j < |rs| && RelocArea(rs[i]) == RelocArea(rs[j]) :: Slot(rs[i]) != Slot(rs[j])
    ensures NoDup(Slots(SelectRelocs(rs, area)))
  {
    hide RelocArea, Slot;
    if rs != [] {
      var rest := SelectRelocs(rs[1..], area);
      SelectRelocsSlots(rs[1..], area);
      SelectRelocsHas(rs[1..], area);
      if RelocArea(rs[0]) == area {
        forall x | x in Slots(rest) ensures x != Slot(rs[0]) {
          SlotsHas(rest, x);
          var r :| r in rest && Slot(r) == x;
          var j :| 0 <= j < |rs[1..]| && rs[1..][j] == r;
          assert rs[j + 1] == r;
        }
        SlotsConcat([rs[0]], rest);
        NoDupConcat(Slots([rs[0]]), Slots(rest));
      } else {
        assert SelectRelocs(rs, area) == rest;
      }
    }
  }

  lemma AreaOfBody(m: Module, area: string)
    requires WellFormed(m)
    ensures var b := BodyOf(m, TablesOf(m), area);
      NoDup(Slots(b.relocs)) && forall r :: r in b.relocs <==> r in m.relocs && RelocArea(r) == area
  {
    hide AreaNames, Resolvable, Sits, Fits, NoClash, InfoSize, SelectRelocs, Slots;
    SelectRelocsSlots(m.relocs, area);
    SelectRelocsHas(m.relocs, area);
  }

  // ----- the action of each relocation

  /** What the fixup does for one relocation of an area that starts at byte `base[area]`. */
  function FieldAction(base: Bases, defs: Defs, area: string, r: Reloc): Action {
    var addr := (if area in base then base[area] else 0) + r.byteAddr;
    if r.width.Word16? then Halve(addr)
    else if r.left.Symbol? then SetByte(addr, SymbolValue(defs, SdldSymName(r.left.name)) / 2 % 256)
    else SetByte(addr, (TargetBase(base, defs, r) + Seeded(r.left) % 256) % WORD32 / 2 % 256)
  }

  /** The byte base of the area a relocation's offset belongs to. */
  function TargetBase(base: Bases, defs: Defs, r: Reloc): nat {
    if r.left.Word? && r.left.area.Some? then SourceBase(base, defs, CanonicalAreaName(r.left.area.value)) else 0
  }

  function FieldActions(base: Bases, defs: Defs, area: string, rs: seq<Reloc>): seq<Action> {
    seq(|rs|, k requires 0 <= k < |rs| => FieldAction(base, defs, area, rs[k]))
  }

  /** `p` is what the parser finds in the file the writer wrote for `m`. */
  ghost predicate Reads(p: ParsedRel, m: Module) {
    p.areas == AreaNames(m) && p.areaSizes == AreaSizes(m, AreaNames(m)) &&
    p.symbols == Renamed(SymbolOrder(m)) && p.chunks == AllChunks(m, TablesOf(m), AreaNames(m))
  }

  lemma ItemIsMode(m: Module, r: Reloc, start: nat, p: ParsedRel)
    requires r.byteAddr >= start && Resolvable(m, r) && p.symbols == Renamed(SymbolOrder(m)) && p.areas == AreaNames(m)
    ensures var it := ItemFor(r, start, TablesOf(m));
      it.rtp == 2 + (r.byteAddr - start) &&
      (it.mode % 2 == 0 <==> r.width.Word16?) && (it.mode / 2 % 2 == 1 <==> r.left.Symbol?) &&
      (r.left.Symbol? ==> SymbolAt(p, it.index) == SdldSymName(r.left.name)) &&
      (r.left.Word? ==> forall other :: AreaAt(p, it.index, other) == CanonicalAreaName(r.left.area.value))
  {
    hide SymbolOrder, AreaNames;
    var symbols, areas := IndexMap(SymbolOrder(m)), IndexMap(AreaNames(m));
    if r.left.Symbol? {
      assert symbols[r.left.name] < |SymbolOrder(m)|;
    }
  }

  /** The byte of a piece's data at a relocation's field is the low byte of the word it patches. */
  lemma DataUnderField(c: seq<EmittedWord>, r: Reloc, w: EmittedWord)
    requires c != [] && Consecutive(c, false) && w in c && w.address == Slot(r) && r.byteAddr % 2 == 1
    ensures var off := r.byteAddr - 2 * c[0].address;
      0 <= off < |ChunkBytes(c)| && ChunkBytes(c)[off] == Lo(w.value)
  {
    var i :| 0 <= i < |c| && c[i] == w;
    assert ByteAddr(c[i], false) == ByteAddr(c[0], false) + 2 * i;
  }

  lemma ItemIsField(m: Module, p: ParsedRel, base: Bases, defs: Defs, area: string, c: seq<EmittedWord>, r: Reloc,
                    w: EmittedWord)
    requires Resolvable(m, r) && p.symbols == Renamed(SymbolOrder(m)) && p.areas == AreaNames(m) && !m.byteAddrs
    requires c != [] && Consecutive(c, false) && w in c && Placeholder(w, r) && c[0].address < 0x8000
    requires area in base && base[area] + r.byteAddr < WORD32 && r.byteAddr >= 2 * c[0].address
    ensures var t := TablesOf(m); var b := BodyOf(m, t, area);
      ItemAction(p, base, defs, ChunkOf(b, c), ItemFor(r, 2 * c[0].address, t)) == FieldAction(base, defs, area, r)
  {
    hide SymbolOrder, AreaNames, TablesOf, ItemFor, Claimed, ItemsFor, ChunkBytes, Consecutive, Renamed, SymbolValue,
      SourceBase, SymbolAt, AreaAt, Seeded;
    var start := 2 * c[0].address;
    ItemIsMode(m, r, start, p);
    var t := TablesOf(m);
    var chunk, it := ChunkOf(BodyOf(m, t, area), c), ItemFor(r, start, t);
    assert chunk.areaName == area && chunk.tAddr == start && chunk.data == ChunkBytes(c);
    assert FieldAddr(base, chunk, it) == base[area] + r.byteAddr;
    if r.width.Low8? && r.left.Word? {
      DataUnderField(c, r, w);
      assert DataAt(chunk, it.rtp - 2) == Seeded(r.left) % 256;
      assert AreaAt(p, it.index, chunk.areaName) == CanonicalAreaName(r.left.area.value);
    }
  }

  lemma StrictUnique(s: seq<EmittedWord>, v: EmittedWord, w: EmittedWord)
    requires Strict(s) && v in s && w in s && v.address == w.address
    ensures v == w
  {
  }

  /** A relocation whose field starts inside a piece has its word, with its placeholder, in the piece. */
  lemma WordInPiece(m: Module, area: string, c: seq<EmittedWord>, r: Reloc) returns (w: EmittedWord)
    requires WellFormed(m) && area in AreaNames(m) && c != [] && Consecutive(c, false)
    requires forall w | w in c :: w in WordsOf(m, area)
    requires r in m.relocs && RelocArea(r) == area && 2 * c[0].address <= r.byteAddr < 2 * c[0].address + 2 * |c|
    ensures w in c && Placeholder(w, r) && r.byteAddr < SizeRel(m, area) && c[0].address < 0x8000 && w.value < 0x1_0000
  {
    hide AreaNames, Resolvable, Fits, WordsOf, NoClash, RelocArea, SizeRel;
    WordsOfArea(m, area);
    SizeIsDoubled(m, area);
    assert Sits(m, r);
    var v :| v in m.words && CanonicalAreaName(v.area) == RelocArea(r) && Placeholder(v, r);
    var i := Slot(r) - c[0].address;
    w := c[i];
    assert ByteAddr(c[i], false) == ByteAddr(c[0], false) + 2 * i;
    StrictUnique(WordsOf(m, area), v, w);
    assert c[0] in c;
  }

  /** The module's place in the image: its area starts at an even byte and ends inside 64 KiB. */
  ghost predicate AreaPlaced(m: Module, base: Bases, area: string) {
    area in base && base[area] % 2 == 0 && base[area] + SizeRel(m, area) <= 0x1_0000
  }

  lemma PieceActions(m: Module, p: ParsedRel, base: Bases, defs: Defs, area: string, c: seq<EmittedWord>)
    requires WellFormed(m) && Reads(p, m) && area in AreaNames(m) && AreaPlaced(m, base, area)
    requires c != [] && Consecutive(c, false) && forall w | w in c :: w in WordsOf(m, area)
    ensures var b := BodyOf(m, TablesOf(m), area);
      ItemActions(p, base, defs, ChunkOf(b, c)) == FieldActions(base, defs, area, Claimed(b, c))
  {
    hide AreaNames, Resolvable, Sits, Fits, WordsOf, NoClash, RelocArea, SizeRel, SymbolOrder, TablesOf, Within,
      Consecutive, ItemAction, FieldAction, ItemFor, ChunkBytes, RelocsOf, Renamed, AllChunks;
    var t := TablesOf(m);
    var b := BodyOf(m, t, area);
    var rs, start := Claimed(b, c), 2 * c[0].address;
    AreaOfBody(m, area);
    WithinHas(b.relocs, start, start + 2 * |c|);
    assert ChunkOf(b, c).items == ItemsFor(rs, start, t);
    forall k | 0 <= k < |rs|
      ensures ItemAction(p, base, defs, ChunkOf(b, c), ItemFor(rs[k], start, t)) == FieldAction(base, defs, area, rs[k])
    {
      assert rs[k] in rs;
      var w := WordInPiece(m, area, c, rs[k]);
      ItemIsField(m, p, base, defs, area, c, rs[k], w);
    }
  }

  lemma FieldsConcat(base: Bases, defs: Defs, area: string, a: seq<Reloc>, b: seq<Reloc>)
    ensures
      FieldActions(base, defs, area, a + b) == FieldActions(base, defs, area, a) + FieldActions(base, defs, area, b)
  {
    hide FieldAction;
  }

  lemma {:induction false} BodyActions(m: Module, p: ParsedRel, base: Bases, defs: Defs, area: string,
                                       s: seq<EmittedWord>)
    requires WellFormed(m) && Reads(p, m) && area in AreaNames(m) && AreaPlaced(m, base, area)
    requires forall w | w in s :: w in WordsOf(m, area)
    ensures var b := BodyOf(m, TablesOf(m), area); var cs := Chunks(s, false);
      ChunkActions(p, base, defs, ChunksOf(b, cs)) == FieldActions(base, defs, area, Written(b, cs))
    decreases |s|
  {
    hide AreaNames, WellFormed, Reads, AreaPlaced, WordsOf, TablesOf, Chunks, ItemActions, FieldActions, ChunkOf,
      Claimed, Consecutive, BodyOf;
    var b := BodyOf(m, TablesOf(m), area);
    if s == [] {
      NoChunks(false);
      NoFields(base, defs, area);
    } else {
      var n := FirstChunk(s, false);
      var c, cs := s[..n], Chunks(s[n..], false);
      PieceActions(m, p, base, defs, area, c);
      BodyActions(m, p, base, defs, area, s[n..]);
      ChunkByChunk(p, base, defs, b, c, cs);
      FieldsConcat(base, defs, area, Claimed(b, c), Written(b, cs));
    }
  }

  lemma NoFields(base: Bases, defs: Defs, area: string)
    ensures FieldActions(base, defs, area, []) == []
  {
  }

  lemma ChunkByChunk(p: ParsedRel, base: Bases, defs: Defs, b: Body, c: seq<EmittedWord>, cs: seq<seq<EmittedWord>>)
    requires c != [] && forall k | 0 <= k < |cs| :: cs[k] != []
    ensures ChunkActions(p, base, defs, ChunksOf(b, [c] + cs)) ==
            ItemActions(p, base, defs, ChunkOf(b, c)) + ChunkActions(p, base, defs, ChunksOf(b, cs))
    ensures Written(b, [c] + cs) == Claimed(b, c) + Written(b, cs)
  {
    hide ItemActions, ChunkOf, Claimed;
    assert ([c] + cs)[1..] == cs;
    assert ChunksOf(b, [c] + cs)[1..] == ChunksOf(b, cs);
  }

  // ----- all actions of a module

  function AreaWritten(m: Module, area: string): seq<Reloc> {
    Written(BodyOf(m, TablesOf(m), area), Chunks(WordsOf(m, area), false))
  }

  function ModuleActions(m: Module, base: Bases, defs: Defs, names: seq<string>): seq<Action> {
    if names == [] then []
    else FieldActions(base, defs, names[0], AreaWritten(m, names[0])) + ModuleActions(m, base, defs, names[1..])
  }

  lemma {:induction false} ChunkActionsConcat(p: ParsedRel, base: Bases, defs: Defs, a: seq<RelChunk>, b: seq<RelChunk>)
    ensures ChunkActions(p, base, defs, a + b) == ChunkActions(p, base, defs, a) + ChunkActions(p, base, defs, b)
  {
    hide ItemActions;
    if a == [] {
      assert a + b == b;
    } else {
      assert (a + b)[0] == a[0] && (a + b)[1..] == a[1..] + b;
      ChunkActionsConcat(p, base, defs, a[1..], b);
    }
  }

  /** The fixup of a module is one action per relocation, in the order the items were written. */
  lemma {:induction false} FixupOfModule(m: Module, p: ParsedRel, base: Bases, defs: Defs, names: seq<string>)
    requires WellFormed(m) && Reads(p, m)
    requires forall a | a in names :: a in AreaNames(m) && AreaPlaced(m, base, a)
    ensures ChunkActions(p, base, defs, AllChunks(m, TablesOf(m), names)) == ModuleActions(m, base, defs, names)
    decreases names
  {
    hide AreaNames, WellFormed, Reads, AreaPlaced, WordsOf, TablesOf, Chunks, ItemActions, FieldActions, ChunkOf,
      Claimed, BodyOf, ChunkActions, Written;
    if names == [] {
      NoChunkActions(p, base, defs);
    } else {
      assert names[0] in names;
      assert m.byteAddrs == false by { MnModule(m); }
      BodyActions(m, p, base, defs, names[0], WordsOf(m, names[0]));
      FixupOfModule(m, p, base, defs, names[1..]);
      ChunkActionsConcat(p, base, defs, AreaChunks(m, TablesOf(m), names[0]), AllChunks(m, TablesOf(m), names[1..]));
    }
  }

  lemma NoChunkActions(p: ParsedRel, base: Bases, defs: Defs)
    ensures ChunkActions(p, base, defs, []) == []
  {
  }

  lemma MnModule(m: Module)
    requires WellFormed(m)
    ensures !m.byteAddrs
  {
  }

  // ----- no two actions meet

  /** Aligned actions on distinct words. */
  ghost predicate Orderly(acts: seq<Action>) {
    NoDup(WordsOfActions(acts)) && forall k | 0 <= k < |acts| :: Aligned(acts[k])
  }

  lemma WordsConcat(a: seq<Action>, b: seq<Action>)
    ensures WordsOfActions(a + b) == WordsOfActions(a) + WordsOfActions(b)
  {
  }

  lemma OrderlyConcat(a: seq<Action>, b: seq<Action>)
    requires Orderly(a) && Orderly(b)
    requires forall i, j | 0 <= i < |a| && 0 <= j < |b| :: WordOf(a[i]) != WordOf(b[j])
    ensures Orderly(a + b)
  {
    hide NoDup, WordOf;
    WordsConcat(a, b);
    forall x | x in WordsOfActions(a) ensures x !in WordsOfActions(b) {
      var i :| 0 <= i < |a| && WordsOfActions(a)[i] == x;
      assert forall j | 0 <= j < |b| :: WordsOfActions(b)[j] == WordOf(b[j]) != WordOf(a[i]);
    }
    NoDupConcat(WordsOfActions(a), WordsOfActions(b));
  }

  /** A relocation of a well-formed module patches a word of its area. */
  lemma SlotInArea(m: Module, r: Reloc)
    requires WellFormed(m) && r in m.relocs
    ensures RelocArea(r) in AreaNames(m) && HasAddress(WordsOf(m, RelocArea(r)), Slot(r))
    ensures 2 * Slot(r) + 2 <= SizeRel(m, RelocArea(r))
    ensures r.byteAddr == 2 * Slot(r) + (if r.width.Low8? then 1 else 0)
  {
    hide Fits, WordsOf, NoClash, Resolvable, AreaNames, SizeRel, RelocArea, CanonicalAreaName;
    assert Sits(m, r);
    var w :| w in m.words && CanonicalAreaName(w.area) == RelocArea(r) && Placeholder(w, r);
    WordAreaNamed(m, w);
    WordsOfArea(m, RelocArea(r));
    SizeIsDoubled(m, RelocArea(r));
  }

  lemma WordAreaNamed(m: Module, w: EmittedWord)
    requires w in m.words
    ensures CanonicalAreaName(w.area) in AreaNames(m)
  {
    hide OrderLinkAreaNames, CanonicalAreaName, DefinedAreas;
    var named := MentionedAreas(m);
    var i :| 0 <= i < |m.words| && m.words[i] == w;
    assert named[|m.areas| + i] == w.area;
    assert CanonicalNames(named)[|m.areas| + i] == CanonicalAreaName(w.area);
  }

  /** The relocations written for an area are its relocations, each once. */
  lemma AreaWrittenOnce(m: Module, area: string)
    requires WellFormed(m)
    ensures NoDup(Slots(AreaWritten(m, area)))
    ensures forall r :: r in AreaWritten(m, area) <==> r in m.relocs && RelocArea(r) == area
  {
    hide AreaNames, WordsOf, Chunks, Slots, Written, TablesOf, RelocArea, RelocsOf, Slot, HasAddress, NoDup, WellFormed;
    MnModule(m);
    assert NoClash(m.words) by { WordsDoNotClash(m); }
    WordsOfArea(m, area);
    AreaOfBody(m, area);
    WrittenOnce(BodyOf(m, TablesOf(m), area), WordsOf(m, area));
    forall r | r in m.relocs && RelocArea(r) == area ensures HasAddress(WordsOf(m, area), Slot(r)) {
      SlotInArea(m, r);
    }
  }

  lemma WordsDoNotClash(m: Module)
    requires WellFormed(m)
    ensures NoClash(m.words)
  {
  }

  /** One of the area's words lies at byte `x`. */
  ghost predicate InArea(m: Module, base: Bases, area: string, x: int) {
    area in base && exists w :: w in WordsOf(m, area) && base[area] + 2 * w.address == x
  }

  lemma FieldWord(m: Module, base: Bases, defs: Defs, area: string, r: Reloc)
    requires WellFormed(m) && r in m.relocs && RelocArea(r) == area && AreaPlaced(m, base, area)
    ensures var act := FieldAction(base, defs, area, r);
      Aligned(act) && WordOf(act) == base[area] + 2 * Slot(r) && InArea(m, base, area, WordOf(act)) &&
      act.addr == base[area] + r.byteAddr
  {
    hide WellFormed, SizeRel, SymbolValue, TargetBase, Seeded, Slot, RelocArea, AreaNames, WordsOf;
    SlotInArea(m, r);
    var w :| w in WordsOf(m, area) && w.address == Slot(r);
    assert base[area] + 2 * w.address == base[area] + 2 * Slot(r);
  }

  lemma AreaOrderly(m: Module, base: Bases, defs: Defs, area: string)
    requires WellFormed(m) && AreaPlaced(m, base, area)
    ensures var acts := FieldActions(base, defs, area, AreaWritten(m, area));
      Orderly(acts) && forall k | 0 <= k < |acts| :: InArea(m, base, area, WordOf(acts[k]))
  {
    hide WellFormed, AreaWritten, InArea, FieldAction, RelocArea, WordOf, Slot, SizeRel, Aligned;
    var rs := AreaWritten(m, area);
    AreaWrittenOnce(m, area);
    var acts := FieldActions(base, defs, area, rs);
    forall k | 0 <= k < |rs|
      ensures Aligned(acts[k]) && WordOf(acts[k]) == base[area] + 2 * Slots(rs)[k]
      ensures InArea(m, base, area, WordOf(acts[k]))
    {
      assert rs[k] in rs;
      FieldWord(m, base, defs, area, rs[k]);
    }
    forall i, j | 0 <= i < j < |acts| ensures WordsOfActions(acts)[i] != WordsOfActions(acts)[j] {
      assert Slots(rs)[i] != Slots(rs)[j];
    }
  }

  ghost predicate AreasApart(m: Module, base: Bases, a: string, m': Module, base': Bases, b: string) {
    forall x :: !(InArea(m, base, a, x) && InArea(m', base', b, x))
  }

  ghost predicate InSomeArea(m: Module, base: Bases, names: seq<string>, x: int) {
    exists a :: a in names && InArea(m, base, a, x)
  }

  lemma {:induction false} ModuleOrderly(m: Module, base: Bases, defs: Defs, names: seq<string>)
    requires WellFormed(m) && NoDup(names) && forall a | a in names :: AreaPlaced(m, base, a)
    requires forall a, b | a in names && b in names && a != b :: AreasApart(m, base, a, m, base, b)
    ensures var acts := ModuleActions(m, base, defs, names);
      Orderly(acts) && forall k | 0 <= k < |acts| :: InSomeArea(m, base, names, WordOf(acts[k]))
    decreases names
  {
    hide WellFormed, AreaPlaced, InArea, FieldActions, AreaWritten, WordOf;
    if names == [] {
    } else {
      hide Orderly;
      var a := names[0];
      assert a !in names[1..];
      AreaOrderly(m, base, defs, a);
      ModuleOrderly(m, base, defs, names[1..]);
      var here, rest := FieldActions(base, defs, a, AreaWritten(m, a)), ModuleActions(m, base, defs, names[1..]);
      forall i, j | 0 <= i < |here| && 0 <= j < |rest| ensures WordOf(here[i]) != WordOf(rest[j]) {
        assert InSomeArea(m, base, names[1..], WordOf(rest[j]));
        var b :| b in names[1..] && InArea(m, base, b, WordOf(rest[j]));
        assert AreasApart(m, base, a, m, base, b);
      }
      OrderlyConcat(here, rest);
      forall k | 0 <= k < |here + rest| ensures InSomeArea(m, base, names, WordOf((here + rest)[k])) {
        if k < |here| {
          assert a in names && InArea(m, base, a, WordOf(here[k]));
        } else {
          assert InSomeArea(m, base, names[1..], WordOf(rest[k - |here|]));
          var b :| b in names[1..] && InArea(m, base, b, WordOf(rest[k - |here|]));
          assert b in names;
        }
      }
    }
  }
}
