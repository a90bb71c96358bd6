/** What the REL writer writes is what the REL parser reads. */
module RelRoundTrip {
  import opened Results
  import opened Assembly
  import opened RelWriter
  import opened RelParser

  // ----- the greedy cut

  function Join(cs: seq<seq<EmittedWord>>): seq<EmittedWord> {
    if cs == [] then [] else cs[0] + Join(cs[1..])
  }

  ghost predicate Consecutive(c: seq<EmittedWord>, byteAddrs: bool) {
    forall i | 0 <= i < |c| :: ByteAddr(c[i], byteAddrs) == ByteAddr(c[0], byteAddrs) + 2 * i
  }

  lemma {:induction false} RunIsConsecutive(s: seq<EmittedWord>, byteAddrs: bool)
    requires s != []
    ensures var n := RunLength(s, byteAddrs);
      Consecutive(s[..n], byteAddrs) &&
      (n < |s| ==> ByteAddr(s[n], byteAddrs) != ByteAddr(s[n - 1], byteAddrs) + 2)
  {
    var n := RunLength(s, byteAddrs);
    if n > 1 {
      RunIsConsecutive(s[1..], byteAddrs);
      forall i | 0 <= i < n ensures ByteAddr(s[..n][i], byteAddrs) == ByteAddr(s[..n][0], byteAddrs) + 2 * i {
        if i > 0 { assert s[1..][..n - 1][i - 1] == s[i]; }
      }
    }
  }

  /** The first piece of the cut is `s[..k]`, and the rest of `s` is cut the same way. */
  lemma FirstChunk(s: seq<EmittedWord>, byteAddrs: bool) returns (k: nat)
    requires s != []
    ensures 1 <= k <= MAX_WORDS && k <= |s|
    ensures Chunks(s, byteAddrs) == [s[..k]] + Chunks(s[k..], byteAddrs)
    ensures Consecutive(s[..k], byteAddrs)
    ensures k < MAX_WORDS && k < |s| ==> ByteAddr(s[k], byteAddrs) != ByteAddr(s[k - 1], byteAddrs) + 2
  {
    hide RunLength, Chunks, Consecutive, ByteAddr;
    var run := RunLength(s, byteAddrs);
    k := if run < MAX_WORDS then run else MAX_WORDS;
    RunIsConsecutive(s, byteAddrs);
    ConsecutivePrefix(s[..run], s[..k], byteAddrs);
    CutOne(s, byteAddrs, k);
  }

  lemma CutOne(s: seq<EmittedWord>, byteAddrs: bool, k: nat)
    requires s != []
    requires k == var run := RunLength(s, byteAddrs); if run < MAX_WORDS then run else MAX_WORDS
    ensures Chunks(s, byteAddrs) == [s[..k]] + Chunks(s[k..], byteAddrs)
  {
    hide RunLength;
  }

  lemma ConsecutivePrefix(c: seq<EmittedWord>, d: seq<EmittedWord>, byteAddrs: bool)
    requires Consecutive(c, byteAddrs) && d <= c
    ensures Consecutive(d, byteAddrs)
  {
  }

  /** A piece may stop short of a full record only where the next word is not its neighbour. */
  ghost predicate MayPart(c: seq<EmittedWord>, next: seq<EmittedWord>, byteAddrs: bool) {
    c != [] && next != [] &&
    (|c| < 7 ==> ByteAddr(next[0], byteAddrs) != ByteAddr(c[|c| - 1], byteAddrs) + 2)
  }

  /** The cut loses nothing and reorders nothing; every piece is consecutive and fits one T record;
      no piece is cut short without need. */
  lemma {:induction false} ChunksPartition(s: seq<EmittedWord>, byteAddrs: bool)
    ensures var cs := Chunks(s, byteAddrs);
      Join(cs) == s &&
      (forall c | c in cs :: 1 <= |c| <= 7 && Consecutive(c, byteAddrs)) &&
      (forall k | 0 < k < |cs| :: MayPart(cs[k - 1], cs[k], byteAddrs))
  {
    hide Chunks, Consecutive, ByteAddr;
    if s != [] {
      var n := FirstChunk(s, byteAddrs);
      var cs, rest := Chunks(s, byteAddrs), Chunks(s[n..], byteAddrs);
      ChunksPartition(s[n..], byteAddrs);
      assert cs[1..] == rest && s[..n] + s[n..] == s;
      if n < |s| {
        var n' := FirstChunk(s[n..], byteAddrs);
        assert cs[1] == s[n..][..n'];
      }
      forall k | 0 < k < |cs| ensures MayPart(cs[k - 1], cs[k], byteAddrs) {
        if k > 1 {
          assert MayPart(rest[k - 2], rest[k - 1], byteAddrs);
        }
      }
    } else {
      NoChunks(byteAddrs);
    }
  }

  lemma NoChunks(byteAddrs: bool)
    ensures Chunks([], byteAddrs) == []
  {
  }

  // ----- R records

  /** Item numbers fit their fields. */
  ghost predicate Fits(t: Tables) {
    (forall n | n in t.areas :: t.areas[n] < 0x1_0000) && (forall n | n in t.symbols :: t.symbols[n] < 0x1_0000)
  }

  /** The item a relocation becomes in a chunk that starts at byte `start`. */
  function ItemFor(r: Reloc, start: nat, t: Tables): Item {
    var it := if r.byteAddr >= start then RelocItem(r, 2 + (r.byteAddr - start), t) else None;
    if it.Some? then it.value else Item(0, 0, 0)
  }

  function ItemsFor(ws: seq<Reloc>, start: nat, t: Tables): seq<Item> {
    seq(|ws|, j requires 0 <= j < |ws| => ItemFor(ws[j], start, t))
  }

  /** The relocations of the area that start inside the chunk. */
  function Claimed(b: Body, c: seq<EmittedWord>): seq<Reloc>
    requires c != []
  {
    var start := ByteAddr(c[0], b.byteAddrs);
    Within(b.relocs, start, start + 2 * |c|)
  }

  /** What the parser should find for the words `c` of an area. */
  function ChunkOf(b: Body, c: seq<EmittedWord>): RelChunk
    requires c != []
  {
    var ws, start := Claimed(b, c), ByteAddr(c[0], b.byteAddrs);
    RelChunk(b.area, UnitsToRelAddr(c[0].address, b.byteAddrs) % 0x1_0000, ChunkBytes(c),
             ItemsFor(ws, start, b.t))
  }

  lemma {:induction false} ItemsEncode(rs: seq<Reloc>, start: nat, end: nat, t: Tables)
    requires Items(rs, start, end, t).Ok?
    ensures var ws, nums := Within(rs, start, end), Items(rs, start, end, t).value;
      |nums| == 4 * |ws| &&
      forall j | 0 <= j < |ws| :: start <= ws[j].byteAddr < end &&
        RelocItem(ws[j], 2 + (ws[j].byteAddr - start), t).Some? &&
        nums[4 * j..4 * j + 4] == ItemNums(RelocItem(ws[j], 2 + (ws[j].byteAddr - start), t).value)
  {
    hide RelocItem, ItemNums;
    if rs != [] {
      ItemsEncode(rs[1..], start, end, t);
      if start <= rs[0].byteAddr < end {
        var it := RelocItem(rs[0], 2 + (rs[0].byteAddr - start), t).value;
        var ws, nums := Within(rs, start, end), Items(rs, start, end, t).value;
        var rest := Items(rs[1..], start, end, t).value;
        assert nums == ItemNums(it) + rest && |ItemNums(it)| == 4 by { FourNums(it); }
        forall j | 0 < j < |ws| ensures nums[4 * j..4 * j + 4] == rest[4 * (j - 1)..4 * (j - 1) + 4] {
          assert ws[j] == ws[1..][j - 1];
        }
        assert ws[1..] == Within(rs[1..], start, end);
      }
    }
  }

  lemma FourNums(it: Item)
    ensures |ItemNums(it)| == 4
  {
  }

  lemma ItemDecodes(nums: seq<nat>, pos: nat, it: Item)
    requires pos + 4 <= |nums| && nums[pos..pos + 4] == ItemNums(it)
    requires it.mode < 256 && it.rtp < 256 && it.index < 0x1_0000
    ensures ItemAt(nums, pos) == it
  {
    assert nums[pos..pos + 4][0] == it.mode && nums[pos..pos + 4][1] == it.rtp;
    assert nums[pos..pos + 4][2] == Hi(it.index) && nums[pos..pos + 4][3] == Lo(it.index);
  }

  lemma ItemFits(r: Reloc, start: nat, t: Tables)
    requires Fits(t) && start <= r.byteAddr < start + 2 * MAX_WORDS
    ensures var it := ItemFor(r, start, t); it.mode < 256 && it.rtp < 256 && it.index < 0x1_0000
  {
  }

  lemma ItemDecodesAt(rs: seq<Reloc>, start: nat, end: nat, t: Tables, nums: seq<nat>, head: seq<nat>, j: nat)
    requires Items(rs, start, end, t) == Ok(nums) && Fits(t) && end <= start + 2 * MAX_WORDS && |head| == 4
    requires j < |Within(rs, start, end)|
    ensures ItemAt(head + nums, 4 + 4 * j) == ItemFor(Within(rs, start, end)[j], start, t)
  {
    hide RelocItem, ItemNums, ItemAt, Items, Within, Fits;
    ItemsEncode(rs, start, end, t);
    var r, all := Within(rs, start, end)[j], head + nums;
    ItemFits(r, start, t);
    assert all[4 + 4 * j..4 + 4 * j + 4] == nums[4 * j..4 * j + 4];
    ItemDecodes(all, 4 + 4 * j, ItemFor(r, start, t));
  }

  lemma ItemsDecode(rs: seq<Reloc>, start: nat, end: nat, t: Tables, nums: seq<nat>, head: seq<nat>)
    requires Items(rs, start, end, t) == Ok(nums) && Fits(t) && end <= start + 2 * MAX_WORDS && |head| == 4
    ensures ReadItems(head + nums) == ItemsFor(Within(rs, start, end), start, t)
  {
    hide RelocItem, ItemNums, ItemAt, Items, Within, Fits, ItemFor;
    ItemsEncode(rs, start, end, t);
    assert ItemCount(head + nums) == |Within(rs, start, end)|;
    forall j | 0 <= j < |Within(rs, start, end)|
      ensures ReadItems(head + nums)[j] == ItemsFor(Within(rs, start, end), start, t)[j]
    {
      ItemDecodesAt(rs, start, end, t, nums, head, j);
    }
  }

  // ----- whole files

  lemma {:induction false} ParseConcat(st: State, a: seq<RelLine>, b: seq<RelLine>)
    ensures ParseLines(st, a + b) == ParseLines(ParseLines(st, a), b)
    decreases a
  {
    hide ParseLine;
    if a == [] {
      assert a + b == b;
    } else {
      assert (a + b)[0] == a[0] && (a + b)[1..] == a[1..] + b;
      ParseConcat(ParseLine(st, a[0]), a[1..], b);
    }
  }

  function AddSymbols(st: State, names: seq<string>): State {
    st.(rel := st.rel.(symbols := st.rel.symbols + names))
  }

  function AddChunks(st: State, cs: seq<RelChunk>): State {
    st.(rel := st.rel.(chunks := st.rel.chunks + cs))
  }

  function SymbolsOf(lines: seq<RelLine>): seq<string>
    requires forall l | l in lines :: l.SLine?
  {
    seq(|lines|, i requires 0 <= i < |lines| => lines[i].symbol)
  }

  lemma {:induction false} ParseSymbols(st: State, lines: seq<RelLine>)
    requires forall l | l in lines :: l.SLine?
    ensures ParseLines(st, lines) == AddSymbols(st, SymbolsOf(lines))
    decreases lines
  {
    if lines == [] {
      assert st.rel.symbols + [] == st.rel.symbols;
    } else {
      ParseSymbols(ParseLine(st, lines[0]), lines[1..]);
      assert st.rel.symbols + [lines[0].symbol] + SymbolsOf(lines[1..]) == st.rel.symbols + SymbolsOf(lines);
    }
  }

  /** The parser stands behind the A line of the area whose records are `b`. */
  ghost predicate Inside(st: State, b: Body) {
    b.areaIdx < 0x1_0000 && b.areaIdx < |st.rel.areas| && st.rel.areas[b.areaIdx] == b.area && st.pending.None?
  }

  lemma ParseRecord(st: State, b: Body, c: seq<EmittedWord>)
    requires c != [] && |c| <= MAX_WORDS && Fits(b.t) && ChunkLines(b, c).Ok? && Inside(st, b)
    ensures ParseLines(st, ChunkLines(b, c).value) == AddChunks(st, [ChunkOf(b, c)])
  {
    hide Items, Fits, Within, ItemsFor, ReadItems, UnitsToRelAddr, ChunkBytes, ParseLines;
    var start := ByteAddr(c[0], b.byteAddrs);
    var nums := Items(b.relocs, start, start + 2 * |c|, b.t).value;
    var tNums := BeWord(UnitsToRelAddr(c[0].address, b.byteAddrs)) + ChunkBytes(c);
    var head := BeWord(WORD_AREA) + BeWord(b.areaIdx);
    var T, R := TLine(tNums), RLine(head + nums);
    assert ChunkLines(b, c).value == [T, R];
    var st1 := ParseLine(st, T);
    assert tNums[2..] == ChunkBytes(c);
    assert Word16At(tNums, 0) == UnitsToRelAddr(c[0].address, b.byteAddrs) % 0x1_0000;
    assert Word16At(head + nums, 2) == b.areaIdx;
    ItemsDecode(b.relocs, start, start + 2 * |c|, b.t, nums, head);
    var st2 := ParseLine(st1, R);
    assert st2 == AddChunks(st, [ChunkOf(b, c)]);
    ParseTwo(st, T, R);
  }

  lemma ParseTwo(st: State, a: RelLine, b: RelLine)
    ensures ParseLines(st, [a, b]) == ParseLine(ParseLine(st, a), b)
  {
    hide ParseLine;
    assert ParseLines(st, [a, b]) == ParseLines(ParseLine(st, a), [b]) by { assert [a, b][1..] == [b]; }
    assert ParseLines(ParseLine(st, a), [b]) == ParseLine(ParseLine(st, a), b) by { assert [b][1..] == []; }
  }

  function ChunksOf(b: Body, cs: seq<seq<EmittedWord>>): seq<RelChunk>
    requires forall k | 0 <= k < |cs| :: cs[k] != []
  {
    seq(|cs|, k requires 0 <= k < |cs| => ChunkOf(b, cs[k]))
  }

  lemma {:induction false} ParseBody(st: State, b: Body, s: seq<EmittedWord>)
    requires Fits(b.t) && BodyLines(b, s).Ok? && Inside(st, b)
    ensures ParseLines(st, BodyLines(b, s).value) == AddChunks(st, ChunksOf(b, Chunks(s, b.byteAddrs)))
    decreases |s|
  {
    hide Chunks, ChunkLines, Fits, ChunkOf, ParseLine, ParseLines, AddChunks;
    var cs := Chunks(s, b.byteAddrs);
    if s == [] {
      NoChunks(b.byteAddrs);
      ParseNothing(st);
    } else {
      var n := FirstChunk(s, b.byteAddrs);
      var c := s[..n];
      var x := ChunkOf(b, c);
      ParseRecord(st, b, c);
      AddChunksTwice(st, b, x, ChunksOf(b, Chunks(s[n..], b.byteAddrs)));
      ParseBody(AddChunks(st, [x]), b, s[n..]);
      ParseConcat(st, ChunkLines(b, c).value, BodyLines(b, s[n..]).value);
      assert [x] + ChunksOf(b, Chunks(s[n..], b.byteAddrs)) == ChunksOf(b, cs);
    }
  }

  lemma ParseNothing(st: State)
    ensures ParseLines(st, []) == st && AddChunks(st, []) == st
  {
    assert st.rel.chunks + [] == st.rel.chunks;
  }

  lemma AddChunksTwice(st: State, b: Body, x: RelChunk, xs: seq<RelChunk>)
    ensures AddChunks(AddChunks(st, [x]), xs) == AddChunks(st, [x] + xs)
    ensures Inside(st, b) ==> Inside(AddChunks(st, [x]), b)
  {
    assert st.rel.chunks + [x] + xs == st.rel.chunks + ([x] + xs);
  }

  function Renamed(names: seq<string>): seq<string> {
    seq(|names|, i requires 0 <= i < |names| => SdldSymName(names[i]))
  }

  function AreaChunks(m: Module, t: Tables, area: string): seq<RelChunk> {
    ChunksOf(BodyOf(m, t, area), Chunks(WordsOf(m, area), m.byteAddrs))
  }

  /** What the lines of one area add to the parser's state. */
  function AfterArea(st: State, m: Module, t: Tables, area: string): State {
    var rel := st.rel;
    State(ParsedRel(rel.areas + [area], rel.areaSizes[area := SizeRel(m, area) % 0x1_0000],
                    rel.symbols + Renamed(AreaSymbols(m, area)), rel.chunks + AreaChunks(m, t, area)),
          None, area)
  }

  lemma AreaSymbolLines(m: Module, area: string)
    ensures
      var lines := DefLines(m, DefinedIn(m.globals, area)) + CheckpointLines(m, CheckpointsIn(m.checkpoints, area));
      (forall l | l in lines :: l.SLine?) && SymbolsOf(lines) == Renamed(AreaSymbols(m, area))
  {
    var gs, cs := DefinedIn(m.globals, area), CheckpointsIn(m.checkpoints, area);
    assert forall i | 0 <= i < |cs| :: CheckpointId(cs[i])[0] == '_';
  }

  lemma ParseArea(st: State, m: Module, t: Tables, area: string)
    requires Fits(t) && AreaLines(m, t, area).Ok?
    requires area in t.areas && t.areas[area] == |st.rel.areas| && st.pending.None?
    ensures ParseLines(st, AreaLines(m, t, area).value) == AfterArea(st, m, t, area)
  {
    hide BodyLines, WordsOf, Chunks, ChunksOf, SizeRel, DefLines, CheckpointLines, DefinedIn, CheckpointsIn,
      SymbolsOf, Renamed, AreaSymbols;
    var b := BodyOf(m, t, area);
    var A := ALine(area, SizeRel(m, area) % 0x1_0000);
    var S := DefLines(m, DefinedIn(m.globals, area)) + CheckpointLines(m, CheckpointsIn(m.checkpoints, area));
    var B := BodyLines(b, WordsOf(m, area)).value;
    assert AreaLines(m, t, area).value == [A] + (S + B);
    ParseConcat(st, [A], S + B);
    var st1 := ParseLine(st, A);
    assert ParseLines(st, [A]) == st1 by { ParseOne(st, A); }
    ParseConcat(st1, S, B);
    AreaSymbolLines(m, area);
    ParseSymbols(st1, S);
    ParseBody(AddSymbols(st1, SymbolsOf(S)), b, WordsOf(m, area));
  }

  lemma ParseOne(st: State, a: RelLine)
    ensures ParseLines(st, [a]) == ParseLine(st, a)
  {
    hide ParseLine;
    assert [a][1..] == [];
  }

  function AfterAreas(st: State, m: Module, t: Tables, names: seq<string>): State
    decreases names
  {
    if names == [] then st else AfterAreas(AfterArea(st, m, t, names[0]), m, t, names[1..])
  }

  lemma {:induction false} ParseAreas(st: State, m: Module, t: Tables, names: seq<string>)
    requires Fits(t) && AllAreaLines(m, t, names).Ok? && st.pending.None?
    requires forall k | 0 <= k < |names| :: names[k] in t.areas && t.areas[names[k]] == |st.rel.areas| + k
    ensures ParseLines(st, AllAreaLines(m, t, names).value) == AfterAreas(st, m, t, names)
    decreases names
  {
    hide AreaLines, Fits, ParseLine, AreaSymbols, AreaChunks, Renamed, SizeRel;
    if names != [] {
      var here, rest := AreaLines(m, t, names[0]).value, AllAreaLines(m, t, names[1..]).value;
      ParseConcat(st, here, rest);
      ParseArea(st, m, t, names[0]);
      assert forall k | 0 <= k < |names| - 1 :: names[1..][k] == names[k + 1];
      ParseAreas(AfterArea(st, m, t, names[0]), m, t, names[1..]);
    }
  }

  function AllChunks(m: Module, t: Tables, names: seq<string>): seq<RelChunk> {
    if names == [] then [] else AreaChunks(m, t, names[0]) + AllChunks(m, t, names[1..])
  }

  function AreaSizes(m: Module, names: seq<string>): map<string, nat> {
    map n | n in names :: SizeRel(m, n) % 0x1_0000
  }

  lemma RenamedConcat(a: seq<string>, b: seq<string>)
    ensures Renamed(a + b) == Renamed(a) + Renamed(b)
  {
  }

  function Grown(rel: ParsedRel, m: Module, t: Tables, names: seq<string>): ParsedRel {
    ParsedRel(rel.areas + names, rel.areaSizes + AreaSizes(m, names),
              rel.symbols + Renamed(AllAreaSymbols(m, names)), rel.chunks + AllChunks(m, t, names))
  }

  lemma GrownStep(st: State, m: Module, t: Tables, names: seq<string>)
    requires names != []
    ensures Grown(AfterArea(st, m, t, names[0]).rel, m, t, names[1..]) == Grown(st.rel, m, t, names)
  {
    hide SizeRel, AreaSymbols, AreaChunks, Renamed;
    var rel, rel' := st.rel, AfterArea(st, m, t, names[0]).rel;
    assert rel'.areas + names[1..] == rel.areas + names;
    RenamedConcat(AreaSymbols(m, names[0]), AllAreaSymbols(m, names[1..]));
    assert rel'.symbols + Renamed(AllAreaSymbols(m, names[1..])) == rel.symbols + Renamed(AllAreaSymbols(m, names));
    assert rel'.chunks + AllChunks(m, t, names[1..]) == rel.chunks + AllChunks(m, t, names);
    SizesStep(rel.areaSizes, m, names);
  }

  lemma SizesStep(sizes: map<string, nat>, m: Module, names: seq<string>)
    requires names != []
    ensures sizes[names[0] := SizeRel(m, names[0]) % 0x1_0000] + AreaSizes(m, names[1..]) == sizes + AreaSizes(m, names)
  {
    hide SizeRel;
    assert names == [names[0]] + names[1..];
  }

  lemma {:induction false} AfterAreasIs(st: State, m: Module, t: Tables, names: seq<string>)
    ensures AfterAreas(st, m, t, names).rel == Grown(st.rel, m, t, names)
    decreases names
  {
    hide AfterArea;
    if names == [] {
      GrownByNothing(st.rel, m, t);
    } else {
      hide Grown;
      GrownStep(st, m, t, names);
      AfterAreasIs(AfterArea(st, m, t, names[0]), m, t, names[1..]);
    }
  }

  lemma GrownByNothing(rel: ParsedRel, m: Module, t: Tables)
    ensures Grown(rel, m, t, []) == rel
  {
    assert rel.areas + [] == rel.areas;
    assert AreaSizes(m, []) == map[];
    assert rel.symbols + Renamed([]) == rel.symbols;
    assert rel.chunks + [] == rel.chunks;
  }

  /** Round trip: reading what was written gives back the areas, their sizes, the symbols in their
      numbered order, and one chunk for every piece of the greedy cut. */
  lemma RoundTrip(m: Module, moduleName: string)
    requires RelText(m, moduleName).Ok? && Fits(TablesOf(m))
    ensures var p := ParsedText(RelText(m, moduleName).value);
      p.areas == AreaNames(m) &&
      p.areaSizes == AreaSizes(m, AreaNames(m)) &&
      p.symbols == Renamed(SymbolOrder(m)) &&
      p.chunks == AllChunks(m, TablesOf(m), AreaNames(m))
  {
    hide AreaNames, AllAreaLines, Fits, IndexMap, AreaSizes, AllChunks, AfterAreas, ParseLine, ParseLines,
      Renamed, GlobalNames, References, AllAreaSymbols, HeadLines;
    var t, names := TablesOf(m), AreaNames(m);
    NamesAreNumbered(m);
    var H, B := HeadLines(m, moduleName), AllAreaLines(m, t, names).value;
    var first := [ABS_NAME] + GlobalNames(References(m.globals));
    ParseConcat(START, H + B, [ELine]);
    ParseConcat(START, H, B);
    HeadParses(m, moduleName);
    var st := AddSymbols(START, Renamed(first));
    ParseAreas(st, m, t, names);
    AfterAreasIs(st, m, t, names);
    EndParses(AfterAreas(st, m, t, names));
    RenamedConcat(first, AllAreaSymbols(m, names));
    FromNothing(Renamed(first), m, t, names);
  }

  lemma FromNothing(symbols: seq<string>, m: Module, t: Tables, names: seq<string>)
    ensures Grown(AddSymbols(START, symbols).rel, m, t, names) ==
      ParsedRel(names, AreaSizes(m, names), symbols + Renamed(AllAreaSymbols(m, names)), AllChunks(m, t, names))
  {
    hide AreaSizes, Renamed, AllAreaSymbols, AllChunks;
    assert [] + names == names;
    assert [] + symbols == symbols;
    assert map[] + AreaSizes(m, names) == AreaSizes(m, names);
    assert [] + AllChunks(m, t, names) == AllChunks(m, t, names);
  }

  lemma NamesAreNumbered(m: Module)
    ensures forall k | 0 <= k < |AreaNames(m)| ::
      AreaNames(m)[k] in TablesOf(m).areas && TablesOf(m).areas[AreaNames(m)[k]] == k
  {
    hide OrderLinkAreaNames, IndexMap, MentionedAreas, SymbolOrder;
    var names := AreaNames(m);
    assert NoDup(names);
    forall k | 0 <= k < |names| ensures names[k] in IndexMap(names) && IndexMap(names)[names[k]] == k {
      assert names[k] in names;
    }
  }

  lemma HeadParses(m: Module, moduleName: string)
    ensures ParseLines(START, HeadLines(m, moduleName)) ==
            AddSymbols(START, Renamed([ABS_NAME] + GlobalNames(References(m.globals))))
  {
    hide AreaNames, SymbolOrder;
    var refs := References(m.globals);
    var S := [SLine(ABS_NAME, true, 0)] + DefLines(m, refs);
    var pre := [XH2, HLine(|AreaNames(m)|, |SymbolOrder(m)|), MLine(moduleName)];
    assert HeadLines(m, moduleName) == pre + S;
    ParseConcat(START, pre, S);
    assert ParseLines(START, pre) == START by {
      assert pre[1..][1..] == [MLine(moduleName)];
      ParseOne(START, MLine(moduleName));
    }
    ParseSymbols(START, S);
    assert SymbolsOf(S) == Renamed([ABS_NAME] + GlobalNames(refs));
  }

  lemma EndParses(st: State)
    ensures ParseLines(st, [ELine]) == st
  {
    ParseOne(st, ELine);
  }

  /** The numbering pass and the emission pass agree: the number the writer uses for a name is the
      position of that very name among the S lines read back. */
  lemma SymbolNumbersAgree(m: Module, moduleName: string, name: string)
    requires RelText(m, moduleName).Ok? && Fits(TablesOf(m)) && name in SymbolOrder(m)
    ensures var p := ParsedText(RelText(m, moduleName).value);
      var k := TablesOf(m).symbols[name];
      k < |p.symbols| && p.symbols[k] == SdldSymName(name)
  {
    hide SymbolOrder, AreaNames, RelText, ParsedText, AllChunks, Fits;
    RoundTrip(m, moduleName);
  }
}
