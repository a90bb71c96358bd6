/** The REL writer: an assembled module becomes A/S/T/R records in byte addresses. */
module RelWriter {
  import opened Results
  import opened Assembly

  /** Two address bytes and at most fourteen data bytes make a T record. */
  const MAX_T_DATA_BYTES: nat := 14
  const MAX_WORDS: nat := MAX_T_DATA_BYTES / 2

  const WORD_AREA: nat := 0
  const BYTE_AREA: nat := 1
  const WORD_SYM: nat := 2
  const BYTE_SYM: nat := 3

  const ABS_NAME := ".__.ABS."

  /** One line of a REL file.  T and R records are lists of two-digit hexadecimal numbers. */
  datatype RelLine =
    | XH2
    | HLine(areaCount: nat, symbolCount: nat)
    | MLine(moduleName: string)
    | SLine(symbol: string, def: bool, value: nat)
    | ALine(area: string, size: nat)
    | TLine(data: seq<nat>)
    | RLine(items: seq<nat>)
    | ELine

  datatype Item = Item(mode: nat, rtp: nat, index: nat)

  // ----- units

  function UnitsToRelAddr(units: nat, byteAddrs: bool): nat {
    if byteAddrs then units else units * 2 % 0x1_0000
  }

  /** The byte offset of a word inside its area. */
  function ByteAddr(w: EmittedWord, byteAddrs: bool): nat {
    if byteAddrs then w.address else w.address * 2
  }

  function BeWord(v: nat): seq<nat> { [Hi(v), Lo(v)] }

  /** `S__X` and `L__X` are spelled in lower case in REL files. */
  function SdldSymName(name: string): string {
    if |name| >= 3 && (name[0] == 'S' || name[0] == 'L') && name[1..3] == "__"
    then [if name[0] == 'S' then 's' else 'l'] + name[1..]
    else name
  }

  function CheckpointId(c: Checkpoint): string { "__CP$" + c.id }

  // ----- what belongs to an area

  function SelectWords(ws: seq<EmittedWord>, area: string): seq<EmittedWord> {
    if ws == [] then []
    else (if CanonicalAreaName(ws[0].area) == area then [ws[0]] else []) + SelectWords(ws[1..], area)
  }

  function Insert(w: EmittedWord, s: seq<EmittedWord>): (r: seq<EmittedWord>)
    ensures multiset(r) == multiset([w] + s)
  {
    if s == [] || w.address <= s[0].address then [w] + s
    else
      assert s == [s[0]] + s[1..];
      [s[0]] + Insert(w, s[1..])
  }

  /** A stable sort by address. */
  function Sort(s: seq<EmittedWord>): (r: seq<EmittedWord>)
    ensures multiset(r) == multiset(s)
  {
    if s == [] then []
    else
      assert s == [s[0]] + s[1..];
      Insert(s[0], Sort(s[1..]))
  }

  function WordsOf(m: Module, area: string): seq<EmittedWord> { Sort(SelectWords(m.words, area)) }

  function RelocArea(r: Reloc): string {
    CanonicalAreaName(if r.area.Some? then r.area.value else "_CODE")
  }

  function SelectRelocs(rs: seq<Reloc>, area: string): seq<Reloc> {
    if rs == [] then []
    else (if RelocArea(rs[0]) == area then [rs[0]] else []) + SelectRelocs(rs[1..], area)
  }

  function RelocsOf(m: Module, area: string): seq<Reloc> { SelectRelocs(m.relocs, area) }

  function DefinedIn(gs: seq<Global>, area: string): seq<Global> {
    if gs == [] then []
    else (if gs[0].def && CanonicalAreaName(gs[0].area) == area then [gs[0]] else []) + DefinedIn(gs[1..], area)
  }

  function References(gs: seq<Global>): seq<Global> {
    if gs == [] then [] else (if !gs[0].def then [gs[0]] else []) + References(gs[1..])
  }

  function CheckpointsIn(cs: seq<Checkpoint>, area: string): seq<Checkpoint> {
    if cs == [] then []
    else (if CanonicalAreaName(cs[0].area) == area then [cs[0]] else []) + CheckpointsIn(cs[1..], area)
  }

  // ----- areas and their sizes

  function DefinedAreas(gs: seq<Global>): seq<string> {
    if gs == [] then [] else (if gs[0].def then [CanonicalAreaName(gs[0].area)] else []) + DefinedAreas(gs[1..])
  }

  function MentionedAreas(m: Module): seq<string> {
    seq(|m.areas|, i requires 0 <= i < |m.areas| => m.areas[i].name) +
    seq(|m.words|, i requires 0 <= i < |m.words| => m.words[i].area) +
    DefinedAreas(m.globals) +
    seq(|m.checkpoints|, i requires 0 <= i < |m.checkpoints| => m.checkpoints[i].area)
  }

  function AreaNames(m: Module): seq<string> {
    var names := OrderLinkAreaNames(MentionedAreas(m));
    if names == [] then ["_CODE"] else names
  }

  /** The size recorded for an area; an area known only from its words has size 0. */
  function InfoSize(areas: seq<AreaInfo>, area: string): nat {
    if areas == [] then 0
    else if areas[|areas| - 1].name == area then areas[|areas| - 1].size
    else InfoSize(areas[..|areas| - 1], area)
  }

  function MaxAddress(s: seq<EmittedWord>): nat {
    if s == [] then 0 else
    var rest := MaxAddress(s[1..]);
    if s[0].address > rest then s[0].address else rest
  }

  /** The end of the emitted words: counted in words for the MN1613, in bytes for the TMS9995. */
  function SizeFromWords(m: Module, area: string): nat {
    var s := WordsOf(m, area);
    if s == [] then 0 else MaxAddress(s) + (if m.byteAddrs then 2 else 1)
  }

  function SizeFromInfo(m: Module, area: string): nat {
    UnitsToRelAddr(InfoSize(m.areas, area), m.byteAddrs)
  }

  function SizeRel(m: Module, area: string): nat {
    if SizeFromWords(m, area) > SizeFromInfo(m, area) then SizeFromWords(m, area) else SizeFromInfo(m, area)
  }

  // ----- symbol numbering

  function GlobalNames(gs: seq<Global>): seq<string> {
    seq(|gs|, i requires 0 <= i < |gs| => gs[i].name)
  }

  function CheckpointNames(cs: seq<Checkpoint>): seq<string> {
    seq(|cs|, i requires 0 <= i < |cs| => CheckpointId(cs[i]))
  }

  function AreaSymbols(m: Module, area: string): seq<string> {
    GlobalNames(DefinedIn(m.globals, area)) + CheckpointNames(CheckpointsIn(m.checkpoints, area))
  }

  function AllAreaSymbols(m: Module, names: seq<string>): seq<string> {
    if names == [] then [] else AreaSymbols(m, names[0]) + AllAreaSymbols(m, names[1..])
  }

  /** The names in the order they are numbered. */
  function SymbolOrder(m: Module): seq<string> {
    [ABS_NAME] + GlobalNames(References(m.globals)) + AllAreaSymbols(m, AreaNames(m))
  }

  /** Name to position; a later duplicate replaces an earlier one. */
  function IndexMap(names: seq<string>): (r: map<string, nat>)
    ensures forall n :: n in r <==> n in names
    ensures forall n | n in r :: r[n] < |names| && names[r[n]] == n
  {
    if names == [] then map[]
    else
      var k := |names| - 1;
      assert names == names[..k] + [names[k]];
      IndexMap(names[..k])[names[k] := k]
  }

  // ----- T and R records

  function RunLength(s: seq<EmittedWord>, byteAddrs: bool): (n: nat)
    requires s != []
    ensures 1 <= n <= |s|
  {
    if |s| > 1 && ByteAddr(s[1], byteAddrs) == ByteAddr(s[0], byteAddrs) + 2
    then 1 + RunLength(s[1..], byteAddrs)
    else 1
  }

  /** Cut a list of words greedily: as many consecutive words as a T record holds, then the rest. */
  function Chunks(s: seq<EmittedWord>, byteAddrs: bool): (cs: seq<seq<EmittedWord>>)
    ensures forall k | 0 <= k < |cs| :: cs[k] != []
  {
    if s == [] then []
    else
      var run := RunLength(s, byteAddrs);
      var k := if run < MAX_WORDS then run else MAX_WORDS;
      [s[..k]] + Chunks(s[k..], byteAddrs)
  }

  function ChunkBytes(c: seq<EmittedWord>): seq<nat> {
    seq(2 * |c|, j requires 0 <= j < 2 * |c| => if j % 2 == 0 then Hi(c[j / 2].value) else Lo(c[j / 2].value))
  }

  function RelocItem(r: Reloc, rtp: nat, t: Tables): Option<Item> {
    if r.right != Const(0) then None
    else match r.left
      case Symbol(name) =>
        if name in t.symbols then Some(Item(if r.width.Low8? then BYTE_SYM else WORD_SYM, rtp, t.symbols[name]))
        else None
      case Word(_, area) =>
        var key := CanonicalAreaName(if area.Some? then area.value else if r.area.Some? then r.area.value else "_CODE");
        if key in t.areas then Some(Item(if r.width.Low8? then BYTE_AREA else WORD_AREA, rtp, t.areas[key])) else None
      case Const(_) => None
  }

  /** The relocations whose field starts inside `[start, end)`. */
  function Within(rs: seq<Reloc>, start: nat, end: nat): seq<Reloc> {
    if rs == [] then []
    else (if start <= rs[0].byteAddr < end then [rs[0]] else []) + Within(rs[1..], start, end)
  }

  function ItemNums(it: Item): seq<nat> { [Lo(it.mode), Lo(it.rtp)] + BeWord(it.index) }

  /** The item numbers of those relocations of `rs` that start inside the chunk. */
  function Items(rs: seq<Reloc>, start: nat, end: nat, t: Tables): Result<seq<nat>> {
    if rs == [] then Ok([])
    else if rs[0].byteAddr < start || rs[0].byteAddr >= end then Items(rs[1..], start, end, t)
    else
      var it := RelocItem(rs[0], 2 + (rs[0].byteAddr - start), t);
      if it.None? then Err("unsupported reloc")
      else
        var rest :- Items(rs[1..], start, end, t);
        Ok(ItemNums(it.value) + rest)
  }

  /** The number tables every record refers to. */
  datatype Tables = Tables(areas: map<string, nat>, symbols: map<string, nat>)

  function TablesOf(m: Module): Tables {
    Tables(IndexMap(AreaNames(m)), IndexMap(SymbolOrder(m)))
  }

  /** One area while its records are written. */
  datatype Body = Body(area: string, areaIdx: nat, relocs: seq<Reloc>, t: Tables, byteAddrs: bool)

  function BodyOf(m: Module, t: Tables, area: string): Body {
    Body(area, if area in t.areas then t.areas[area] else 0, RelocsOf(m, area), t, m.byteAddrs)
  }

  function ChunkLines(b: Body, c: seq<EmittedWord>): Result<seq<RelLine>>
    requires c != []
  {
    var start := ByteAddr(c[0], b.byteAddrs);
    var nums :- Items(b.relocs, start, start + 2 * |c|, b.t);
    Ok([TLine(BeWord(UnitsToRelAddr(c[0].address, b.byteAddrs)) + ChunkBytes(c)),
        RLine(BeWord(WORD_AREA) + BeWord(b.areaIdx) + nums)])
  }

  /** The T and R records of the words `s`, in the order of the greedy cut. */
  function BodyLines(b: Body, s: seq<EmittedWord>): Result<seq<RelLine>> {
    if s == [] then Ok([])
    else
      var c := Chunks(s, b.byteAddrs)[0];
      var lines :- ChunkLines(b, c);
      var rest :- BodyLines(b, s[|c|..]);
      Ok(lines + rest)
  }

  function DefLines(m: Module, gs: seq<Global>): seq<RelLine> {
    seq(|gs|, i requires 0 <= i < |gs| =>
      SLine(SdldSymName(gs[i].name), gs[i].def,
            if gs[i].def then UnitsToRelAddr(gs[i].value, m.byteAddrs) % 0x1_0000 else 0))
  }

  function CheckpointLines(m: Module, cs: seq<Checkpoint>): seq<RelLine> {
    seq(|cs|, i requires 0 <= i < |cs| =>
      SLine(CheckpointId(cs[i]), true, UnitsToRelAddr(cs[i].address, m.byteAddrs) % 0x1_0000))
  }

  function AreaLines(m: Module, t: Tables, area: string): Result<seq<RelLine>> {
    var body :- BodyLines(BodyOf(m, t, area), WordsOf(m, area));
    Ok([ALine(area, SizeRel(m, area) % 0x1_0000)] +
       DefLines(m, DefinedIn(m.globals, area)) +
       CheckpointLines(m, CheckpointsIn(m.checkpoints, area)) + body)
  }

  function AllAreaLines(m: Module, t: Tables, names: seq<string>): Result<seq<RelLine>> {
    if names == [] then Ok([])
    else
      var lines :- AreaLines(m, t, names[0]);
      var rest :- AllAreaLines(m, t, names[1..]);
      Ok(lines + rest)
  }

  function HeadLines(m: Module, moduleName: string): seq<RelLine> {
    [XH2, HLine(|AreaNames(m)|, |SymbolOrder(m)|), MLine(moduleName), SLine(ABS_NAME, true, 0)] +
    DefLines(m, References(m.globals))
  }

  /** The REL file of a module, or the error that stops the writer. */
  function RelText(m: Module, moduleName: string): Result<seq<RelLine>> {
    var body :- AllAreaLines(m, TablesOf(m), AreaNames(m));
    Ok(HeadLines(m, moduleName) + body + [ELine])
  }

  // ----- the writer's loops

  /** What a loop returns when `lines` are written and `rest` is still to come. */
  function After(lines: seq<RelLine>, rest: Result<seq<RelLine>>): Result<seq<RelLine>> {
    var more :- rest;
    Ok(lines + more)
  }

  lemma AfterNothing(rest: Result<seq<RelLine>>)
    ensures After([], rest) == rest
  {
    assert rest.Ok? ==> [] + rest.value == rest.value;
  }

  lemma AfterAll(lines: seq<RelLine>)
    ensures After(lines, Ok([])) == Ok(lines)
  {
    assert lines + [] == lines;
  }

  lemma AfterMore(lines: seq<RelLine>, more: seq<RelLine>, rest: Result<seq<RelLine>>)
    ensures After(lines, After(more, rest)) == After(lines + more, rest)
  {
    if rest.Ok? {
      assert lines + (more + rest.value) == lines + more + rest.value;
    }
  }

  lemma {:induction false} RunLengthDrop(s: seq<EmittedWord>, byteAddrs: bool, p: nat)
    requires s != [] && p < RunLength(s, byteAddrs)
    ensures RunLength(s[p..], byteAddrs) == RunLength(s, byteAddrs) - p
  {
    if p == 0 {
      assert s[0..] == s;
    } else {
      RunLengthDrop(s[1..], byteAddrs, p - 1);
      assert s[1..][p - 1..] == s[p..];
    }
  }

  function AfterNums(nums: seq<nat>, rest: Result<seq<nat>>): Result<seq<nat>> {
    var more :- rest;
    Ok(nums + more)
  }

  lemma ItemsStep(rs: seq<Reloc>, i: nat, start: nat, end: nat, t: Tables, nums: seq<nat>)
    requires i < |rs|
    ensures AfterNums(nums, Items(rs[i..], start, end, t)) ==
      if rs[i].byteAddr < start || rs[i].byteAddr >= end
      then AfterNums(nums, Items(rs[i + 1..], start, end, t))
      else match RelocItem(rs[i], 2 + (rs[i].byteAddr - start), t)
        case None => Err("unsupported reloc")
        case Some(it) => AfterNums(nums + ItemNums(it), Items(rs[i + 1..], start, end, t))
  {
    hide RelocItem, ItemNums;
    assert rs[i..][0] == rs[i] && rs[i..][1..] == rs[i + 1..];
    if start <= rs[i].byteAddr < end {
      var it, rest := RelocItem(rs[i], 2 + (rs[i].byteAddr - start), t), Items(rs[i + 1..], start, end, t);
      if it.Some? && rest.Ok? {
        assert nums + (ItemNums(it.value) + rest.value) == nums + ItemNums(it.value) + rest.value;
      }
    }
  }

  /** The numbers of one R record, collected relocation by relocation. */
  method CollectItems(rs: seq<Reloc>, start: nat, end: nat, t: Tables) returns (r: Result<seq<nat>>)
    ensures r == Items(rs, start, end, t)
  {
    var nums: seq<nat> := [];
    ghost var spec := Items(rs, start, end, t);
    assert rs[0..] == rs && (spec.Ok? ==> [] + spec.value == spec.value);
    for i := 0 to |rs|
      invariant spec == AfterNums(nums, Items(rs[i..], start, end, t))
    {
      hide Items, RelocItem, ItemNums, AfterNums;
      ItemsStep(rs, i, start, end, t, nums);
      if rs[i].byteAddr < start || rs[i].byteAddr >= end { continue; }
      var it := RelocItem(rs[i], 2 + (rs[i].byteAddr - start), t);
      if it.None? { return Err("unsupported reloc"); }
      nums := nums + ItemNums(it.value);
    }
    assert nums + [] == nums;
    r := Ok(nums);
  }

  /** The last index of the run of consecutive words that starts at `idx`. */
  method FindRunEnd(sorted: seq<EmittedWord>, idx: nat, byteAddrs: bool) returns (runEnd: nat)
    requires idx < |sorted|
    ensures idx <= runEnd < |sorted|
    ensures RunLength(sorted[idx..], byteAddrs) == runEnd - idx + 1
  {
    var addrStep := if byteAddrs then 2 else 1;
    runEnd := idx;
    while runEnd + 1 < |sorted| && sorted[runEnd + 1].address == sorted[runEnd].address + addrStep
      invariant idx <= runEnd < |sorted|
      invariant RunLength(sorted[idx..], byteAddrs) == runEnd - idx + RunLength(sorted[runEnd..], byteAddrs)
    {
      assert sorted[runEnd..][1] == sorted[runEnd + 1];
      assert sorted[runEnd..][1..] == sorted[runEnd + 1..];
      runEnd := runEnd + 1;
    }
  }

  /** One T record and its R record. */
  method WriteChunk(b: Body, c: seq<EmittedWord>) returns (r: Result<seq<RelLine>>)
    requires c != []
    ensures r == ChunkLines(b, c)
  {
    var firstAddr := c[0].address;
    var relAddr := UnitsToRelAddr(firstAddr, b.byteAddrs);
    var bytes: seq<nat> := [];
    for i := 0 to |c|
      invariant bytes == ChunkBytes(c[..i])
    {
      bytes := bytes + [Hi(c[i].value), Lo(c[i].value)];
    }
    assert c[..|c|] == c;
    var startByte := if b.byteAddrs then firstAddr else firstAddr * 2;
    var items := CollectItems(b.relocs, startByte, startByte + |bytes|, b.t);
    if items.Err? { return Err(items.error); }
    r := Ok([TLine(BeWord(relAddr) + bytes), RLine(BeWord(WORD_AREA) + BeWord(b.areaIdx) + items.value)]);
  }

  lemma BodyStep(b: Body, s: seq<EmittedWord>, k: nat, lines: seq<RelLine>)
    requires s != []
    requires k == var run := RunLength(s, b.byteAddrs); if run < MAX_WORDS then run else MAX_WORDS
    ensures match ChunkLines(b, s[..k])
      case Err(e) => After(lines, BodyLines(b, s)) == Err(e)
      case Ok(record) => After(lines, BodyLines(b, s)) == After(lines + record, BodyLines(b, s[k..]))
  {
    assert Chunks(s, b.byteAddrs)[0] == s[..k];
    var record := ChunkLines(b, s[..k]);
    if record.Ok? {
      AfterMore(lines, record.value, BodyLines(b, s[k..]));
    }
  }

  lemma BodyStepAt(b: Body, sorted: seq<EmittedWord>, p: nat, runEnd: nat, k: nat, lines: seq<RelLine>)
    requires p <= runEnd < |sorted| && RunLength(sorted[p..], b.byteAddrs) == runEnd - p + 1
    requires k == if MAX_WORDS < runEnd - p + 1 then MAX_WORDS else runEnd - p + 1
    ensures match ChunkLines(b, sorted[p..p + k])
      case Err(e) => After(lines, BodyLines(b, sorted[p..])) == Err(e)
      case Ok(record) =>
        After(lines, BodyLines(b, sorted[p..])) == After(lines + record, BodyLines(b, sorted[p + k..]))
    ensures p + k <= runEnd ==> RunLength(sorted[p + k..], b.byteAddrs) == runEnd - (p + k) + 1
  {
    hide BodyLines, ChunkLines, RunLength;
    BodyStep(b, sorted[p..], k, lines);
    assert sorted[p..][..k] == sorted[p..p + k];
    assert sorted[p..][k..] == sorted[p + k..];
    if p + k <= runEnd {
      RunLengthDrop(sorted[p..], b.byteAddrs, k);
    }
  }

  /** The records of the run of consecutive words `sorted[idx..runEnd + 1]`, written behind `before`. */
  method WriteRun(b: Body, sorted: seq<EmittedWord>, idx: nat, runEnd: nat, before: seq<RelLine>)
    returns (r: Result<seq<RelLine>>)
    requires idx <= runEnd < |sorted| && RunLength(sorted[idx..], b.byteAddrs) == runEnd - idx + 1
    ensures match r
      case Err(e) => After(before, BodyLines(b, sorted[idx..])) == Err(e)
      case Ok(lines) =>
        After(before, BodyLines(b, sorted[idx..])) == After(lines, BodyLines(b, sorted[runEnd + 1..]))
  {
    hide BodyLines, ChunkLines, RunLength;
    var lines, p := before, idx;
    while p <= runEnd
      invariant idx <= p <= runEnd + 1
      invariant p <= runEnd ==> RunLength(sorted[p..], b.byteAddrs) == runEnd - p + 1
      invariant After(before, BodyLines(b, sorted[idx..])) == After(lines, BodyLines(b, sorted[p..]))
    {
      var chunkWords := if MAX_WORDS < runEnd - p + 1 then MAX_WORDS else runEnd - p + 1;
      BodyStepAt(b, sorted, p, runEnd, chunkWords, lines);
      var record := WriteChunk(b, sorted[p..p + chunkWords]);
      if record.Err? { return Err(record.error); }
      lines := lines + record.value;
      p := p + chunkWords;
    }
    r := Ok(lines);
  }

  /** The T and R records of one area: find a run of consecutive words, cut it, go on. */
  method WriteBody(b: Body, sorted: seq<EmittedWord>) returns (r: Result<seq<RelLine>>)
    ensures r == BodyLines(b, sorted)
  {
    hide RunLength, After, ChunkLines, Chunks;
    var lines: seq<RelLine> := [];
    AfterNothing(BodyLines(b, sorted));
    assert sorted[0..] == sorted;
    var idx := 0;
    while idx < |sorted|
      invariant idx <= |sorted|
      invariant BodyLines(b, sorted) == After(lines, BodyLines(b, sorted[idx..]))
    {
      var runEnd := FindRunEnd(sorted, idx, b.byteAddrs);
      var run := WriteRun(b, sorted, idx, runEnd, lines);
      if run.Err? { return Err(run.error); }
      lines := run.value;
      idx := runEnd + 1;
    }
    AfterAll(lines);
    r := Ok(lines);
  }

  lemma EmptyIndex()
    ensures IndexMap([]) == map[]
  {
  }

  lemma IndexMapSnoc(names: seq<string>, n: string)
    ensures IndexMap(names + [n]) == IndexMap(names)[n := |names|]
  {
    assert (names + [n])[..|names|] == names;
  }

  /** Give every name of `names` the next number. */
  method NumberAll(names: seq<string>, ghost done: seq<string>, numbers: map<string, nat>, next: nat)
    returns (numbers': map<string, nat>, next': nat)
    requires numbers == IndexMap(done) && next == |done|
    ensures numbers' == IndexMap(done + names) && next' == |done + names|
  {
    hide IndexMap;
    numbers', next' := numbers, next;
    assert done + names[..0] == done;
    for i := 0 to |names|
      invariant numbers' == IndexMap(done + names[..i]) && next' == |done| + i
    {
      assert done + names[..i + 1] == done + names[..i] + [names[i]];
      IndexMapSnoc(done + names[..i], names[i]);
      numbers', next' := numbers'[names[i] := next'], next' + 1;
    }
    assert names[..|names|] == names;
  }

  method NumberArea(m: Module, area: string, ghost done: seq<string>, numbers: map<string, nat>, next: nat)
    returns (numbers': map<string, nat>, next': nat)
    requires numbers == IndexMap(done) && next == |done|
    ensures numbers' == IndexMap(done + AreaSymbols(m, area)) && next' == |done + AreaSymbols(m, area)|
  {
    hide IndexMap;
    var defined := GlobalNames(DefinedIn(m.globals, area));
    var checkpoints := CheckpointNames(CheckpointsIn(m.checkpoints, area));
    numbers', next' := NumberAll(defined, done, numbers, next);
    numbers', next' := NumberAll(checkpoints, done + defined, numbers', next');
    assert done + defined + checkpoints == done + AreaSymbols(m, area);
  }

  /** The numbering pass: references, then area by area the definitions and the checkpoints. */
  method NumberSymbols(m: Module) returns (numbers: map<string, nat>, symN: nat)
    ensures numbers == IndexMap(SymbolOrder(m)) && symN == |SymbolOrder(m)|
  {
    hide IndexMap, AreaNames, AreaSymbols;
    var names := AreaNames(m);
    var refs := GlobalNames(References(m.globals));
    assert IndexMap([]) == map[] by { EmptyIndex(); }
    numbers, symN := NumberAll([ABS_NAME], [], map[], 0);
    numbers, symN := NumberAll(refs, [] + [ABS_NAME], numbers, symN);
    ghost var done := [] + [ABS_NAME] + refs;
    assert names[0..] == names;
    for k := 0 to |names|
      invariant numbers == IndexMap(done) && symN == |done|
      invariant done + AllAreaSymbols(m, names[k..]) == SymbolOrder(m)
    {
      assert names[k..][1..] == names[k + 1..];
      ghost var rest := AllAreaSymbols(m, names[k + 1..]);
      assert done + (AreaSymbols(m, names[k]) + rest) == done + AreaSymbols(m, names[k]) + rest;
      numbers, symN := NumberArea(m, names[k], done, numbers, symN);
      done := done + AreaSymbols(m, names[k]);
    }
    assert done + [] == done;
  }

  method WriteArea(m: Module, t: Tables, area: string) returns (r: Result<seq<RelLine>>)
    ensures r == AreaLines(m, t, area)
  {
    var lines := [ALine(area, SizeRel(m, area) % 0x1_0000)];
    lines := lines + DefLines(m, DefinedIn(m.globals, area));
    lines := lines + CheckpointLines(m, CheckpointsIn(m.checkpoints, area));
    var body := WriteBody(BodyOf(m, t, area), WordsOf(m, area));
    if body.Err? { return Err(body.error); }
    r := Ok(lines + body.value);
  }

  method WriteAreas(m: Module, t: Tables, names: seq<string>) returns (r: Result<seq<RelLine>>)
    ensures r == AllAreaLines(m, t, names)
  {
    var lines: seq<RelLine> := [];
    ghost var spec := AllAreaLines(m, t, names);
    AfterNothing(spec);
    assert names[0..] == names;
    for k := 0 to |names|
      invariant spec == After(lines, AllAreaLines(m, t, names[k..]))
    {
      assert names[k..][1..] == names[k + 1..];
      var here := WriteArea(m, t, names[k]);
      if here.Err? { return Err(here.error); }
      AfterMore(lines, here.value, AllAreaLines(m, t, names[k + 1..]));
      lines := lines + here.value;
    }
    assert lines + [] == lines;
    r := Ok(lines);
  }

  method WriteRel(m: Module, moduleName: string) returns (r: Result<seq<RelLine>>)
    ensures r == RelText(m, moduleName)
  {
    var names := AreaNames(m);
    var numbers, symN := NumberSymbols(m);
    var head := [XH2, HLine(|names|, symN), MLine(moduleName), SLine(ABS_NAME, true, 0)];
    head := head + DefLines(m, References(m.globals));
    var body := WriteAreas(m, Tables(IndexMap(names), numbers), names);
    if body.Err? { return Err(body.error); }
    r := Ok(head + body.value + [ELine]);
  }
}
