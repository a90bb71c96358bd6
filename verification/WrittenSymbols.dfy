/** The symbols of a REL file: which S lines it holds, behind which A line, with which values. */
module WrittenSymbols {
  import opened Results
  import opened Assembly
  import opened RelWriter

  /** An S line and the area whose A line it follows. */
  type FileSymbol = (Option<string>, RelLine)

  /** The S lines of a file as a linker reads them, line by line. */
  function Symbols(lines: seq<RelLine>, area: Option<string>): seq<FileSymbol>
    decreases lines
  {
    if lines == [] then []
    else if lines[0].ALine? then Symbols(lines[1..], Some(lines[0].area))
    else if lines[0].SLine? then [(area, lines[0])] + Symbols(lines[1..], area)
    else Symbols(lines[1..], area)
  }

  function LastArea(lines: seq<RelLine>, area: Option<string>): Option<string>
    decreases lines
  {
    if lines == [] then area
    else LastArea(lines[1..], if lines[0].ALine? then Some(lines[0].area) else area)
  }

  function AreaLineCount(lines: seq<RelLine>): nat
    decreases lines
  {
    if lines == [] then 0 else (if lines[0].ALine? then 1 else 0) + AreaLineCount(lines[1..])
  }

  /** A byte offset: twice the word address on the MN1613, cut to 16 bits. */
  function Offset(units: nat, byteAddrs: bool): nat { (if byteAddrs then units else 2 * units) % 0x1_0000 }

  /** A definition stands behind the A line of its area, with its offset; a reference in front of all areas. */
  function GlobalEntry(g: Global, byteAddrs: bool): FileSymbol {
    if g.def then (Some(CanonicalAreaName(g.area)), SLine(SdldSymName(g.name), true, Offset(g.value, byteAddrs)))
    else (None, SLine(SdldSymName(g.name), false, 0))
  }

  function CheckpointEntry(c: Checkpoint, byteAddrs: bool): FileSymbol {
    (Some(CanonicalAreaName(c.area)), SLine("__CP$" + c.id, true, Offset(c.address, byteAddrs)))
  }

  function GlobalEntries(gs: seq<Global>, byteAddrs: bool): seq<FileSymbol> {
    seq(|gs|, i requires 0 <= i < |gs| => GlobalEntry(gs[i], byteAddrs))
  }

  function CheckpointEntries(cs: seq<Checkpoint>, byteAddrs: bool): seq<FileSymbol> {
    seq(|cs|, i requires 0 <= i < |cs| => CheckpointEntry(cs[i], byteAddrs))
  }

  // ----- lines in a row

  lemma {:induction false} SymbolsConcat(a: seq<RelLine>, b: seq<RelLine>, area: Option<string>)
    ensures Symbols(a + b, area) == Symbols(a, area) + Symbols(b, LastArea(a, area))
    ensures LastArea(a + b, area) == LastArea(b, LastArea(a, area))
    ensures AreaLineCount(a + b) == AreaLineCount(a) + AreaLineCount(b)
    decreases a
  {
    if a == [] {
      assert a + b == b;
    } else {
      assert (a + b)[0] == a[0] && (a + b)[1..] == a[1..] + b;
      SymbolsConcat(a[1..], b, if a[0].ALine? then Some(a[0].area) else area);
    }
  }

  /** A run of S lines, all in one area. */
  lemma {:induction false} OnlySymbols(lines: seq<RelLine>, area: Option<string>)
    requires forall l | l in lines :: l.SLine?
    ensures Symbols(lines, area) == seq(|lines|, i requires 0 <= i < |lines| => (area, lines[i]))
    ensures LastArea(lines, area) == area && AreaLineCount(lines) == 0
    decreases lines
  {
    if lines != [] {
      assert lines[0] in lines;
      OnlySymbols(lines[1..], area);
    }
  }

  lemma {:induction false} NoSymbols(lines: seq<RelLine>, area: Option<string>)
    requires forall l | l in lines :: !l.SLine? && !l.ALine?
    ensures Symbols(lines, area) == [] && LastArea(lines, area) == area && AreaLineCount(lines) == 0
    decreases lines
  {
    if lines != [] {
      assert lines[0] in lines;
      NoSymbols(lines[1..], area);
    }
  }

  lemma {:induction false} BodyHasNone(b: Body, s: seq<EmittedWord>)
    requires BodyLines(b, s).Ok?
    ensures forall l | l in BodyLines(b, s).value :: l.TLine? || l.RLine?
    decreases |s|
  {
    hide Items, ChunkBytes;
    if s != [] {
      BodyHasNone(b, s[|Chunks(s, b.byteAddrs)[0]|..]);
    }
  }

  // ----- one area, all areas

  function AreaEntries(m: Module, area: string): seq<FileSymbol> {
    GlobalEntries(DefinedIn(m.globals, area), m.byteAddrs) +
    CheckpointEntries(CheckpointsIn(m.checkpoints, area), m.byteAddrs)
  }

  function AllAreaEntries(m: Module, names: seq<string>): seq<FileSymbol> {
    if names == [] then [] else AreaEntries(m, names[0]) + AllAreaEntries(m, names[1..])
  }

  lemma {:induction false} DefinedInHas(gs: seq<Global>, area: string)
    ensures forall g | g in DefinedIn(gs, area) :: g.def && CanonicalAreaName(g.area) == area
    ensures forall g | g in References(gs) :: !g.def
  {
    hide CanonicalAreaName;
    if gs != [] {
      DefinedInHas(gs[1..], area);
    }
  }

  lemma {:induction false} CheckpointsInHas(cs: seq<Checkpoint>, area: string)
    ensures forall c | c in CheckpointsIn(cs, area) :: CanonicalAreaName(c.area) == area
  {
    hide CanonicalAreaName;
    if cs != [] {
      CheckpointsInHas(cs[1..], area);
    }
  }

  lemma DefsWritten(m: Module, area: string)
    ensures Symbols(DefLines(m, DefinedIn(m.globals, area)), Some(area)) ==
      GlobalEntries(DefinedIn(m.globals, area), m.byteAddrs)
    ensures LastArea(DefLines(m, DefinedIn(m.globals, area)), Some(area)) == Some(area)
    ensures AreaLineCount(DefLines(m, DefinedIn(m.globals, area))) == 0
  {
    hide CanonicalAreaName, SdldSymName, DefinedIn;
    var gs := DefinedIn(m.globals, area);
    DefinedInHas(m.globals, area);
    OnlySymbols(DefLines(m, gs), Some(area));
    forall i | 0 <= i < |gs| ensures (Some(area), DefLines(m, gs)[i]) == GlobalEntry(gs[i], m.byteAddrs) {
      assert gs[i] in gs;
    }
  }

  lemma RefsWritten(m: Module)
    ensures Symbols(DefLines(m, References(m.globals)), None) == GlobalEntries(References(m.globals), m.byteAddrs)
    ensures LastArea(DefLines(m, References(m.globals)), None) == None
    ensures AreaLineCount(DefLines(m, References(m.globals))) == 0
  {
    hide CanonicalAreaName, SdldSymName, References;
    var gs := References(m.globals);
    DefinedInHas(m.globals, "");
    OnlySymbols(DefLines(m, gs), None);
    forall i | 0 <= i < |gs| ensures (None, DefLines(m, gs)[i]) == GlobalEntry(gs[i], m.byteAddrs) {
      assert gs[i] in gs;
    }
  }

  lemma CheckpointsWritten(m: Module, area: string)
    ensures Symbols(CheckpointLines(m, CheckpointsIn(m.checkpoints, area)), Some(area)) ==
      CheckpointEntries(CheckpointsIn(m.checkpoints, area), m.byteAddrs)
    ensures LastArea(CheckpointLines(m, CheckpointsIn(m.checkpoints, area)), Some(area)) == Some(area)
    ensures AreaLineCount(CheckpointLines(m, CheckpointsIn(m.checkpoints, area))) == 0
  {
    hide CanonicalAreaName, CheckpointsIn;
    var cs := CheckpointsIn(m.checkpoints, area);
    CheckpointsInHas(m.checkpoints, area);
    OnlySymbols(CheckpointLines(m, cs), Some(area));
    forall i | 0 <= i < |cs| ensures (Some(area), CheckpointLines(m, cs)[i]) == CheckpointEntry(cs[i], m.byteAddrs) {
      assert cs[i] in cs;
    }
  }

  lemma AreaWrites(m: Module, t: Tables, area: string, before: Option<string>)
    requires AreaLines(m, t, area).Ok?
    ensures var lines := AreaLines(m, t, area).value;
      Symbols(lines, before) == AreaEntries(m, area) && AreaLineCount(lines) == 1
  {
    hide BodyLines, DefLines, CheckpointLines, DefinedIn, CheckpointsIn, SizeRel, WordsOf, GlobalEntries,
      CheckpointEntries, BodyOf;
    var head := [ALine(area, SizeRel(m, area) % 0x1_0000)];
    var defs, cps := DefLines(m, DefinedIn(m.globals, area)), CheckpointLines(m, CheckpointsIn(m.checkpoints, area));
    var body := BodyLines(BodyOf(m, t, area), WordsOf(m, area)).value;
    DefsWritten(m, area);
    CheckpointsWritten(m, area);
    BodyHasNone(BodyOf(m, t, area), WordsOf(m, area));
    NoSymbols(body, Some(area));
    SymbolsConcat(head, defs, before);
    assert head[1..] == [];
    SymbolsConcat(head + defs, cps, before);
    SymbolsConcat(head + defs + cps, body, before);
  }

  lemma {:induction false} AreasWrite(m: Module, t: Tables, names: seq<string>, before: Option<string>)
    requires AllAreaLines(m, t, names).Ok?
    ensures var lines := AllAreaLines(m, t, names).value;
      Symbols(lines, before) == AllAreaEntries(m, names) && AreaLineCount(lines) == |names|
    decreases names
  {
    hide AreaLines, AreaEntries;
    if names != [] {
      var here, rest := AreaLines(m, t, names[0]).value, AllAreaLines(m, t, names[1..]).value;
      AreaWrites(m, t, names[0], before);
      AreasWrite(m, t, names[1..], LastArea(here, before));
      SymbolsConcat(here, rest, before);
    }
  }

  /** The S lines in order: the absolute symbol, the references, and area by area what it defines. */
  lemma SymbolsInOrder(m: Module, moduleName: string)
    requires RelText(m, moduleName).Ok?
    ensures var text := RelText(m, moduleName).value;
      Symbols(text, None) == [(None, SLine(".__.ABS.", true, 0))] + GlobalEntries(References(m.globals), m.byteAddrs) +
                             AllAreaEntries(m, AreaNames(m)) &&
      AreaLineCount(text) == |AreaNames(m)|
  {
    hide AllAreaLines, AreaNames, SymbolOrder, DefLines, References, AllAreaEntries, GlobalEntries, TablesOf;
    var first := [XH2, HLine(|AreaNames(m)|, |SymbolOrder(m)|), MLine(moduleName), SLine(ABS_NAME, true, 0)];
    var refs, body := DefLines(m, References(m.globals)), AllAreaLines(m, TablesOf(m), AreaNames(m)).value;
    FirstLines(m, moduleName);
    RefsWritten(m);
    SymbolsConcat(first, refs, None);
    AreasWrite(m, TablesOf(m), AreaNames(m), LastArea(first + refs, None));
    SymbolsConcat(first + refs, body, None);
    NoSymbols([ELine], LastArea(first + refs + body, None));
    SymbolsConcat(first + refs + body, [ELine], None);
    assert HeadLines(m, moduleName) == first + refs;
  }

  lemma FirstLines(m: Module, moduleName: string)
    ensures var first := [XH2, HLine(|AreaNames(m)|, |SymbolOrder(m)|), MLine(moduleName), SLine(ABS_NAME, true, 0)];
      Symbols(first, None) == [(None, SLine(".__.ABS.", true, 0))] && LastArea(first, None) == None &&
      AreaLineCount(first) == 0
  {
    hide AreaNames, SymbolOrder;
    var h := HLine(|AreaNames(m)|, |SymbolOrder(m)|);
    var abs := SLine(ABS_NAME, true, 0);
    var first := [XH2, h, MLine(moduleName), abs];
    NoSymbols([XH2, h, MLine(moduleName)], None);
    SymbolsConcat([XH2, h, MLine(moduleName)], [abs], None);
    assert first == [XH2, h, MLine(moduleName)] + [abs];
    assert [abs][1..] == [];
  }

  // ----- each symbol once

  /** What area after area defines, each of it counted. */
  function GlobalsByArea(gs: seq<Global>, names: seq<string>, byteAddrs: bool): multiset<FileSymbol> {
    if names == [] then multiset{}
    else multiset(GlobalEntries(DefinedIn(gs, names[0]), byteAddrs)) + GlobalsByArea(gs, names[1..], byteAddrs)
  }

  lemma {:induction false} OneMoreGlobal(gs: seq<Global>, names: seq<string>, byteAddrs: bool)
    requires gs != [] && NoDup(names)
    ensures GlobalsByArea(gs, names, byteAddrs) ==
      (if gs[0].def && CanonicalAreaName(gs[0].area) in names then multiset{GlobalEntry(gs[0], byteAddrs)}
       else multiset{}) + GlobalsByArea(gs[1..], names, byteAddrs)
    decreases names
  {
    hide CanonicalAreaName, GlobalEntry;
    if names != [] {
      OneMoreGlobal(gs, names[1..], byteAddrs);
      forall n | n in names[1..] ensures n != names[0] {
        var i :| 0 <= i < |names[1..]| && names[1..][i] == n;
        assert names[i + 1] == n;
      }
      EntriesCons(gs[0], DefinedIn(gs[1..], names[0]), byteAddrs);
    }
  }

  lemma EntriesCons(g: Global, gs: seq<Global>, byteAddrs: bool)
    ensures multiset(GlobalEntries([g] + gs, byteAddrs)) ==
      multiset{GlobalEntry(g, byteAddrs)} + multiset(GlobalEntries(gs, byteAddrs))
    ensures [] + gs == gs
  {
    hide GlobalEntry;
    assert GlobalEntries([g] + gs, byteAddrs) == [GlobalEntry(g, byteAddrs)] + GlobalEntries(gs, byteAddrs);
  }

  lemma {:induction false} NoGlobalEntries(names: seq<string>, byteAddrs: bool)
    ensures GlobalsByArea([], names, byteAddrs) == multiset{}
  {
    if names != [] {
      NoGlobalEntries(names[1..], byteAddrs);
    }
  }

  /** The references and the definitions of all areas together are the globals, each once. */
  lemma {:induction false} GlobalsOnce(gs: seq<Global>, names: seq<string>, byteAddrs: bool)
    requires NoDup(names) && forall g | g in gs && g.def :: CanonicalAreaName(g.area) in names
    ensures multiset(GlobalEntries(References(gs), byteAddrs)) + GlobalsByArea(gs, names, byteAddrs) ==
      multiset(GlobalEntries(gs, byteAddrs))
    decreases gs
  {
    hide CanonicalAreaName, GlobalEntry, GlobalsByArea;
    if gs == [] {
      NoGlobalEntries(names, byteAddrs);
    } else {
      assert gs[0] in gs && gs == [gs[0]] + gs[1..];
      GlobalsOnce(gs[1..], names, byteAddrs);
      OneMoreGlobal(gs, names, byteAddrs);
      EntriesCons(gs[0], gs[1..], byteAddrs);
      EntriesCons(gs[0], References(gs[1..]), byteAddrs);
    }
  }

  function CheckpointsByArea(cs: seq<Checkpoint>, names: seq<string>, byteAddrs: bool): multiset<FileSymbol> {
    if names == [] then multiset{}
    else multiset(CheckpointEntries(CheckpointsIn(cs, names[0]), byteAddrs)) +
         CheckpointsByArea(cs, names[1..], byteAddrs)
  }

  lemma CheckpointsCons(c: Checkpoint, cs: seq<Checkpoint>, byteAddrs: bool)
    ensures multiset(CheckpointEntries([c] + cs, byteAddrs)) ==
      multiset{CheckpointEntry(c, byteAddrs)} + multiset(CheckpointEntries(cs, byteAddrs))
    ensures [] + cs == cs
  {
    hide CheckpointEntry;
    assert CheckpointEntries([c] + cs, byteAddrs) == [CheckpointEntry(c, byteAddrs)] + CheckpointEntries(cs, byteAddrs);
  }

  lemma {:induction false} OneMoreCheckpoint(cs: seq<Checkpoint>, names: seq<string>, byteAddrs: bool)
    requires cs != [] && NoDup(names)
    ensures CheckpointsByArea(cs, names, byteAddrs) ==
      (if CanonicalAreaName(cs[0].area) in names then multiset{CheckpointEntry(cs[0], byteAddrs)}
       else multiset{}) + CheckpointsByArea(cs[1..], names, byteAddrs)
    decreases names
  {
    hide CanonicalAreaName, CheckpointEntry;
    if names != [] {
      OneMoreCheckpoint(cs, names[1..], byteAddrs);
      forall n | n in names[1..] ensures n != names[0] {
        var i :| 0 <= i < |names[1..]| && names[1..][i] == n;
        assert names[i + 1] == n;
      }
      CheckpointsCons(cs[0], CheckpointsIn(cs[1..], names[0]), byteAddrs);
    }
  }

  lemma {:induction false} NoCheckpointEntries(names: seq<string>, byteAddrs: bool)
    ensures CheckpointsByArea([], names, byteAddrs) == multiset{}
  {
    if names != [] {
      NoCheckpointEntries(names[1..], byteAddrs);
    }
  }

  lemma {:induction false} CheckpointsOnce(cs: seq<Checkpoint>, names: seq<string>, byteAddrs: bool)
    requires NoDup(names) && forall c | c in cs :: CanonicalAreaName(c.area) in names
    ensures CheckpointsByArea(cs, names, byteAddrs) == multiset(CheckpointEntries(cs, byteAddrs))
    decreases cs
  {
    hide CanonicalAreaName, CheckpointEntry, CheckpointsByArea;
    if cs == [] {
      NoCheckpointEntries(names, byteAddrs);
    } else {
      assert cs[0] in cs && cs == [cs[0]] + cs[1..];
      CheckpointsOnce(cs[1..], names, byteAddrs);
      OneMoreCheckpoint(cs, names, byteAddrs);
      CheckpointsCons(cs[0], cs[1..], byteAddrs);
    }
  }

  lemma {:induction false} EntriesByArea(m: Module, names: seq<string>)
    ensures multiset(AllAreaEntries(m, names)) ==
      GlobalsByArea(m.globals, names, m.byteAddrs) + CheckpointsByArea(m.checkpoints, names, m.byteAddrs)
  {
    hide GlobalEntries, CheckpointEntries, DefinedIn, CheckpointsIn;
    if names != [] {
      EntriesByArea(m, names[1..]);
    }
  }

  lemma {:induction false} DefinedNamed(gs: seq<Global>, g: Global)
    requires g in gs && g.def
    ensures CanonicalAreaName(g.area) in DefinedAreas(gs)
  {
    hide CanonicalAreaName;
    if gs[0] != g {
      assert g in gs[1..];
      DefinedNamed(gs[1..], g);
    }
  }

  /** Every area a global or checkpoint lies in is among the module's areas. */
  lemma AreasNamed(m: Module)
    ensures NoDup(AreaNames(m))
    ensures forall g | g in m.globals && g.def :: CanonicalAreaName(g.area) in AreaNames(m)
    ensures forall c | c in m.checkpoints :: CanonicalAreaName(c.area) in AreaNames(m)
  {
    hide OrderLinkAreaNames, CanonicalAreaName, DefinedAreas;
    var named := MentionedAreas(m);
    forall g | g in m.globals && g.def ensures CanonicalAreaName(g.area) in AreaNames(m) {
      DefinedNamed(m.globals, g);
      var a := CanonicalAreaName(g.area);
      assert a in named;
      var i :| 0 <= i < |named| && named[i] == a;
      assert CanonicalNames(named)[i] == CanonicalAreaName(a);
      CanonicalTwice(g.area);
    }
    forall c | c in m.checkpoints ensures CanonicalAreaName(c.area) in AreaNames(m) {
      var k :| 0 <= k < |m.checkpoints| && m.checkpoints[k] == c;
      var i := |m.areas| + |m.words| + |DefinedAreas(m.globals)| + k;
      assert named[i] == c.area;
      assert CanonicalNames(named)[i] == CanonicalAreaName(c.area);
    }
  }

  /** The symbols of a written file, each as often as it is declared: the absolute one, every reference without
      a value, and every global and checkpoint behind its area's A line with its byte offset. */
  lemma SymbolsWritten(m: Module, moduleName: string)
    requires RelText(m, moduleName).Ok?
    ensures multiset(Symbols(RelText(m, moduleName).value, None)) ==
      multiset{(None, SLine(".__.ABS.", true, 0))} + multiset(GlobalEntries(m.globals, m.byteAddrs)) +
      multiset(CheckpointEntries(m.checkpoints, m.byteAddrs))
  {
    hide RelText, AreaNames, Symbols, References, AllAreaEntries, GlobalEntries, CheckpointEntries, GlobalsByArea,
      CheckpointsByArea, CanonicalAreaName;
    SymbolsInOrder(m, moduleName);
    AreasNamed(m);
    EntriesByArea(m, AreaNames(m));
    GlobalsOnce(m.globals, AreaNames(m), m.byteAddrs);
    CheckpointsOnce(m.checkpoints, AreaNames(m), m.byteAddrs);
  }

  lemma {:induction false} AreaSymbolCount(m: Module, names: seq<string>)
    ensures |AllAreaSymbols(m, names)| == |AllAreaEntries(m, names)|
  {
    if names != [] {
      AreaSymbolCount(m, names[1..]);
    }
  }

  /** A file begins with its format, the H line, which counts its A lines and S lines, and the module's name, and ends
      with an E line. */
  lemma HeaderCounts(m: Module, moduleName: string)
    requires RelText(m, moduleName).Ok?
    ensures var text := RelText(m, moduleName).value;
      |text| > 3 && text[0] == XH2 && text[1] == HLine(AreaLineCount(text), |Symbols(text, None)|) &&
      text[2] == MLine(moduleName) && text[|text| - 1] == ELine
  {
    hide AllAreaLines, AreaNames, DefLines, References, AllAreaEntries, AllAreaSymbols, TablesOf, Symbols,
      AreaLineCount;
    SymbolsInOrder(m, moduleName);
    AreaSymbolCount(m, AreaNames(m));
  }

  /** `S__` and `L__` in front of a name are spelled small, every other name is written as it is. */
  lemma NamesWritten(rest: string, name: string)
    ensures SdldSymName("S__" + rest) == "s__" + rest && SdldSymName("L__" + rest) == "l__" + rest
    ensures !("S__" <= name) && !("L__" <= name) ==> SdldSymName(name) == name
  {
    assert ("S__" + rest)[1..] == "__" + rest && ("L__" + rest)[1..] == "__" + rest;
    assert ("S__" + rest)[1..3] == "__" && ("L__" + rest)[1..3] == "__";
    assert "s" + ("__" + rest) == "s__" + rest && "l" + ("__" + rest) == "l__" + rest;
    if |name| >= 3 && (name[0] == 'S' || name[0] == 'L') && name[1..3] == "__" {
      assert name[1] == '_' && name[2] == '_';
      assert name[..3] == (if name[0] == 'S' then "S__" else "L__");
    }
  }
}
