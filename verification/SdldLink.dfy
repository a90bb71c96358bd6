/** After the linker: where each module's areas landed, and the fixup that turns the byte addresses
    of the linked MN1613 image back into word addresses, in place. */
module SdldLink {
  import opened Results
  import opened Bytes
  import opened Assembly
  import opened RelWriter
  import opened RelParser

  /** The linker's symbol table, in the order its map file lists the names. */
  type Defs = seq<(string, nat)>

  const WORD32: nat := 0x1_0000_0000

  function Exact(defs: Defs, name: string): Option<nat> {
    if defs == [] then None else if defs[0].0 == name then Some(defs[0].1) else Exact(defs[1..], name)
  }

  function AnyCase(defs: Defs, name: string): Option<nat> {
    if defs == [] then None
    else if Upper(defs[0].0) == Upper(name) then Some(defs[0].1)
    else AnyCase(defs[1..], name)
  }

  /** The exact name wins over a name that differs in case only. */
  function DefLookup(defs: Defs, name: string): Option<nat> {
    var v := Exact(defs, name);
    if v.Some? then v else AnyCase(defs, name)
  }

  function OrElse(v: Option<nat>, other: nat): nat { if v.Some? then v.value else other }

  /** The byte bases given to the linker. */
  function AreaBase(area: string): Option<nat> {
    if area == "_SYS_PAGE0" then Some(0x10)
    else if area == "_USR_PAGE0" then Some(0x80)
    else if area == "_VECTOR" || area == "_BIOS" || area == "_CODE" then Some(0)
    else None
  }

  function Seed(defs: Defs, area: string, fallback: nat): nat {
    OrElse(DefLookup(defs, "s_" + area), OrElse(AreaBase(area), fallback))
  }

  function InitialCursor(defs: Defs): map<string, nat> {
    map["_BIOS" := Seed(defs, "_BIOS", 0),
        "_CODE" := Seed(defs, "_CODE", 0),
        "_DATA" := Seed(defs, "_DATA", OrElse(DefLookup(defs, "s__CODE"), 0)),
        "_WORK" := Seed(defs, "_WORK", OrElse(DefLookup(defs, "s__DATA"), 0)),
        "_SYS_PAGE0" := Seed(defs, "_SYS_PAGE0", 0x10),
        "_USR_PAGE0" := Seed(defs, "_USR_PAGE0", 0x80),
        "_VECTOR" := Seed(defs, "_VECTOR", 0)]
  }

  type Bases = map<string, nat>

  /** Where the area starts for the module at hand. */
  function CursorAt(cursor: Bases, defs: Defs, area: string): nat {
    if area in cursor then cursor[area] else Seed(defs, area, 0)
  }

  function SizeOf(rel: ParsedRel, area: string): nat {
    if area in rel.areaSizes then rel.areaSizes[area] else 0
  }

  /** One A line of a module: the cursor moves past the module's share, except in the overlay `_VECTOR`. */
  function StepCursor(cursor: Bases, defs: Defs, rel: ParsedRel, area: string): Bases {
    var at := CursorAt(cursor, defs, area);
    cursor[area := if area == "_VECTOR" then at else (at + SizeOf(rel, area)) % WORD32]
  }

  function WalkAreas(areas: seq<string>, rel: ParsedRel, defs: Defs, cursor: Bases, base: Bases): (Bases, Bases)
    decreases areas
  {
    if areas == [] then (cursor, base)
    else WalkAreas(areas[1..], rel, defs, StepCursor(cursor, defs, rel, areas[0]),
                   base[areas[0] := CursorAt(cursor, defs, areas[0])])
  }

  function BasesFrom(rels: seq<ParsedRel>, defs: Defs, cursor: Bases): (r: seq<Bases>)
    ensures |r| == |rels|
    decreases rels
  {
    if rels == [] then []
    else
      var walked := WalkAreas(rels[0].areas, rels[0], defs, cursor, map[]);
      [walked.1] + BasesFrom(rels[1..], defs, walked.0)
  }

  /** For every module, the byte base of each of its areas. */
  function AllBases(rels: seq<ParsedRel>, defs: Defs): (r: seq<Bases>)
    ensures |r| == |rels|
  {
    BasesFrom(rels, defs, InitialCursor(defs))
  }

  method ModuleAreaBases(rels: seq<ParsedRel>, defs: Defs) returns (out: seq<Bases>)
    ensures out == AllBases(rels, defs)
  {
    hide InitialCursor, StepCursor;
    var cursor := InitialCursor(defs);
    out := [];
    assert rels[0..] == rels;
    for i := 0 to |rels|
      invariant AllBases(rels, defs) == out + BasesFrom(rels[i..], defs, cursor)
    {
      assert rels[i..][1..] == rels[i + 1..];
      var rel := rels[i];
      var thisBase: Bases := map[];
      ghost var start := cursor;
      assert rel.areas[0..] == rel.areas;
      for k := 0 to |rel.areas|
        invariant
          WalkAreas(rel.areas, rel, defs, start, map[]) == WalkAreas(rel.areas[k..], rel, defs, cursor, thisBase)
      {
        assert rel.areas[k..][1..] == rel.areas[k + 1..];
        thisBase := thisBase[rel.areas[k] := CursorAt(cursor, defs, rel.areas[k])];
        cursor := StepCursor(cursor, defs, rel, rel.areas[k]);
      }
      out := out + [thisBase];
    }
  }

  // ----- the image

  type ByteMap = map<int, Byte>

  function Get(bytes: ByteMap, addr: int): Byte { if addr in bytes then bytes[addr] else 0 }

  function Read16(bytes: ByteMap, addr: int): nat { Get(bytes, addr) * 256 + Get(bytes, addr + 1) }

  function Write16(bytes: ByteMap, addr: int, v: nat): ByteMap { bytes[addr := Hi(v)][addr + 1 := Lo(v)] }

  /** One field the fixup rewrites. */
  datatype Action = Halve(addr: int) | SetByte(addr: int, v: Byte)

  function Apply(bytes: ByteMap, act: Action): ByteMap {
    match act
    case Halve(addr) => Write16(bytes, addr, Read16(bytes, addr) / 2)
    case SetByte(addr, v) => bytes[addr := v]
  }

  function ApplyAll(bytes: ByteMap, acts: seq<Action>): ByteMap
    decreases acts
  {
    if acts == [] then bytes else ApplyAll(Apply(bytes, acts[0]), acts[1..])
  }

  /** The byte base of the area an item refers to. */
  function SourceBase(base: Bases, defs: Defs, area: string): nat {
    if area in base then base[area] else Seed(defs, area, 0)
  }

  function SymbolAt(rel: ParsedRel, index: nat): string { if index < |rel.symbols| then rel.symbols[index] else "" }

  function AreaAt(rel: ParsedRel, index: nat, other: string): string {
    if index < |rel.areas| then rel.areas[index] else other
  }

  function SymbolValue(defs: Defs, name: string): nat { OrElse(DefLookup(defs, name), 0) }

  /** The byte address of an item's field. */
  function FieldAddr(base: Bases, chunk: RelChunk, it: Item): int {
    ((if chunk.areaName in base then base[chunk.areaName] else 0) + chunk.tAddr + it.rtp - 2) % WORD32
  }

  function DataAt(chunk: RelChunk, i: int): nat { if 0 <= i < |chunk.data| then chunk.data[i] else 0 }

  function ItemAction(rel: ParsedRel, base: Bases, defs: Defs, chunk: RelChunk, it: Item): Action {
    var addr := FieldAddr(base, chunk, it);
    if it.mode % 2 == 0 then Halve(addr)
    else if it.mode / 2 % 2 == 1 then
      SetByte(addr, SymbolValue(defs, SymbolAt(rel, it.index)) / 2 % 256)
    else
      var source := SourceBase(base, defs, AreaAt(rel, it.index, chunk.areaName));
      SetByte(addr, (source + DataAt(chunk, it.rtp - 2)) % WORD32 / 2 % 256)
  }

  function ItemActions(rel: ParsedRel, base: Bases, defs: Defs, chunk: RelChunk): seq<Action> {
    seq(|chunk.items|, j requires 0 <= j < |chunk.items| => ItemAction(rel, base, defs, chunk, chunk.items[j]))
  }

  function ChunkActions(rel: ParsedRel, base: Bases, defs: Defs, chunks: seq<RelChunk>): seq<Action> {
    if chunks == [] then []
    else ItemActions(rel, base, defs, chunks[0]) + ChunkActions(rel, base, defs, chunks[1..])
  }

  function RelActions(rels: seq<ParsedRel>, bases: seq<Bases>, defs: Defs): seq<Action>
    requires |bases| == |rels|
  {
    if rels == [] then []
    else ChunkActions(rels[0], bases[0], defs, rels[0].chunks) + RelActions(rels[1..], bases[1..], defs)
  }

  /** The image after the word-address fixup. */
  function Fixed(bytes: ByteMap, rels: seq<ParsedRel>, defs: Defs): ByteMap {
    ApplyAll(bytes, RelActions(rels, AllBases(rels, defs), defs))
  }

  lemma {:induction false} ApplyConcat(bytes: ByteMap, a: seq<Action>, b: seq<Action>)
    ensures ApplyAll(bytes, a + b) == ApplyAll(ApplyAll(bytes, a), b)
    decreases a
  {
    hide Apply;
    if a == [] {
      assert a + b == b;
    } else {
      assert (a + b)[0] == a[0] && (a + b)[1..] == a[1..] + b;
      ApplyConcat(Apply(bytes, a[0]), a[1..], b);
    }
  }

  /** The sparse image of the linked program. */
  class Image {
    var bytes: ByteMap

    constructor (bytes: ByteMap)
      ensures this.bytes == bytes
    {
      this.bytes := bytes;
    }

    method Read16be(addr: int) returns (v: nat)
      ensures v == Read16(bytes, addr)
    {
      v := Get(bytes, addr) * 256 + Get(bytes, addr + 1);
    }

    method Write16be(addr: int, v: nat)
      modifies this
      ensures bytes == Write16(old(bytes), addr, v)
    {
      bytes := bytes[addr := Hi(v)];
      bytes := bytes[addr + 1 := Lo(v)];
    }

    method FixChunk(rel: ParsedRel, base: Bases, defs: Defs, chunk: RelChunk)
      modifies this
      ensures bytes == ApplyAll(old(bytes), ItemActions(rel, base, defs, chunk))
    {
      ghost var acts := ItemActions(rel, base, defs, chunk);
      assert acts[0..] == acts;
      for j := 0 to |chunk.items|
        invariant ApplyAll(old(bytes), acts) == ApplyAll(bytes, acts[j..])
      {
        assert acts[j..][0] == acts[j] && acts[j..][1..] == acts[j + 1..];
        var it := chunk.items[j];
        var addr := FieldAddr(base, chunk, it);
        if it.mode % 2 != 0 {
          if it.mode / 2 % 2 != 0 {
            var symVal := SymbolValue(defs, SymbolAt(rel, it.index));
            bytes := bytes[addr := symVal / 2 % 256];
          } else {
            var srcBase := SourceBase(base, defs, AreaAt(rel, it.index, chunk.areaName));
            var orig := DataAt(chunk, it.rtp - 2);
            bytes := bytes[addr := (srcBase + orig) % WORD32 / 2 % 256];
          }
        } else {
          var v := Read16be(addr);
          Write16be(addr, v / 2);
        }
      }
    }

    method FixModule(rel: ParsedRel, base: Bases, defs: Defs)
      modifies this
      ensures bytes == ApplyAll(old(bytes), ChunkActions(rel, base, defs, rel.chunks))
    {
      hide ApplyAll, ItemActions;
      ghost var acts := ChunkActions(rel, base, defs, rel.chunks);
      assert rel.chunks[0..] == rel.chunks;
      for k := 0 to |rel.chunks|
        invariant ApplyAll(old(bytes), acts) == ApplyAll(bytes, ChunkActions(rel, base, defs, rel.chunks[k..]))
      {
        assert rel.chunks[k..][1..] == rel.chunks[k + 1..];
        ApplyConcat(bytes, ItemActions(rel, base, defs, rel.chunks[k]),
                    ChunkActions(rel, base, defs, rel.chunks[k + 1..]));
        FixChunk(rel, base, defs, rel.chunks[k]);
      }
      ApplyNothing(bytes);
    }

    /** Halve every relocated 16-bit field; recompute every relocated low byte. */
    method ApplyMn1613WordAddrFixup(rels: seq<ParsedRel>, defs: Defs)
      modifies this
      ensures bytes == Fixed(old(bytes), rels, defs)
    {
      hide ApplyAll, ChunkActions, AllBases;
      var bases := ModuleAreaBases(rels, defs);
      ghost var acts := RelActions(rels, bases, defs);
      assert rels[0..] == rels && bases[0..] == bases;
      for i := 0 to |rels|
        invariant ApplyAll(old(bytes), acts) == ApplyAll(bytes, RelActions(rels[i..], bases[i..], defs))
      {
        assert rels[i..][1..] == rels[i + 1..] && bases[i..][1..] == bases[i + 1..];
        ApplyConcat(bytes, ChunkActions(rels[i], bases[i], defs, rels[i].chunks),
                    RelActions(rels[i + 1..], bases[i + 1..], defs));
        FixModule(rels[i], bases[i], defs);
      }
      ApplyNothing(bytes);
    }
  }

  lemma ApplyNothing(bytes: ByteMap)
    ensures ApplyAll(bytes, []) == bytes
  {
  }
}
