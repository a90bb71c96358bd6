/** Where the modules' shares of an area land: one behind the other, in link order. */
module AreaBases {
  import opened Results
  import opened Assembly
  import opened RelParser
  import opened SdldLink

  // ----- the linker's own rule

  /** Where the linker starts an area: where its map puts `s_<area>`.  Without that symbol it is where the
      command file puts the area; `_DATA` and `_WORK` then count from the area they follow. */
  function AreaStart(defs: Defs, area: string): nat {
    var told, code, data := DefLookup(defs, "s_" + area), DefLookup(defs, "s__CODE"), DefLookup(defs, "s__DATA");
    if told.Some? then told.value
    else if area == "_SYS_PAGE0" then 0x10
    else if area == "_USR_PAGE0" then 0x80
    else if area == "_DATA" && code.Some? then code.value
    else if area == "_WORK" && data.Some? then data.value
    else 0
  }

  /** How far a module moves the area on: `_VECTOR` stays. */
  function Share(rel: ParsedRel, area: string): nat {
    if area in rel.areas && area != "_VECTOR" then SizeOf(rel, area) else 0
  }

  /** The shares of the first `j` modules together. */
  function SharesBefore(rels: seq<ParsedRel>, j: nat, area: string): nat
    requires j <= |rels|
    decreases rels
  {
    if j == 0 then 0 else Share(rels[0], area) + SharesBefore(rels[1..], j - 1, area)
  }

  /** A module's part of an area begins where the parts of the modules before it end. */
  function PartStart(rels: seq<ParsedRel>, defs: Defs, i: nat, area: string): nat
    requires i <= |rels|
  {
    AreaStart(defs, area) + SharesBefore(rels, i, area)
  }

  /** For every module, where the linker puts its part of each of its areas. */
  function LinkerBases(rels: seq<ParsedRel>, defs: Defs): (r: seq<Bases>)
    ensures |r| == |rels|
  {
    seq(|rels|, i requires 0 <= i < |rels| => map a | a in rels[i].areas :: PartStart(rels, defs, i, a))
  }

  // ----- a name in the map

  /** The exact name's first entry counts, or else the first of a name that differs in case only. */
  lemma LookupFinds(defs: Defs, name: string)
    ensures DefLookup(defs, name) == None <==> forall k | 0 <= k < |defs| :: Upper(defs[k].0) != Upper(name)
    ensures forall k | 0 <= k < |defs| && defs[k].0 == name && (forall j | 0 <= j < k :: defs[j].0 != name) ::
      DefLookup(defs, name) == Some(defs[k].1)
    ensures (forall j | 0 <= j < |defs| :: defs[j].0 != name) ==>
      forall k | 0 <= k < |defs| && Upper(defs[k].0) == Upper(name) &&
        (forall j | 0 <= j < k :: Upper(defs[j].0) != Upper(name)) :: DefLookup(defs, name) == Some(defs[k].1)
  {
    hide Upper;
    ExactFinds(defs, name);
    AnyCaseFinds(defs, name);
  }

  lemma {:induction false} ExactFinds(defs: Defs, name: string)
    ensures Exact(defs, name) == None <==> forall k | 0 <= k < |defs| :: defs[k].0 != name
    ensures forall k | 0 <= k < |defs| && defs[k].0 == name && (forall j | 0 <= j < k :: defs[j].0 != name) ::
      Exact(defs, name) == Some(defs[k].1)
  {
    if defs != [] && defs[0].0 != name {
      ExactFinds(defs[1..], name);
      forall k | 0 <= k < |defs| && defs[k].0 == name && (forall j | 0 <= j < k :: defs[j].0 != name)
        ensures Exact(defs, name) == Some(defs[k].1)
      {
        assert forall j | 0 <= j < k - 1 :: defs[1..][j] == defs[j + 1];
        assert defs[1..][k - 1] == defs[k];
      }
      assert forall k | 0 < k < |defs| :: defs[1..][k - 1] == defs[k];
    }
  }

  lemma {:induction false} AnyCaseFinds(defs: Defs, name: string)
    ensures AnyCase(defs, name) == None <==> forall k | 0 <= k < |defs| :: Upper(defs[k].0) != Upper(name)
    ensures forall k | 0 <= k < |defs| && Upper(defs[k].0) == Upper(name) &&
      (forall j | 0 <= j < k :: Upper(defs[j].0) != Upper(name)) :: AnyCase(defs, name) == Some(defs[k].1)
  {
    hide Upper;
    if defs != [] && Upper(defs[0].0) != Upper(name) {
      AnyCaseFinds(defs[1..], name);
      forall k | 0 <= k < |defs| && Upper(defs[k].0) == Upper(name) &&
        (forall j | 0 <= j < k :: Upper(defs[j].0) != Upper(name))
        ensures AnyCase(defs, name) == Some(defs[k].1)
      {
        assert forall j | 0 <= j < k - 1 :: defs[1..][j] == defs[j + 1];
        assert defs[1..][k - 1] == defs[k];
      }
      assert forall k | 0 < k < |defs| :: defs[1..][k - 1] == defs[k];
    }
  }

  // ----- the bases the fixup computes

  /** The first module's areas start where the linker starts them. */
  lemma StartsThere(defs: Defs, area: string)
    ensures CursorAt(InitialCursor(defs), defs, area) == AreaStart(defs, area)
  {
    hide DefLookup;
  }

  lemma {:induction false} BeforeGrows(rels: seq<ParsedRel>, i: nat, j: nat, area: string)
    requires i < j <= |rels|
    ensures SharesBefore(rels, i, area) + Share(rels[i], area) <= SharesBefore(rels, j, area)
    decreases rels
  {
    hide Share;
    if i > 0 {
      BeforeGrows(rels[1..], i - 1, j - 1, area);
    }
  }

  lemma {:induction false} WalkedKeys(areas: seq<string>, rel: ParsedRel, defs: Defs, cursor: Bases, base: Bases)
    ensures forall a :: a in WalkAreas(areas, rel, defs, cursor, base).1 <==> a in areas || a in base
    decreases areas
  {
    hide CursorAt, StepCursor;
    if areas != [] {
      var a0 := areas[0];
      WalkedKeys(areas[1..], rel, defs, StepCursor(cursor, defs, rel, a0), base[a0 := CursorAt(cursor, defs, a0)]);
    }
  }

  lemma {:induction false} WalkedAreas(areas: seq<string>, rel: ParsedRel, defs: Defs, cursor: Bases, base: Bases)
    requires NoDup(areas)
    ensures var (cursor', base') := WalkAreas(areas, rel, defs, cursor, base);
      (forall a | a in areas :: a in base' && base'[a] == CursorAt(cursor, defs, a) &&
                                a in cursor' && cursor'[a] == StepCursor(cursor, defs, rel, a)[a]) &&
      (forall a | a !in areas :: CursorAt(cursor', defs, a) == CursorAt(cursor, defs, a) &&
                                 (a in cursor ==> a in cursor')) &&
      (forall a | a !in areas && a in base :: a in base' && base'[a] == base[a])
    decreases areas
  {
    hide Seed;
    if areas != [] {
      var a0 := areas[0];
      assert a0 !in areas[1..];
      WalkedAreas(areas[1..], rel, defs, StepCursor(cursor, defs, rel, a0), base[a0 := CursorAt(cursor, defs, a0)]);
    }
  }

  /** Every module's share of an area starts where the shares of the modules before it end. */
  lemma {:induction false} BasesAreSums(rels: seq<ParsedRel>, defs: Defs, cursor: Bases, j: nat, area: string)
    requires j < |rels| && area in rels[j].areas
    requires forall k | 0 <= k < |rels| :: NoDup(rels[k].areas)
    requires CursorAt(cursor, defs, area) + SharesBefore(rels, |rels|, area) < WORD32
    ensures var base := BasesFrom(rels, defs, cursor)[j];
      (forall a :: a in base <==> a in rels[j].areas) &&
      base[area] == CursorAt(cursor, defs, area) + SharesBefore(rels, j, area)
    decreases rels
  {
    hide CursorAt, Share, WalkAreas, NoDup;
    OneModule(rels[0], defs, cursor, area);
    if j > 0 {
      BeforeGrows(rels, 0, |rels|, area);
      forall k | 0 <= k < |rels| - 1 ensures NoDup(rels[1..][k].areas) {
        assert rels[1..][k] == rels[k + 1];
      }
      var cursor' := WalkAreas(rels[0].areas, rels[0], defs, cursor, map[]).0;
      assert SharesBefore(rels, |rels|, area) == Share(rels[0], area) + SharesBefore(rels[1..], |rels| - 1, area);
      BasesAreSums(rels[1..], defs, cursor', j - 1, area);
    }
  }

  lemma OneModule(rel: ParsedRel, defs: Defs, cursor: Bases, area: string)
    requires NoDup(rel.areas) && CursorAt(cursor, defs, area) + Share(rel, area) < WORD32
    ensures var (cursor', base) := WalkAreas(rel.areas, rel, defs, cursor, map[]);
      CursorAt(cursor', defs, area) == CursorAt(cursor, defs, area) + Share(rel, area) &&
      (forall a :: a in base <==> a in rel.areas) &&
      (area in rel.areas ==> base[area] == CursorAt(cursor, defs, area))
  {
    hide Seed, WalkAreas;
    WalkedAreas(rel.areas, rel, defs, cursor, map[]);
    WalkedKeys(rel.areas, rel, defs, cursor, map[]);
  }

  /** All modules' parts of the area end at or below 64 KiB. */
  ghost predicate AreaFits(rels: seq<ParsedRel>, defs: Defs, area: string) {
    PartStart(rels, defs, |rels|, area) <= 0x1_0000
  }

  /** The fixup's cursors compute the bases of the linker. */
  lemma BasesAgree(rels: seq<ParsedRel>, defs: Defs)
    requires forall k | 0 <= k < |rels| :: NoDup(rels[k].areas)
    requires forall k, a | 0 <= k < |rels| && a in rels[k].areas :: AreaFits(rels, defs, a)
    ensures AllBases(rels, defs) == LinkerBases(rels, defs)
  {
    hide InitialCursor, BasesFrom, AreaStart, NoDup, SharesBefore, CursorAt;
    var all, right := AllBases(rels, defs), LinkerBases(rels, defs);
    forall k | 0 <= k < |rels| ensures all[k] == right[k] {
      forall a | a in rels[k].areas ensures a in all[k] && all[k][a] == right[k][a] {
        assert AreaFits(rels, defs, a);
        StartsThere(defs, a);
        BasesAreSums(rels, defs, InitialCursor(defs), k, a);
      }
      BaseKeys(rels, defs, InitialCursor(defs), k);
    }
  }

  lemma {:induction false} BaseKeys(rels: seq<ParsedRel>, defs: Defs, cursor: Bases, j: nat)
    requires j < |rels| && forall k | 0 <= k < |rels| :: NoDup(rels[k].areas)
    ensures forall a :: a in BasesFrom(rels, defs, cursor)[j] <==> a in rels[j].areas
    decreases rels
  {
    hide CursorAt, WalkAreas, NoDup;
    WalkedKeys(rels[0].areas, rels[0], defs, cursor, map[]);
    if j > 0 {
      assert forall k | 0 < k < |rels| :: rels[1..][k - 1] == rels[k];
      BaseKeys(rels[1..], defs, WalkAreas(rels[0].areas, rels[0], defs, cursor, map[]).0, j - 1);
    }
  }

  /** The modules' parts of an area are disjoint intervals, in link order. */
  lemma SharesAreDisjoint(rels: seq<ParsedRel>, defs: Defs, i: nat, j: nat, area: string)
    requires i < j < |rels| && area in rels[i].areas && area in rels[j].areas && area != "_VECTOR"
    requires AreaFits(rels, defs, area)
    ensures PartStart(rels, defs, i, area) + SizeOf(rels[i], area) <= PartStart(rels, defs, j, area)
    ensures PartStart(rels, defs, j, area) + SizeOf(rels[j], area) <= 0x1_0000
  {
    hide AreaStart;
    BeforeGrows(rels, i, j, area);
    BeforeGrows(rels, j, |rels|, area);
  }

  /** If every part ends below a bound, so do all parts together. */
  lemma {:induction false} PartsFit(rels: seq<ParsedRel>, start: nat, area: string, bound: nat)
    requires start <= bound
    requires forall j | 0 <= j < |rels| && area in rels[j].areas ::
      start + SharesBefore(rels, j, area) + SizeOf(rels[j], area) <= bound
    ensures start + SharesBefore(rels, |rels|, area) <= bound
    decreases rels
  {
    hide SizeOf;
    if rels != [] {
      var rest, next := rels[1..], start + Share(rels[0], area);
      assert area in rels[0].areas ==> start + SharesBefore(rels, 0, area) + SizeOf(rels[0], area) <= bound;
      forall j | 0 <= j < |rest| && area in rest[j].areas
        ensures next + SharesBefore(rest, j, area) + SizeOf(rest[j], area) <= bound
      {
        assert rest[j] == rels[j + 1];
        assert SharesBefore(rels, j + 1, area) == Share(rels[0], area) + SharesBefore(rest, j, area);
      }
      PartsFit(rest, next, area, bound);
    }
  }

  lemma {:induction false} BeforeEven(rels: seq<ParsedRel>, j: nat, area: string)
    requires j <= |rels| && forall k | 0 <= k < |rels| :: Share(rels[k], area) % 2 == 0
    ensures SharesBefore(rels, j, area) % 2 == 0
    decreases rels
  {
    hide Share;
    if j > 0 {
      forall k | 0 <= k < |rels| - 1 ensures Share(rels[1..][k], area) % 2 == 0 {
        assert rels[1..][k] == rels[k + 1];
      }
      BeforeEven(rels[1..], j - 1, area);
    }
  }
}
