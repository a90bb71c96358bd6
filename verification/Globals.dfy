/** The globals and externals the REL writer lists, taken from the assembler's symbol information. */
module Globals {
  import opened Assembly
  import opened Expression
  import opened Assembler
  import opened RelWriter
  import opened WrittenSymbols

  /** The entry of a name that is not local.  A global without an area, as `.equ` makes it, goes to `_CODE`. */
  function Entry(n: string, info: SymbolInfo): Global {
    if info.kind == External then Global.Global(n, false, 0, "")
    else
      var area := if info.area.Some? then CanonicalAreaName(info.area.value) else "_CODE";
      Global.Global(n, true, Low16(info.value), area)
  }

  /** The entries, in the order the table lists its names. */
  function Entries(names: seq<string>, infos: Infos): seq<Global>
    requires forall n | n in names :: n in infos
  {
    if names == [] then [] else
    var k := |names| - 1;
    Entries(names[..k], infos) +
    (if infos[names[k]].kind == Local then [] else [Entry(names[k], infos[names[k]])])
  }

  method CollectGlobals(names: seq<string>, infos: Infos) returns (gs: seq<Global>)
    requires forall n | n in names :: n in infos
    ensures gs == Entries(names, infos)
  {
    gs := [];
    for i := 0 to |names|
      invariant gs == Entries(names[..i], infos)
    {
      var info := infos[names[i]];
      assert names[..i + 1][..i] == names[..i];
      if info.kind == Kind.Global {
        var area := if info.area.Some? then CanonicalAreaName(info.area.value) else "_CODE";
        gs := gs + [Global.Global(names[i], true, Low16(info.value), area)];
      } else if info.kind == External {
        gs := gs + [Global.Global(names[i], false, 0, "")];
      }
    }
    assert names[..|names|] == names;
  }

  /** The entry of `n`, if it has one. */
  ghost predicate IsEntry(g: Global, n: string, infos: Infos) {
    n in infos && infos[n].kind != Local && g == Entry(n, infos[n])
  }

  /** The list holds each name of the table that is not local, as its entry, and nothing else. */
  ghost predicate Lists(gs: seq<Global>, infos: Infos) {
    NoDup(GlobalNames(gs)) &&
    forall g :: g in gs <==> IsEntry(g, g.name, infos)
  }

  lemma {:induction false} EntriesHave(names: seq<string>, infos: Infos)
    requires forall n | n in names :: n in infos
    ensures forall g :: g in Entries(names, infos) <==> g.name in names && IsEntry(g, g.name, infos)
  {
    hide Entry;
    if names != [] {
      var k := |names| - 1;
      EntriesHave(names[..k], infos);
      assert names == names[..k] + [names[k]];
      EntryNamed(names[k], infos[names[k]]);
      forall g ensures g in Entries(names, infos) <==> g.name in names && IsEntry(g, g.name, infos) {
        assert g.name in names <==> g.name in names[..k] || g.name == names[k];
      }
    }
  }

  lemma EntryNamed(n: string, info: SymbolInfo)
    ensures Entry(n, info).name == n
  {
  }

  lemma {:induction false} EntriesOnce(names: seq<string>, infos: Infos)
    requires NoDup(names) && forall n | n in names :: n in infos
    ensures NoDup(GlobalNames(Entries(names, infos)))
  {
    hide Entry;
    if names != [] {
      var k := |names| - 1;
      var gs, n := Entries(names[..k], infos), names[k];
      EntriesOnce(names[..k], infos);
      EntriesHave(names[..k], infos);
      EntryNamed(n, infos[n]);
      forall i | 0 <= i < |gs| ensures GlobalNames(gs)[i] != n {
        assert gs[i] in gs;
      }
      NoDupConcat(GlobalNames(gs), [n]);
      assert gs + [] == gs;
      assert GlobalNames(gs + [Entry(n, infos[n])]) == GlobalNames(gs) + [n];
    }
  }

  /** In whatever order the table lists its names, and in whatever order the entries are sorted afterwards,
      each name that is not local is listed once, as its entry. */
  lemma SortedEntriesList(names: seq<string>, infos: Infos, gs: seq<Global>)
    requires NoDup(names) && (forall n :: n in names <==> n in infos)
    requires multiset(gs) == multiset(Entries(names, infos))
    ensures Lists(gs, infos)
  {
    var es := Entries(names, infos);
    EntriesHave(names, infos);
    EntriesOnce(names, infos);
    hide IsEntry, Entries, NoDup;
    forall g ensures g in gs <==> g in es {
      assert g in gs <==> g in multiset(gs);
    }
    OnceAlso(gs, es);
  }

  /** A list with the members of one without repeated names, each as often, repeats no name either. */
  lemma OnceAlso(gs: seq<Global>, es: seq<Global>)
    requires NoDup(GlobalNames(es)) && multiset(gs) == multiset(es)
    ensures NoDup(GlobalNames(gs))
  {
    forall i, j | 0 <= i < j < |gs| ensures GlobalNames(gs)[i] != GlobalNames(gs)[j] {
      if gs[i].name == gs[j].name {
        assert gs[i] in multiset(gs) && gs[j] in multiset(gs);
        SameName(es, gs[i], gs[j]);
        Twice(gs, i, j);
        Once(es, gs[i]);
      }
    }
  }

  lemma SameName(es: seq<Global>, g: Global, h: Global)
    requires NoDup(GlobalNames(es)) && g in es && h in es && g.name == h.name
    ensures g == h
  {
    var i :| 0 <= i < |es| && es[i] == g;
    var j :| 0 <= j < |es| && es[j] == h;
    assert GlobalNames(es)[i] == GlobalNames(es)[j];
  }

  lemma Twice(gs: seq<Global>, i: nat, j: nat)
    requires i < j < |gs| && gs[i] == gs[j]
    ensures multiset(gs)[gs[i]] >= 2
  {
    assert gs == gs[..i] + [gs[i]] + gs[i + 1..j] + [gs[j]] + gs[j + 1..];
  }

  lemma Once(es: seq<Global>, g: Global)
    requires NoDup(GlobalNames(es))
    ensures multiset(es)[g] <= 1
  {
    if g in es {
      var i :| 0 <= i < |es| && es[i] == g;
      assert es == es[..i] + [g] + es[i + 1..];
      forall j | 0 <= j < |es| && j != i ensures es[j] != g {
        assert GlobalNames(es)[j] != GlobalNames(es)[i];
      }
    }
  }

  // ----- every listed name gets a number

  /** A global's area is among the module's areas. */
  lemma GlobalAreaNamed(m: Module, g: Global)
    requires g in m.globals && g.def
    ensures CanonicalAreaName(g.area) in AreaNames(m)
  {
    hide AreaNames, CanonicalAreaName;
    AreasNamed(m);
  }

  lemma {:induction false} GlobalSelected(gs: seq<Global>, g: Global)
    requires g in gs
    ensures g.def ==> g in DefinedIn(gs, CanonicalAreaName(g.area))
    ensures !g.def ==> g in References(gs)
  {
    hide CanonicalAreaName;
    if gs[0] != g {
      assert g in gs[1..];
      GlobalSelected(gs[1..], g);
    }
  }

  lemma NameOf(gs: seq<Global>, g: Global)
    requires g in gs
    ensures g.name in GlobalNames(gs)
  {
    var i :| 0 <= i < |gs| && gs[i] == g;
    assert GlobalNames(gs)[i] == g.name;
  }

  lemma {:induction false} AreaSymbolsHave(m: Module, names: seq<string>, area: string, n: string)
    requires area in names && n in AreaSymbols(m, area)
    ensures n in AllAreaSymbols(m, names)
  {
    hide AreaSymbols;
    if names[0] != area {
      AreaSymbolsHave(m, names[1..], area, n);
    }
  }

  /** Every global and external name has a symbol number. */
  lemma ListedNumbered(m: Module, infos: Infos, n: string)
    requires Lists(m.globals, infos) && n in infos && infos[n].kind != Local
    ensures n in SymbolOrder(m)
  {
    hide AreaNames, CanonicalAreaName, DefinedIn, References, GlobalNames, AllAreaSymbols, CheckpointsIn;
    var g := Entry(n, infos[n]);
    assert g in m.globals;
    GlobalSelected(m.globals, g);
    if g.def {
      var area := CanonicalAreaName(g.area);
      NameOf(DefinedIn(m.globals, area), g);
      GlobalAreaNamed(m, g);
      AreaSymbolsHave(m, AreaNames(m), area, n);
    } else {
      NameOf(References(m.globals), g);
    }
  }
}
