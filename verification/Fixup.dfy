/** The fixup as a list of independent field rewrites. */
module Fixup {
  import opened Results
  import opened RelWriter
  import opened RelParser
  import opened Assembly
  import opened SdldLink

  ghost predicate Touches(act: Action, x: int) {
    x == act.addr || (act.Halve? && x == act.addr + 1)
  }

  /** Bytes no action touches stay as they are. */
  lemma {:induction false} Untouched(bytes: ByteMap, acts: seq<Action>, x: int)
    requires forall k | 0 <= k < |acts| :: !Touches(acts[k], x)
    ensures Get(ApplyAll(bytes, acts), x) == Get(bytes, x)
    decreases acts
  {
    if acts != [] {
      assert Get(Apply(bytes, acts[0]), x) == Get(bytes, x);
      forall k | 0 <= k < |acts| - 1 ensures !Touches(acts[1..][k], x) {
        assert acts[1..][k] == acts[k + 1];
      }
      Untouched(Apply(bytes, acts[0]), acts[1..], x);
    }
  }

  ghost predicate Separate(a: Action, b: Action) { forall x | Touches(a, x) :: !Touches(b, x) }

  /** The effect of one action on the image it found. */
  ghost predicate Done(act: Action, bytes: ByteMap, out: ByteMap) {
    if act.Halve? then Read16(out, act.addr) == Read16(bytes, act.addr) / 2 else Get(out, act.addr) == act.v
  }

  /** An action that shares no byte with any other has its effect on the original image. */
  lemma Effect(bytes: ByteMap, acts: seq<Action>, k: nat)
    requires k < |acts| && forall j | 0 <= j < |acts| && j != k :: Separate(acts[k], acts[j])
    ensures Done(acts[k], bytes, ApplyAll(bytes, acts))
  {
    hide ApplyAll, Read16;
    var pre, post := acts[..k], acts[k + 1..];
    var b1 := ApplyAll(bytes, pre);
    var b2 := Apply(b1, acts[k]);
    assert acts == pre + ([acts[k]] + post);
    ApplyConcat(bytes, pre, [acts[k]] + post);
    ApplyCons(b1, acts[k], post);
    forall x | Touches(acts[k], x)
      ensures Get(b1, x) == Get(bytes, x) && Get(ApplyAll(b2, post), x) == Get(b2, x)
    {
      forall j | 0 <= j < |pre| ensures !Touches(pre[j], x) { assert Separate(acts[k], acts[j]); }
      forall j | 0 <= j < |post| ensures !Touches(post[j], x) { assert Separate(acts[k], acts[k + 1 + j]); }
      Untouched(bytes, pre, x);
      Untouched(b2, post, x);
    }
    var addr := acts[k].addr;
    assert Touches(acts[k], addr);
    if acts[k].Halve? {
      assert Touches(acts[k], addr + 1);
      HalveReads(b1, addr);
      SameRead16(bytes, b1, addr);
      SameRead16(ApplyAll(b2, post), b2, addr);
    }
  }

  lemma SameRead16(a: ByteMap, b: ByteMap, addr: int)
    requires Get(a, addr) == Get(b, addr) && Get(a, addr + 1) == Get(b, addr + 1)
    ensures Read16(a, addr) == Read16(b, addr)
  {
  }

  lemma ApplyCons(bytes: ByteMap, act: Action, acts: seq<Action>)
    ensures ApplyAll(bytes, [act] + acts) == ApplyAll(Apply(bytes, act), acts)
  {
    hide Apply;
    assert ([act] + acts)[1..] == acts;
  }

  lemma HalveReads(bytes: ByteMap, addr: int)
    ensures Read16(Apply(bytes, Halve(addr)), addr) == Read16(bytes, addr) / 2
  {
    var v := Read16(bytes, addr) / 2;
    TwoBytes(v);
    hide Hi, Lo;
    var out := Write16(bytes, addr, v);
    assert Get(out, addr) == Hi(v) && Get(out, addr + 1) == Lo(v);
  }

  lemma TwoBytes(v: nat)
    requires v < 0x1_0000
    ensures Hi(v) * 256 + Lo(v) == v
  {
  }

  /** The even address of the word an aligned action works on. */
  function WordOf(act: Action): int {
    if act.Halve? then act.addr else act.addr - 1
  }

  ghost predicate Aligned(act: Action) { WordOf(act) % 2 == 0 }

  function WordsOfActions(acts: seq<Action>): seq<int> {
    seq(|acts|, k requires 0 <= k < |acts| => WordOf(acts[k]))
  }

  lemma DistinctWordsSeparate(a: Action, b: Action)
    requires Aligned(a) && Aligned(b) && WordOf(a) != WordOf(b)
    ensures Separate(a, b)
  {
  }

  /** Aligned actions on distinct words are independent. */
  lemma Independent(bytes: ByteMap, acts: seq<Action>, k: nat)
    requires k < |acts| && NoDup(WordsOfActions(acts)) && forall j | 0 <= j < |acts| :: Aligned(acts[j])
    ensures Done(acts[k], bytes, ApplyAll(bytes, acts))
  {
    forall j | 0 <= j < |acts| && j != k ensures Separate(acts[k], acts[j]) {
      assert WordsOfActions(acts)[j] != WordsOfActions(acts)[k];
      DistinctWordsSeparate(acts[k], acts[j]);
    }
    Effect(bytes, acts, k);
  }

  // ----- what one item does, whatever the file refers to

  function Found(v: Option<nat>, other: nat): nat { if v.Some? then v.value else other }

  /** The byte base of the area an 8-bit item names: the module's own, else the map's, else the command file's. */
  function AreaOf(rel: ParsedRel, base: Bases, defs: Defs, chunk: RelChunk, it: Item): nat {
    var area := if it.index < |rel.areas| then rel.areas[it.index] else chunk.areaName;
    if area in base then base[area]
    else if area == "_SYS_PAGE0" then Found(DefLookup(defs, "s_" + area), 0x10)
    else if area == "_USR_PAGE0" then Found(DefLookup(defs, "s_" + area), 0x80)
    else Found(DefLookup(defs, "s_" + area), 0)
  }

  /** A 16-bit item halves the word at its field, missing bytes being 0; an 8-bit one puts there the low byte of the
      word address of its symbol, 0 if the map lacks it, or of its area's base and the byte in the file. */
  lemma ItemDoes(bytes: ByteMap, rel: ParsedRel, base: Bases, defs: Defs, chunk: RelChunk, it: Item)
    ensures
      var part := if chunk.areaName in base then base[chunk.areaName] else 0;
      var at := (part + chunk.tAddr + it.rtp - 2) % 0x1_0000_0000;
      var out := Apply(bytes, ItemAction(rel, base, defs, chunk, it));
      if it.mode % 2 == 0 then
        var high := if at in bytes then bytes[at] as int else 0;
        var low := if at + 1 in bytes then bytes[at + 1] as int else 0;
        var word := high * 256 + low;
        out == bytes[at := word / 2 / 256][at + 1 := word / 2 % 256]
      else
        var target :=
          if it.mode / 2 % 2 == 1 then
            Found(DefLookup(defs, if it.index < |rel.symbols| then rel.symbols[it.index] else ""), 0)
          else
            (AreaOf(rel, base, defs, chunk, it) +
             if 0 <= it.rtp - 2 < |chunk.data| then chunk.data[it.rtp - 2] else 0) % 0x1_0000_0000;
        out == bytes[at := target / 2 % 256]
  {
    hide DefLookup;
  }
}
