/** What the reader makes of any line of a REL file, and of lines that are too short. */
module ReaderLaws {
  import opened Results
  import opened Assembly
  import opened RelWriter
  import opened RelParser

  /** The number at a place of a line, 0 behind its end. */
  function Num(nums: seq<nat>, i: nat): nat { if i < |nums| then nums[i] else 0 }

  /** Four numbers make an item: its mode, its place and the two bytes of its index; up to three behind the last item
      are ignored, as are the first four. */
  lemma ItemsRead(nums: seq<nat>)
    ensures var items := ReadItems(nums);
      (if |nums| < 4 then items == [] else 4 + 4 * |items| <= |nums| < 8 + 4 * |items|) &&
      forall j | 0 <= j < |items| ::
        items[j] == Item(nums[4 + 4 * j], nums[5 + 4 * j], nums[6 + 4 * j] * 256 + nums[7 + 4 * j])
  {
  }

  /** An A line opens an area, an S line names a symbol, a T line holds an address and data for the next R line, and
      an R line makes a chunk of them in the area it numbers, or in the last one opened. */
  lemma LineRead(st: State, line: RelLine)
    ensures var t := ParseLine(st, line);
      match line
      case ALine(area, size) =>
        t.rel.areas == st.rel.areas + [area] && t.rel.areaSizes == st.rel.areaSizes[area := size] &&
        t.current == area && t.rel.symbols == st.rel.symbols && t.rel.chunks == st.rel.chunks
      case SLine(name, _, _) =>
        t == st.(rel := st.rel.(symbols := t.rel.symbols)) && t.rel.symbols == st.rel.symbols + [name]
      case TLine(nums) =>
        t.rel == st.rel && t.current == st.current && t.pending.Some? &&
        t.pending.value.tAddr == Num(nums, 0) * 256 + Num(nums, 1) &&
        t.pending.value.data == nums[if |nums| < 2 then |nums| else 2..]
      case RLine(nums) =>
        if st.pending == None then t == st
        else
          var n := Num(nums, 2) * 256 + Num(nums, 3);
          t.pending == None && t.current == st.current && t.rel.areas == st.rel.areas &&
          t.rel.symbols == st.rel.symbols && t.rel.areaSizes == st.rel.areaSizes &&
          t.rel.chunks == st.rel.chunks +
            [RelChunk(if n < |st.rel.areas| then st.rel.areas[n] else st.current,
                      st.pending.value.tAddr, st.pending.value.data, ReadItems(nums))]
      case _ => t == st
  {
    hide ReadItems;
  }

  /** An item's mode has bit 0 set for bytes and bit 1 for symbols, and no other. */
  lemma ItemModes(r: Reloc, rtp: nat, t: Tables)
    requires RelocItem(r, rtp, t).Some?
    ensures var it := RelocItem(r, rtp, t).value;
      it.mode == (if r.width.Low8? then 1 else 0) + (if r.left.Symbol? then 2 else 0) && it.rtp == rtp
  {
  }

  /** A relocation without an area belongs to `_CODE`. */
  lemma RelocOfNoArea(r: Reloc)
    requires r.area == None
    ensures RelocArea(r) == "_CODE"
  {
    assert Upper("_CODE") == "_CODE";
  }
}
