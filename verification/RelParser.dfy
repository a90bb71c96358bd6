/** Reading a REL file back: the part of it the word-address fixup needs. */
module RelParser {
  import opened Results
  import opened RelWriter

  datatype RelChunk = RelChunk(areaName: string, tAddr: nat, data: seq<nat>, items: seq<Item>)

  datatype ParsedRel = ParsedRel(
    areas: seq<string>,
    areaSizes: map<string, nat>,
    symbols: seq<string>,
    chunks: seq<RelChunk>)

  datatype Pending = Pending(tAddr: nat, data: seq<nat>)

  datatype State = State(rel: ParsedRel, pending: Option<Pending>, current: string)

  const START := State(ParsedRel([], map[], [], []), None, "_CODE")

  /** A missing number counts as 0. */
  function NumAt(nums: seq<nat>, i: nat): nat { if i < |nums| then nums[i] else 0 }

  function Word16At(nums: seq<nat>, i: nat): nat { NumAt(nums, i) * 256 + NumAt(nums, i + 1) }

  function ItemAt(nums: seq<nat>, i: nat): Item {
    Item(NumAt(nums, i), NumAt(nums, i + 1), Word16At(nums, i + 2))
  }

  function ItemCount(nums: seq<nat>): nat { if |nums| < 4 then 0 else (|nums| - 4) / 4 }

  /** The relocation items behind the four numbers that name the area. */
  function ReadItems(nums: seq<nat>): seq<Item> {
    seq(ItemCount(nums), j requires 0 <= j < ItemCount(nums) => ItemAt(nums, 4 + 4 * j))
  }

  function ParseLine(st: State, line: RelLine): State {
    var rel := st.rel;
    match line
    case ALine(area, size) =>
      st.(rel := rel.(areas := rel.areas + [area], areaSizes := rel.areaSizes[area := size]), current := area)
    case SLine(symbol, _, _) => st.(rel := rel.(symbols := rel.symbols + [symbol]))
    case TLine(nums) =>
      st.(pending := Some(Pending(Word16At(nums, 0), if |nums| >= 2 then nums[2..] else [])))
    case RLine(nums) =>
      if st.pending.None? then st
      else
        var areaIdx := Word16At(nums, 2);
        var area := if areaIdx < |rel.areas| then rel.areas[areaIdx] else st.current;
        var chunk := RelChunk(area, st.pending.value.tAddr, st.pending.value.data, ReadItems(nums));
        st.(rel := rel.(chunks := rel.chunks + [chunk]), pending := None)
    case _ => st
  }

  function ParseLines(st: State, lines: seq<RelLine>): State
    decreases lines
  {
    if lines == [] then st else ParseLines(ParseLine(st, lines[0]), lines[1..])
  }

  function ParsedText(lines: seq<RelLine>): ParsedRel { ParseLines(START, lines).rel }

  method CollectReadItems(nums: seq<nat>) returns (items: seq<Item>)
    ensures items == ReadItems(nums)
  {
    items := [];
    var i := 4;
    while i + 3 < |nums|
      invariant i == 4 + 4 * |items| && |items| <= ItemCount(nums)
      invariant forall j | 0 <= j < |items| :: items[j] == ItemAt(nums, 4 + 4 * j)
    {
      items := items + [Item(nums[i], nums[i + 1], nums[i + 2] * 256 + nums[i + 3])];
      i := i + 4;
    }
  }

  method ParseRelChunks(lines: seq<RelLine>) returns (r: ParsedRel)
    ensures r == ParsedText(lines)
  {
    var areas: seq<string>, areaSizes: map<string, nat>, symbols: seq<string> := [], map[], [];
    var chunks: seq<RelChunk> := [];
    var pendingT: Option<Pending> := None;
    var currentArea := "_CODE";
    assert lines[0..] == lines;
    for k := 0 to |lines|
      invariant ParsedText(lines) ==
        ParseLines(State(ParsedRel(areas, areaSizes, symbols, chunks), pendingT, currentArea), lines[k..]).rel
    {
      assert lines[k..][1..] == lines[k + 1..];
      match lines[k]
      case ALine(area, size) =>
        currentArea := area;
        areas, areaSizes := areas + [area], areaSizes[area := size];
      case SLine(symbol, _, _) => symbols := symbols + [symbol];
      case TLine(nums) =>
        pendingT := Some(Pending(Word16At(nums, 0), if |nums| >= 2 then nums[2..] else []));
      case RLine(nums) =>
        if pendingT.Some? {
          var areaIdx := Word16At(nums, 2);
          var items := CollectReadItems(nums);
          var area := if areaIdx < |areas| then areas[areaIdx] else currentArea;
          chunks := chunks + [RelChunk(area, pendingT.value.tAddr, pendingT.value.data, items)];
          pendingT := None;
        }
      case _ =>
    }
    r := ParsedRel(areas, areaSizes, symbols, chunks);
  }
}
