/** The word heap of the test framework: a first-fit allocator over a list of spans. */
module Heap {
  import opened Results

  datatype Span = Span(start: int, size: int, used: bool) {
    function End(): int { start + size }
  }

  // ----- what a list of spans means

  /** The spans lie end to end from `lo` to `hi`. */
  ghost predicate Tiles(s: seq<Span>, lo: int, hi: int) {
    s != [] && s[0].start == lo && s[|s| - 1].End() == hi &&
    (forall i | 0 <= i < |s| :: s[i].size >= 1) &&
    (forall i, j | 0 <= i && j == i + 1 < |s| :: s[i].End() == s[j].start)
  }

  ghost predicate NoFreePair(s: seq<Span>) {
    forall i, j | 0 <= i && j == i + 1 < |s| :: s[i].used || s[j].used
  }

  ghost predicate Inv(s: seq<Span>, lo: int, hi: int) { Tiles(s, lo, hi) && NoFreePair(s) }

  /** The blocks handed out and not yet given back. */
  ghost function Live(s: seq<Span>): set<Span> { set x | x in s && x.used }

  /** `n` words from `a` on lie in the heap and touch no live block. */
  ghost predicate FreeAt(live: set<Span>, lo: int, hi: int, a: int, n: int) {
    lo <= a && a + n <= hi && forall b | b in live :: b.End() <= a || a + n <= b.start
  }

  // ----- what the operations promise, in terms of the live blocks alone

  /** The lowest place with room for `n` words is handed out; failure means that there is none. */
  ghost predicate Mallocs(lo: int, hi: int, s: seq<Span>, n: int, t: seq<Span>, r: Result<int>) {
    match r
    case Ok(p) =>
      n >= 1 && FreeAt(Live(s), lo, hi, p, n) &&
      (forall a | FreeAt(Live(s), lo, hi, a, n) :: p <= a) &&
      Live(t) == Live(s) + {Span(p, n, true)}
    case Err(_) =>
      t == s && (n < 1 || forall a :: !FreeAt(Live(s), lo, hi, a, n))
  }

  /** Exactly the block that starts at the address, taken modulo 16 bits, is given back. */
  ghost predicate Frees(s: seq<Span>, addr: int, t: seq<Span>, ok: bool) {
    var a := addr % 0x1_0000;
    (ok <==> exists b :: b in Live(s) && b.start == a) &&
    if ok then Live(t) == set b | b in Live(s) && b.start != a
    else t == s
  }

  // ----- tilings

  lemma {:induction false} Ordered(s: seq<Span>, lo: int, hi: int, i: nat, j: nat)
    requires Tiles(s, lo, hi) && i < j < |s|
    ensures s[i].End() <= s[j].start
    decreases j
  {
    assert s[j - 1].End() == s[j].start;
    if i < j - 1 {
      Ordered(s, lo, hi, i, j - 1);
    }
  }

  lemma Inside(s: seq<Span>, lo: int, hi: int, i: nat)
    requires Tiles(s, lo, hi) && i < |s|
    ensures lo <= s[i].start && s[i].End() <= hi
  {
    if i > 0 { Ordered(s, lo, hi, 0, i); }
    if i < |s| - 1 { Ordered(s, lo, hi, i, |s| - 1); }
  }

  /** Spans that share a start are one span. */
  lemma StartIsKey(s: seq<Span>, lo: int, hi: int, i: nat, j: nat)
    requires Tiles(s, lo, hi) && i < |s| && j < |s| && s[i].start == s[j].start
    ensures i == j
  {
    if i < j { Ordered(s, lo, hi, i, j); }
    if j < i { Ordered(s, lo, hi, j, i); }
  }

  /** Live blocks never overlap, and lie inside the heap. */
  lemma LiveDisjoint(s: seq<Span>, lo: int, hi: int, b: Span, c: Span)
    requires Inv(s, lo, hi) && b in Live(s) && c in Live(s)
    ensures lo <= b.start < b.End() <= hi
    ensures b == c || b.End() <= c.start || c.End() <= b.start
  {
    hide Tiles, NoFreePair;
    var i: nat :| i < |s| && s[i] == b;
    var j: nat :| j < |s| && s[j] == c;
    Inside(s, lo, hi, i);
    assert s[i].size >= 1 by { SizePositive(s, lo, hi, i); }
    if i < j { Ordered(s, lo, hi, i, j); }
    if j < i { Ordered(s, lo, hi, j, i); }
  }

  lemma SizePositive(s: seq<Span>, lo: int, hi: int, i: nat)
    requires Tiles(s, lo, hi) && i < |s|
    ensures s[i].size >= 1
  {
  }

  /** The span that covers an address. */
  lemma {:induction false} Covering(s: seq<Span>, lo: int, hi: int, a: int, k: nat) returns (i: nat)
    requires Tiles(s, lo, hi) && k < |s| && s[k].start <= a < hi
    ensures i < |s| && s[i].start <= a < s[i].End()
    decreases |s| - k
  {
    if a < s[k].End() {
      i := k;
    } else {
      assert s[k].End() == s[k + 1].start;
      i := Covering(s, lo, hi, a, k + 1);
    }
  }

  /** As no two free spans meet, free room lies inside one free span. */
  lemma RunInSpan(s: seq<Span>, lo: int, hi: int, a: int, n: int) returns (i: nat)
    requires Inv(s, lo, hi) && n >= 1 && FreeAt(Live(s), lo, hi, a, n)
    ensures i < |s| && !s[i].used && s[i].start <= a && a + n <= s[i].End()
  {
    i := Covering(s, lo, hi, a, 0);
    assert s[i] in Live(s) <==> s[i].used;
    if s[i].End() < hi {
      assert s[i].End() == s[i + 1].start && s[i + 1].size >= 1;
      assert s[i + 1] in Live(s) <==> s[i + 1].used;
    }
  }

  // ----- the list is determined by the live blocks

  lemma SameSpan(s: seq<Span>, t: seq<Span>, lo: int, hi: int, k: nat)
    requires Inv(s, lo, hi) && Inv(t, lo, hi) && Live(s) == Live(t)
    requires k < |s| && k < |t| && s[k].start == t[k].start
    ensures s[k].used ==> t[k] == s[k]
    ensures !s[k].used && !t[k].used ==> t[k].End() <= s[k].End()
  {
    if s[k].used {
      assert s[k] in Live(t);
      var j: nat :| j < |t| && t[j] == s[k];
      StartIsKey(t, lo, hi, j, k);
    } else if !t[k].used && s[k].End() < hi {
      assert s[k].End() == s[k + 1].start && s[k + 1].used;
      assert s[k + 1] in Live(s);
      assert s[k + 1] in Live(t);
      var j: nat :| j < |t| && t[j] == s[k + 1];
      assert s[k].size >= 1;
      if j < k { Ordered(t, lo, hi, j, k); }
      if k < j { Ordered(t, lo, hi, k, j); }
    } else {
      Inside(t, lo, hi, k);
    }
  }

  lemma {:induction false} SamePrefix(s: seq<Span>, t: seq<Span>, lo: int, hi: int, k: nat)
    requires Inv(s, lo, hi) && Inv(t, lo, hi) && Live(s) == Live(t) && 0 < k <= |s|
    ensures k <= |t| && s[..k] == t[..k]
  {
    if k > 1 {
      SamePrefix(s, t, lo, hi, k - 1);
      assert s[k - 2] == s[..k - 1][k - 2] == t[..k - 1][k - 2] == t[k - 2];
      assert s[k - 2].End() == s[k - 1].start;
      Inside(s, lo, hi, k - 1);
      assert k - 1 < |t| && t[k - 2].End() == t[k - 1].start;
    }
    SameSpan(s, t, lo, hi, k - 1);
    SameSpan(t, s, lo, hi, k - 1);
    assert s[..k] == s[..k - 1] + [s[k - 1]] && t[..k] == t[..k - 1] + [t[k - 1]];
  }

  /** Two valid lists with the same live blocks are the same list. */
  lemma Canonical(s: seq<Span>, t: seq<Span>, lo: int, hi: int)
    requires Inv(s, lo, hi) && Inv(t, lo, hi) && Live(s) == Live(t)
    ensures s == t
  {
    hide NoFreePair, Live;
    SamePrefix(s, t, lo, hi, |s|);
    SamePrefix(t, s, lo, hi, |t|);
  }

  // ----- single steps on the list

  /** The spans before `i` are in use or too small. */
  ghost predicate FirstFit(s: seq<Span>, n: int, i: nat) {
    i < |s| && !s[i].used && s[i].size >= n && forall k | 0 <= k < i :: s[k].used || s[k].size < n
  }

  /** First fit is lowest fit. */
  lemma FirstFitIsLowest(s: seq<Span>, lo: int, hi: int, n: int, i: nat)
    requires Inv(s, lo, hi) && n >= 1 && FirstFit(s, n, i)
    ensures FreeAt(Live(s), lo, hi, s[i].start, n)
    ensures forall a | FreeAt(Live(s), lo, hi, a, n) :: s[i].start <= a
  {
    Inside(s, lo, hi, i);
    forall b | b in Live(s) ensures b.End() <= s[i].start || s[i].start + n <= b.start {
      var j: nat :| j < |s| && s[j] == b;
      if i < j { Ordered(s, lo, hi, i, j); }
      if j < i { Ordered(s, lo, hi, j, i); }
    }
    forall a | FreeAt(Live(s), lo, hi, a, n) ensures s[i].start <= a {
      var j := RunInSpan(s, lo, hi, a, n);
      if i < j { Ordered(s, lo, hi, i, j); }
    }
  }

  lemma NoFit(s: seq<Span>, lo: int, hi: int, n: int)
    requires Inv(s, lo, hi) && n >= 1 && forall k | 0 <= k < |s| :: s[k].used || s[k].size < n
    ensures forall a :: !FreeAt(Live(s), lo, hi, a, n)
  {
    forall a ensures !FreeAt(Live(s), lo, hi, a, n) {
      if FreeAt(Live(s), lo, hi, a, n) {
        var j := RunInSpan(s, lo, hi, a, n);
        assert false;
      }
    }
  }

  /** A span that fits exactly is marked; a larger one is cut in two. */
  function Take(s: seq<Span>, i: nat, n: int): seq<Span>
    requires i < |s|
  {
    if s[i].size == n then s[i := s[i].(used := true)]
    else s[..i] + [Span(s[i].start, n, true), Span(s[i].start + n, s[i].size - n, false)] + s[i + 1..]
  }

  lemma TakeKeeps(s: seq<Span>, lo: int, hi: int, n: int, i: nat)
    requires Inv(s, lo, hi) && n >= 1 && FirstFit(s, n, i)
    ensures Inv(Take(s, i, n), lo, hi)
  {
    if s[i].size > n { CutKeeps(s, lo, hi, n, i); }
  }

  lemma CutKeeps(s: seq<Span>, lo: int, hi: int, n: int, i: nat)
    requires Inv(s, lo, hi) && n >= 1 && i < |s| && !s[i].used && s[i].size > n
    ensures Inv(Take(s, i, n), lo, hi)
  {
    var t := Take(s, i, n);
    forall p | 0 <= p < |t| ensures t[p] == CutSpan(s, i, n, p) {
    }
    hide Take;
    assert |t| == |s| + 1 && t[0].start == lo && t[|t| - 1].End() == hi;
    forall p | 0 <= p < |t| ensures t[p].size >= 1 {
      var q := if p <= i then p else p - 1;
      assert s[q].size >= 1;
    }
    forall p, q | 0 <= p && q == p + 1 < |t| ensures t[p].End() == t[q].start && (t[p].used || t[q].used) {
      if p < i {
        assert s[p].End() == s[q].start && (s[p].used || s[q].used);
      } else if p > i {
        assert s[p - 1].End() == s[q - 1].start && (s[p - 1].used || s[q - 1].used);
      }
    }
  }

  /** What `Take` leaves at position `p` when it cuts span `i`. */
  function CutSpan(s: seq<Span>, i: nat, n: int, p: nat): Span
    requires i < |s| && p <= |s|
  {
    if p < i then s[p]
    else if p == i then Span(s[i].start, n, true)
    else if p == i + 1 then Span(s[i].start + n, s[i].size - n, false)
    else s[p - 1]
  }

  lemma TakeLive(s: seq<Span>, n: int, i: nat)
    requires n >= 1 && FirstFit(s, n, i)
    ensures Live(Take(s, i, n)) == Live(s) + {Span(s[i].start, n, true)}
  {
    var t := Take(s, i, n);
    forall x ensures x in Live(t) <==> x in Live(s) + {Span(s[i].start, n, true)} {
      assert s == s[..i] + [s[i]] + s[i + 1..];
      if s[i].size == n {
        assert t == s[..i] + [s[i].(used := true)] + s[i + 1..];
      }
    }
  }

  lemma ReleaseLive(s: seq<Span>, lo: int, hi: int, i: nat)
    requires Tiles(s, lo, hi) && i < |s| && s[i].used
    ensures var t := s[i := s[i].(used := false)];
      Tiles(t, lo, hi) && Live(t) == set b | b in Live(s) && b.start != s[i].start
  {
    var t := s[i := s[i].(used := false)];
    forall x | x in Live(t) ensures x in Live(s) && x.start != s[i].start {
      var j: nat :| j < |t| && t[j] == x;
      assert j != i && s[j] == x;
      if x.start == s[i].start { StartIsKey(s, lo, hi, i, j); }
    }
    forall x | x in Live(s) && x.start != s[i].start ensures x in Live(t) {
      var j: nat :| j < |s| && s[j] == x;
      assert t[j] == x;
    }
  }

  // ----- the operations on the list

  /** The first span that is free and large enough, or the length of the list. */
  function FitIndex(s: seq<Span>, n: int): (i: nat)
    ensures i <= |s|
    ensures i < |s| ==> FirstFit(s, n, i)
    ensures i == |s| ==> forall k | 0 <= k < |s| :: s[k].used || s[k].size < n
  {
    if s == [] || (!s[0].used && s[0].size >= n) then 0 else 1 + FitIndex(s[1..], n)
  }

  function MallocSpans(s: seq<Span>, n: int): (seq<Span>, Result<int>) {
    if n < 1 then (s, Err("wordCount must be >= 1")) else
    var i := FitIndex(s, n);
    if i == |s| then (s, Err("out of heap")) else (Take(s, i, n), Ok(s[i].start))
  }

  /** The span in use that starts at an address, or the length of the list. */
  function BlockIndex(s: seq<Span>, a: int): (i: nat)
    ensures i <= |s|
    ensures i < |s| ==> s[i].start == a && s[i].used
    ensures i == |s| ==> forall b | b in Live(s) :: b.start != a
  {
    if s == [] || (s[0].start == a && s[0].used) then 0 else 1 + BlockIndex(s[1..], a)
  }

  /** A free span joins a free span in front of it. */
  function PutSpan(out: seq<Span>, x: Span): seq<Span> {
    var n := |out| - 1;
    if out != [] && !out[n].used && !x.used then out[n := out[n].(size := out[n].size + x.size)] else out + [x]
  }

  function Merged(out: seq<Span>, s: seq<Span>): seq<Span>
    decreases s
  {
    if s == [] then out else Merged(PutSpan(out, s[0]), s[1..])
  }

  function FreeSpans(s: seq<Span>, addr: int): (seq<Span>, bool) {
    var i := BlockIndex(s, addr % 0x1_0000);
    if i == |s| then (s, false) else (Merged([], s[i := s[i].(used := false)]), true)
  }

  /** Malloc keeps the tiling and does what it promises. */
  lemma MallocMeets(s: seq<Span>, lo: int, hi: int, n: int)
    requires Inv(s, lo, hi)
    ensures Inv(MallocSpans(s, n).0, lo, hi) && Mallocs(lo, hi, s, n, MallocSpans(s, n).0, MallocSpans(s, n).1)
  {
    hide Inv, FreeAt, Live, Take, FirstFit;
    var i := FitIndex(s, n);
    if n < 1 {
    } else if i == |s| {
      NoFit(s, lo, hi, n);
    } else {
      FirstFitIsLowest(s, lo, hi, n, i);
      TakeKeeps(s, lo, hi, n, i);
      TakeLive(s, n, i);
    }
  }

  /** Joining two neighbouring free spans keeps the tiling. */
  lemma JoinKeeps(out: seq<Span>, s: seq<Span>, lo: int, hi: int)
    requires s != [] && out != [] && !out[|out| - 1].used && !s[0].used && Tiles(out + s, lo, hi) && NoFreePair(out)
    ensures Tiles(PutSpan(out, s[0]) + s[1..], lo, hi) && NoFreePair(PutSpan(out, s[0]))
  {
    var n, all, t := |out| - 1, out + s, PutSpan(out, s[0]) + s[1..];
    assert all[n] == out[n] && all[n + 1] == s[0] && all[n].End() == all[n + 1].start;
    forall p | 0 <= p < |t| ensures t[p] == JoinedSpan(all, n, p) {
    }
    assert |t| == |all| - 1;
    hide PutSpan;
    forall p | 0 <= p < |t| ensures t[p].size >= 1 {
      assert all[if p <= n then p else p + 1].size >= 1 && all[n + 1].size >= 1;
    }
    forall p, q | 0 <= p && q == p + 1 < |t| ensures t[p].End() == t[q].start {
      if p < n {
        assert all[p].End() == all[q].start;
      } else {
        assert all[p + 1].End() == all[q + 1].start;
      }
    }
  }

  /** What joining spans `n` and `n + 1` leaves at position `p`. */
  function JoinedSpan(all: seq<Span>, n: nat, p: nat): Span
    requires n + 1 < |all| && p + 1 < |all|
  {
    if p < n then all[p] else if p == n then all[n].(size := all[n].size + all[n + 1].size) else all[p + 1]
  }

  lemma PutLive(out: seq<Span>, s: seq<Span>)
    requires s != []
    ensures Live(PutSpan(out, s[0]) + s[1..]) == Live(out + s)
  {
    var n, t := |out| - 1, PutSpan(out, s[0]);
    assert s == [s[0]] + s[1..];
    forall x ensures x in Live(t + s[1..]) <==> x in Live(out + s) {
      if out != [] && !out[n].used && !s[0].used {
        assert out == out[..n] + [out[n]] && t == out[..n] + [t[n]];
      }
    }
  }

  lemma AppendKeeps(out: seq<Span>, x: Span)
    requires NoFreePair(out) && (out == [] || out[|out| - 1].used || x.used)
    ensures NoFreePair(out + [x])
  {
  }

  /** Merging keeps the tiling and the live blocks, and leaves no two free neighbours. */
  lemma {:induction false} MergedKeeps(out: seq<Span>, s: seq<Span>, lo: int, hi: int)
    requires Tiles(out + s, lo, hi) && NoFreePair(out)
    ensures Inv(Merged(out, s), lo, hi) && Live(Merged(out, s)) == Live(out + s)
    decreases s
  {
    hide Tiles, NoFreePair, Live;
    if s == [] {
      assert out + s == out;
    } else {
      var t := PutSpan(out, s[0]);
      PutLive(out, s);
      if out != [] && !out[|out| - 1].used && !s[0].used {
        JoinKeeps(out, s, lo, hi);
      } else {
        AppendKeeps(out, s[0]);
        assert t + s[1..] == out + s;
      }
      MergedKeeps(t, s[1..], lo, hi);
    }
  }

  /** Free keeps the tiling and does what it promises. */
  lemma FreeMeets(s: seq<Span>, lo: int, hi: int, addr: int)
    requires Inv(s, lo, hi)
    ensures Inv(FreeSpans(s, addr).0, lo, hi) && Frees(s, addr, FreeSpans(s, addr).0, FreeSpans(s, addr).1)
  {
    hide NoFreePair, Tiles, Merged;
    var i := BlockIndex(s, addr % 0x1_0000);
    if i < |s| {
      var t := s[i := s[i].(used := false)];
      assert s[i] in Live(s);
      ReleaseLive(s, lo, hi, i);
      assert NoFreePair([]) by { NoSpans(); }
      assert [] + t == t;
      MergedKeeps([], t, lo, hi);
    }
  }

  lemma NoSpans()
    ensures NoFreePair([])
  {
  }

  // ----- the heap itself

  class WordHeap {
    const lo: int
    const hi: int
    var spans: seq<Span>

    ghost predicate Valid()
      reads this
    {
      0 <= lo < hi <= 0x1_0000 && Inv(spans, lo, hi)
    }

    constructor (startWord: int, endWord: int)
      requires 0 <= startWord < endWord <= 0x1_0000
      ensures Valid() && lo == startWord && hi == endWord && Live(spans) == {}
    {
      lo, hi, spans := startWord, endWord, [Span(startWord, endWord - startWord, false)];
    }

    /** A range that is not inside the 16-bit space is refused. */
    static method Create(startWord: int, endWord: int) returns (r: Result<WordHeap>)
      ensures r.Ok? <==> 0 <= startWord <= 0xffff && startWord < endWord <= 0x1_0000
      ensures r.Ok? ==> fresh(r.value) && r.value.Valid() && Live(r.value.spans) == {}
      ensures r.Ok? ==> r.value.lo == startWord && r.value.hi == endWord
    {
      if startWord < 0 || startWord > 0xffff {
        return Err("invalid start");
      }
      if endWord <= startWord || endWord > 0x1_0000 {
        return Err("invalid end");
      }
      var h := new WordHeap(startWord, endWord);
      return Ok(h);
    }

    method Reset()
      requires Valid()
      modifies `spans
      ensures Valid() && Live(spans) == {} && spans == Fresh(lo, hi)
    {
      spans := [Span(lo, hi - lo, false)];
    }

    method Malloc(wordCount: int) returns (r: Result<int>)
      requires Valid()
      modifies `spans
      ensures (spans, r) == MallocSpans(old(spans), wordCount)
      ensures Valid() && Mallocs(lo, hi, old(spans), wordCount, spans, r)
    {
      hide Inv, Mallocs;
      MallocMeets(spans, lo, hi, wordCount);
      if wordCount < 1 {
        return Err("wordCount must be >= 1");
      }
      assert spans[0..] == spans;
      for i := 0 to |spans|
        invariant spans == old(spans) && FitIndex(spans, wordCount) == i + FitIndex(spans[i..], wordCount)
      {
        var span := spans[i];
        assert spans[i..][0] == span && spans[i..][1..] == spans[i + 1..];
        if span.used || span.size < wordCount { continue; }
        if span.size == wordCount {
          spans := spans[i := span.(used := true)];
          return Ok(span.start);
        }
        spans := spans[..i] +
          [Span(span.start, wordCount, true), Span(span.start + wordCount, span.size - wordCount, false)] +
          spans[i + 1..];
        return Ok(span.start);
      }
      return Err("out of heap");
    }

    method FindBlock(addr: int) returns (i: nat)
      ensures i == BlockIndex(spans, addr)
    {
      i := 0;
      assert spans[0..] == spans;
      while i < |spans| && !(spans[i].start == addr && spans[i].used)
        invariant i <= |spans| && BlockIndex(spans, addr) == i + BlockIndex(spans[i..], addr)
      {
        assert spans[i..][0] == spans[i] && spans[i..][1..] == spans[i + 1..];
        i := i + 1;
      }
    }

    method Free(wordAddr: int) returns (ok: bool)
      requires Valid()
      modifies `spans
      ensures (spans, ok) == FreeSpans(old(spans), wordAddr)
      ensures Valid() && Frees(old(spans), wordAddr, spans, ok)
    {
      hide Inv, Merged, Frees;
      FreeMeets(spans, lo, hi, wordAddr);
      var i := FindBlock(wordAddr % 0x1_0000);
      if i == |spans| {
        return false;
      }
      spans := spans[i := spans[i].(used := false)];
      Coalesce();
      return true;
    }

    method Coalesce()
      modifies `spans
      ensures spans == Merged([], old(spans))
    {
      var out: seq<Span> := [];
      assert spans[0..] == spans;
      for k := 0 to |spans|
        invariant spans == old(spans) && Merged([], spans) == Merged(out, spans[k..])
      {
        var span := spans[k];
        assert spans[k..][0] == span && spans[k..][1..] == spans[k + 1..];
        if out != [] && !out[|out| - 1].used && !span.used {
          var last := out[|out| - 1];
          out := out[|out| - 1 := last.(size := last.size + span.size)];
        } else {
          out := out + [span];
        }
      }
      spans := out;
    }

    method SizeOf(wordAddr: int) returns (r: Option<int>)
      requires Valid()
      ensures r.Some? <==> exists b :: b in Live(spans) && b.start == wordAddr % 0x1_0000
      ensures r.Some? ==> Span(wordAddr % 0x1_0000, r.value, true) in Live(spans)
    {
      var i := FindBlock(wordAddr % 0x1_0000);
      if i == |spans| {
        return None;
      }
      assert spans[i] in Live(spans);
      return Some(spans[i].size);
    }

    method IsAllocated(wordAddr: int) returns (yes: bool)
      ensures yes <==> exists b :: b in Live(spans) && b.start == wordAddr % 0x1_0000
    {
      var i := FindBlock(wordAddr % 0x1_0000);
      yes := i < |spans|;
      assert yes ==> spans[i] in Live(spans);
    }
  }

  const USER_HEAP_START := 0x1800
  const USER_HEAP_END := 0xf800

  /** The range the settings ask for; without a length the heap reaches up to the stack.  Every range
      it yields is one the heap accepts. */
  function ResolveMallocRange(start: Option<int>, words: Option<int>): (r: Result<(int, int)>)
    ensures r.Ok? ==> 0 <= r.value.0 <= 0xffff && r.value.0 < r.value.1 <= 0x1_0000
    ensures words.None? && r.Ok? ==> r.value.1 == USER_HEAP_END
    ensures start.None? && words.None? ==> r.Ok?
  {
    var first := if start.Some? then start.value else USER_HEAP_START;
    if first < 0 || first > 0xffff then Err("malloc.start") else
    var length := if words.Some? then words.value else USER_HEAP_END - first;
    if length < 1 then Err("malloc.words")
    else if first + length > 0x1_0000 then Err("exceeds 16bit space")
    else Ok((first, first + length))
  }

  /** A range asked for starts at 1800h and ends at F800h where nothing is said, and is refused exactly if it is empty
      or leaves the 16-bit space. */
  lemma RangeAsked(start: Option<int>, words: Option<int>)
    ensures var first := if start == None then 0x1800 else start.value;
      var length := if words == None then 0xf800 - first else words.value;
      if 0 <= first < 0x1_0000 && length >= 1 && first + length <= 0x1_0000 then
        ResolveMallocRange(start, words) == Ok((first, first + length))
      else ResolveMallocRange(start, words).Err?
  {
  }

  // ----- runs of operations

  datatype Op = MallocOp(words: int) | FreeOp(addr: int) | ResetOp

  function Fresh(lo: int, hi: int): seq<Span> { [Span(lo, hi - lo, false)] }

  /** The list an operation leaves. */
  function After(lo: int, hi: int, s: seq<Span>, op: Op): seq<Span> {
    if op.MallocOp? then MallocSpans(s, op.words).0
    else if op.FreeOp? then FreeSpans(s, op.addr).0
    else Fresh(lo, hi)
  }

  ghost predicate Run(lo: int, hi: int, ops: seq<Op>, states: seq<seq<Span>>) {
    |states| == |ops| + 1 && states[0] == Fresh(lo, hi) &&
    forall i, j | 0 <= i && j == i + 1 < |states| :: states[j] == After(lo, hi, states[i], ops[i])
  }

  /** What an operation promises, in terms of the live blocks alone. */
  ghost predicate Promised(lo: int, hi: int, s: seq<Span>, op: Op, t: seq<Span>) {
    if op.MallocOp? then exists r :: Mallocs(lo, hi, s, op.words, t, r)
    else if op.FreeOp? then exists ok :: Frees(s, op.addr, t, ok)
    else Live(t) == {}
  }

  /** Every operation keeps the tiling and its promise. */
  lemma AfterMeets(lo: int, hi: int, s: seq<Span>, op: Op)
    requires lo < hi && Inv(s, lo, hi)
    ensures Inv(After(lo, hi, s, op), lo, hi) && Promised(lo, hi, s, op, After(lo, hi, s, op))
  {
    hide MallocSpans, FreeSpans, Mallocs, Frees;
    if op.MallocOp? {
      MallocMeets(s, lo, hi, op.words);
    } else if op.FreeOp? {
      FreeMeets(s, lo, hi, op.addr);
    }
  }

  /** Every state of every run is a tiling without neighbouring free spans. */
  lemma {:induction false} RunKeeps(lo: int, hi: int, ops: seq<Op>, states: seq<seq<Span>>, k: nat)
    requires lo < hi && Run(lo, hi, ops, states) && k < |states|
    ensures Inv(states[k], lo, hi)
  {
    hide After;
    if k > 0 {
      RunKeeps(lo, hi, ops, states, k - 1);
      hide Inv;
      AfterMeets(lo, hi, states[k - 1], ops[k - 1]);
      assert states[k] == After(lo, hi, states[k - 1], ops[k - 1]);
    }
  }

  lemma PromiseKeepsBlock(lo: int, hi: int, s: seq<Span>, op: Op, t: seq<Span>, b: Span)
    requires Promised(lo, hi, s, op, t) && b in Live(s)
    requires op.FreeOp? ==> op.addr % 0x1_0000 != b.start
    requires !op.ResetOp?
    ensures b in Live(t)
  {
    hide Live, FreeAt;
  }

  /** A block stays where it is, with its size, until it is given back. */
  lemma {:induction false} BlocksStay(lo: int, hi: int, ops: seq<Op>, states: seq<seq<Span>>, i: nat, j: nat, b: Span)
    requires lo < hi && Run(lo, hi, ops, states) && i <= j < |states| && b in Live(states[i])
    requires forall k | i <= k < j :: !ops[k].ResetOp? && (ops[k].FreeOp? ==> ops[k].addr % 0x1_0000 != b.start)
    ensures b in Live(states[j])
    decreases j
  {
    hide Live, Promised, After, Inv;
    if i < j {
      BlocksStay(lo, hi, ops, states, i, j - 1, b);
      RunKeeps(lo, hi, ops, states, j - 1);
      AfterMeets(lo, hi, states[j - 1], ops[j - 1]);
      assert states[j] == After(lo, hi, states[j - 1], ops[j - 1]);
      PromiseKeepsBlock(lo, hi, states[j - 1], ops[j - 1], states[j], b);
    }
  }

  /** The promises fix the list: any tiling that keeps them is the list the heap leaves. */
  lemma StepDetermined(lo: int, hi: int, s: seq<Span>, op: Op, t: seq<Span>)
    requires lo < hi && Inv(s, lo, hi) && Inv(t, lo, hi) && Promised(lo, hi, s, op, t)
    ensures t == After(lo, hi, s, op)
  {
    hide Inv, Live, FreeAt, After;
    AfterMeets(lo, hi, s, op);
    var u := After(lo, hi, s, op);
    if op.MallocOp? {
      SameOutcome(lo, hi, s, op.words, t, u);
    } else if Live(t) == Live(u) {
      Canonical(t, u, lo, hi);
    }
  }

  lemma SameOutcome(lo: int, hi: int, s: seq<Span>, n: int, t: seq<Span>, u: seq<Span>)
    requires Inv(t, lo, hi) && Inv(u, lo, hi)
    requires (exists r :: Mallocs(lo, hi, s, n, t, r)) && exists r :: Mallocs(lo, hi, s, n, u, r)
    ensures t == u
  {
    hide Inv, Live, FreeAt;
    var q :| Mallocs(lo, hi, s, n, t, q);
    var r :| Mallocs(lo, hi, s, n, u, r);
    if q.Ok? && r.Ok? {
      Canonical(t, u, lo, hi);
    }
  }

  /** Giving back what was just handed out restores the very same list. */
  lemma FreeUndoesMalloc(lo: int, hi: int, s: seq<Span>, n: int)
    requires 0 <= lo < hi <= 0x1_0000 && Inv(s, lo, hi) && MallocSpans(s, n).1.Ok?
    ensures var (t, p) := MallocSpans(s, n); FreeSpans(t, p.value) == (s, true)
  {
    hide Inv, Live, MallocSpans, FreeSpans, FreeAt;
    MallocMeets(s, lo, hi, n);
    var t, p := MallocSpans(s, n).0, MallocSpans(s, n).1.value;
    FreeMeets(t, lo, hi, p);
    var u := FreeSpans(t, p).0;
    assert Span(p, n, true) in Live(t);
    LiveDisjoint(t, lo, hi, Span(p, n, true), Span(p, n, true));
    forall b | b in Live(s) ensures b.start != p {
      LiveDisjoint(s, lo, hi, b, b);
      assert FreeAt(Live(s), lo, hi, p, n);
      RoomIsElsewhere(Live(s), lo, hi, p, n, b);
    }
    assert Live(u) == Live(s);
    Canonical(u, s, lo, hi);
  }

  lemma RoomIsElsewhere(live: set<Span>, lo: int, hi: int, p: int, n: int, b: Span)
    requires FreeAt(live, lo, hi, p, n) && b in live && n >= 1 && b.start < b.End()
    ensures b.start != p
  {
  }

  lemma FreshIsEmpty(s: seq<Span>, lo: int, hi: int)
    requires lo < hi && Inv(s, lo, hi) && Live(s) == {}
    ensures s == Fresh(lo, hi)
  {
    var f := Fresh(lo, hi);
    assert Inv(f, lo, hi) && Live(f) == {};
    Canonical(s, f, lo, hi);
  }

  /** Giving back every live block, in any order, leaves the one span the heap began with. */
  lemma {:induction false} FreeAll(lo: int, hi: int, order: seq<int>, states: seq<seq<Span>>)
    requires 0 <= lo < hi <= 0x1_0000 && |states| == |order| + 1 && Inv(states[0], lo, hi)
    requires forall i, j | 0 <= i && j == i + 1 < |states| :: states[j] == FreeSpans(states[i], order[i]).0
    requires forall b | b in Live(states[0]) :: b.start in order
    ensures states[|order|] == Fresh(lo, hi)
    decreases |order|
  {
    hide Live, FreeSpans, Inv;
    if order == [] {
      assert Live(states[0]) == {};
      FreshIsEmpty(states[0], lo, hi);
    } else {
      var rest, later := order[1..], states[1..];
      FreeOne(lo, hi, order, states[0]);
      forall i, j | 0 <= i && j == i + 1 < |later| ensures later[j] == FreeSpans(later[i], rest[i]).0 {
        assert states[j + 1] == FreeSpans(states[i + 1], order[i + 1]).0;
      }
      FreeAll(lo, hi, rest, later);
    }
  }

  lemma FreeOne(lo: int, hi: int, order: seq<int>, s: seq<Span>)
    requires 0 <= lo < hi <= 0x1_0000 && Inv(s, lo, hi) && order != []
    requires forall b | b in Live(s) :: b.start in order
    ensures var t := FreeSpans(s, order[0]).0;
      Inv(t, lo, hi) && forall b | b in Live(t) :: b.start in order[1..]
  {
    hide Inv, Live, FreeSpans;
    FreeMeets(s, lo, hi, order[0]);
    var t := FreeSpans(s, order[0]).0;
    assert order == [order[0]] + order[1..];
    forall b | b in Live(t) ensures b.start in order[1..] {
      assert b in Live(s);
      LiveDisjoint(s, lo, hi, b, b);
      assert b.start % 0x1_0000 == b.start;
    }
  }
}
