/** Intel HEX: the linker's printer and parser, the emulator's loader and its DMA plan. */
module IntelHex {
  import opened Results
  import opened Bytes

  /** A line already stripped of blanks and of its colon: `Other` has no colon, `Ragged` an odd digit
      behind its whole bytes. */
  datatype Line = Blank | Other | Ragged(bytes: seq<Byte>) | Rec(bytes: seq<Byte>)

  /** Bytes at consecutive addresses. */
  datatype Piece = Piece(addr: nat, data: seq<Byte>)

  const EOF_RECORD: Line := Rec([0, 0, 0, 1, 0xff])

  // ----- checksums

  function Sum8(b: seq<Byte>): Byte {
    if b == [] then 0 else
    var sum: int := Sum8(b[..|b| - 1]);
    (sum + b[|b| - 1]) % 256
  }

  function Checksum(b: seq<Byte>): Byte {
    var sum: int := Sum8(b);
    (256 - sum) % 256
  }

  /** A record sums to zero with one last byte and no other. */
  lemma ChecksumCloses(b: seq<Byte>, c: Byte)
    ensures Sum8(b + [c]) == 0 <==> c == Checksum(b)
  {
    assert (b + [c])[..|b|] == b;
  }

  // ----- what a text stands for

  function Payload(b: seq<Byte>): (p: seq<Byte>)
    requires |b| >= 5
    ensures |p| <= b[0]
  {
    b[4..if 4 + b[0] as int <= |b| then 4 + b[0] as int else |b|]
  }

  function Address(b: seq<Byte>): nat
    requires |b| >= 5
  {
    FromBe16(b[1..3])
  }

  /** The data records up to the end record or the first flaw. */
  datatype Walked = Walked(pieces: seq<Piece>, ok: bool)

  function Before(p: seq<Piece>, w: Walked): Walked { Walked(p + w.pieces, w.ok) }

  const FLAWED: Walked := Walked([], false)

  function Walk(lines: seq<Line>, base: nat): Walked {
    if lines == [] then FLAWED
    else if lines[0].Blank? then Walk(lines[1..], base)
    else if !lines[0].Rec? then FLAWED
    else
      var b := lines[0].bytes;
      if |b| < 5 || Sum8(b) != 0 then FLAWED
      else if b[3] == 0 then
        Before([Piece((base + Address(b)) % 0x1_0000_0000, Payload(b))], Walk(lines[1..], base))
      else if b[3] == 1 then Walked([], true)
      else if b[3] == 2 || b[3] == 4 then
        if |Payload(b)| != 2 then FLAWED
        else Walk(lines[1..], FromBe16(Payload(b)) * (if b[3] == 2 then 16 else 0x1_0000))
      else Walk(lines[1..], base)
  }

  method WalkIntelHexData(lines: seq<Line>) returns (w: Walked)
    ensures w == Walk(lines, 0)
  {
    hide Sum8, Payload, Address, FromBe16;
    var base: nat, pieces: seq<Piece> := 0, [];
    for li := 0 to |lines|
      invariant Walk(lines, 0) == Before(pieces, Walk(lines[li..], base))
    {
      ghost var rest := lines[li..];
      assert rest[0] == lines[li] && rest[1..] == lines[li + 1..];
      if lines[li].Blank? { continue; }
      if !lines[li].Rec? { return Walked(pieces, false); }
      var b := lines[li].bytes;
      if |b| < 5 || Sum8(b) != 0 { return Walked(pieces, false); }
      if b[3] == 0 {
        pieces := pieces + [Piece((base + Address(b)) % 0x1_0000_0000, Payload(b))];
      } else if b[3] == 1 {
        return Walked(pieces, true);
      } else if b[3] == 2 {
        if |Payload(b)| != 2 { return Walked(pieces, false); }
        base := FromBe16(Payload(b)) * 16;
      } else if b[3] == 4 {
        if |Payload(b)| != 2 { return Walked(pieces, false); }
        base := FromBe16(Payload(b)) * 0x1_0000;
      }
    }
    return Walked(pieces, false);
  }

  // ----- single-byte writes

  function PieceWrites(p: Piece): (ws: seq<(nat, Byte)>)
    ensures |ws| == |p.data|
  {
    seq(|p.data|, i requires 0 <= i < |p.data| => (p.addr + i, p.data[i]))
  }

  function Writes(ps: seq<Piece>): seq<(nat, Byte)> {
    if ps == [] then [] else Writes(ps[..|ps| - 1]) + PieceWrites(ps[|ps| - 1])
  }

  predicate InRange(ws: seq<(nat, Byte)>, size: nat) { forall w | w in ws :: w.0 < size }

  /** Memory after the writes, one after the other. */
  function Stored(mem: seq<Byte>, ws: seq<(nat, Byte)>): (r: seq<Byte>)
    requires InRange(ws, |mem|)
    ensures |r| == |mem|
  {
    if ws == [] then mem else
    Stored(mem, ws[..|ws| - 1])[ws[|ws| - 1].0 := ws[|ws| - 1].1]
  }

  function Lowest(ws: seq<(nat, Byte)>): Option<nat> {
    if ws == [] then None else
    var before, a := Lowest(ws[..|ws| - 1]), ws[|ws| - 1].0;
    if before == None || a < before.value then Some(a) else before
  }

  function Highest(ws: seq<(nat, Byte)>): int {
    if ws == [] then -1 else
    var before, a := Highest(ws[..|ws| - 1]), ws[|ws| - 1].0;
    if a > before then a else before
  }

  lemma {:induction false} Extremes(ws: seq<(nat, Byte)>)
    requires ws != []
    ensures Lowest(ws).Some? && Highest(ws) >= 0
    ensures forall w | w in ws :: Lowest(ws).value <= w.0 <= Highest(ws)
    ensures exists w :: w in ws && w.0 == Lowest(ws).value
    ensures exists w :: w in ws && w.0 == Highest(ws)
  {
    var init, last := ws[..|ws| - 1], ws[|ws| - 1];
    assert ws == init + [last] && last in ws;
    if init != [] {
      Extremes(init);
      var x :| x in init && x.0 == Lowest(init).value;
      var y :| y in init && y.0 == Highest(init);
      assert x in ws && y in ws;
    }
  }

  datatype Summary = Summary(bytesWritten: nat, minAddr: nat, maxAddr: int)

  function Summed(ws: seq<(nat, Byte)>): Summary {
    if ws == [] then Summary(0, 0, -1)
    else Summary(|ws|, if Lowest(ws) == None then 0 else Lowest(ws).value, Highest(ws))
  }

  // ----- loading into memory

  /** The loader stores record by record; a text with a flaw, or an address outside the memory, stops it
      after the writes before that point. */
  method LoadIntelHex(lines: seq<Line>, mem: array<Byte>) returns (r: Result<Summary>)
    modifies mem
    ensures var w := Walk(lines, 0);
      r.Ok? <==> w.ok && InRange(Writes(w.pieces), mem.Length)
    ensures r.Ok? ==> mem[..] == Stored(old(mem[..]), Writes(Walk(lines, 0).pieces))
    ensures r.Ok? ==> r.value == Summed(Writes(Walk(lines, 0).pieces))
    ensures r.Err? ==> exists k :: 0 <= k <= |Writes(Walk(lines, 0).pieces)| &&
                                   StoppedAt(old(mem[..]), mem[..], Writes(Walk(lines, 0).pieces), k)
  {
    hide Stored, Lowest, Highest, Walk, PieceWrites;
    var w := WalkIntelHexData(lines);
    ghost var was, all := mem[..], Writes(w.pieces);
    var bytesWritten: nat, minAddr: Option<nat>, maxAddr: int := 0, None, -1;
    StoredNone(was);
    for k := 0 to |w.pieces|
      invariant Writes(w.pieces[..k]) <= all && InRange(Writes(w.pieces[..k]), mem.Length)
      invariant mem[..] == Stored(was, Writes(w.pieces[..k]))
      invariant bytesWritten == |Writes(w.pieces[..k])|
      invariant minAddr == Lowest(Writes(w.pieces[..k])) && maxAddr == Highest(Writes(w.pieces[..k]))
    {
      var p := w.pieces[k];
      ghost var done, here := Writes(w.pieces[..k]), PieceWrites(p);
      WritesPrefix(w.pieces, k);
      assert done + here[..0] == done;
      for i := 0 to |p.data|
        invariant InRange(done + here[..i], mem.Length)
        invariant mem[..] == Stored(was, done + here[..i])
        invariant bytesWritten == |done| + i
        invariant minAddr == Lowest(done + here[..i]) && maxAddr == Highest(done + here[..i])
      {
        var a := p.addr + i;
        OneMore(was, done, p, i);
        if a >= mem.Length {
          assert all[|done| + i] == here[i] && all[..|done| + i] == done + here[..i];
          assert here[i] in all;
          assert StoppedAt(was, mem[..], all, |done| + i);
          return Err("address out of range");
        }
        mem[a] := p.data[i];
        bytesWritten := bytesWritten + 1;
        if minAddr == None || a < minAddr.value { minAddr := Some(a); }
        if a > maxAddr { maxAddr := a; }
      }
      assert done + here[..|p.data|] == done + here;
    }
    assert w.pieces[..|w.pieces|] == w.pieces;
    if !w.ok {
      assert all[..|all|] == all;
      assert StoppedAt(was, mem[..], all, |all|);
      return Err("flawed text");
    }
    return Ok(if bytesWritten == 0 then Summary(0, 0, -1)
              else Summary(bytesWritten, if minAddr == None then 0 else minAddr.value, maxAddr));
  }

  /** Exactly the first `k` writes were made, and the next one, if there is one, has no place. */
  ghost predicate StoppedAt(was: seq<Byte>, now: seq<Byte>, ws: seq<(nat, Byte)>, k: nat)
    requires k <= |ws|
  {
    InRange(ws[..k], |was|) && now == Stored(was, ws[..k]) && (k < |ws| ==> ws[k].0 >= |was|)
  }

  lemma StoredNone(mem: seq<Byte>)
    ensures Stored(mem, []) == mem && Lowest([]) == None && Highest([]) == -1
  {
  }

  lemma {:induction false} WritesPrefix(ps: seq<Piece>, k: nat)
    requires k < |ps|
    ensures Writes(ps[..k + 1]) == Writes(ps[..k]) + PieceWrites(ps[k])
    ensures Writes(ps[..k + 1]) <= Writes(ps)
    decreases |ps| - k
  {
    hide PieceWrites;
    assert ps[..k + 1][..k] == ps[..k];
    if k + 1 < |ps| {
      WritesPrefix(ps, k + 1);
    } else {
      assert ps[..k + 1] == ps;
    }
  }

  lemma OneMore(was: seq<Byte>, done: seq<(nat, Byte)>, p: Piece, i: nat)
    requires i < |p.data| && InRange(done + PieceWrites(p)[..i], |was|)
    ensures PieceWrites(p)[i] == (p.addr + i, p.data[i])
    ensures var ws := done + PieceWrites(p)[..i];
      done + PieceWrites(p)[..i + 1] == ws + [PieceWrites(p)[i]] &&
      (p.addr + i < |was| ==>
         InRange(done + PieceWrites(p)[..i + 1], |was|) &&
         Stored(was, done + PieceWrites(p)[..i + 1]) == Stored(was, ws)[p.addr + i := p.data[i]]) &&
      Lowest(done + PieceWrites(p)[..i + 1]) ==
        (if Lowest(ws) == None || p.addr + i < Lowest(ws).value then Some(p.addr + i) else Lowest(ws)) &&
      Highest(done + PieceWrites(p)[..i + 1]) == (if p.addr + i > Highest(ws) then p.addr + i else Highest(ws))
  {
    var ws, w := done + PieceWrites(p)[..i], PieceWrites(p)[i];
    var more := done + PieceWrites(p)[..i + 1];
    assert more == ws + [w] && more[..|more| - 1] == ws;
  }

  // ----- the DMA plan

  datatype Plan = Plan(chunks: seq<Piece>, summary: Summary)

  /** No chunk is empty or starts where the one before it ends. */
  ghost predicate Apart(cs: seq<Piece>) {
    (forall c | c in cs :: c.data != []) &&
    forall i, j | 0 <= i && j == i + 1 < |cs| :: cs[i].addr + |cs[i].data| != cs[j].addr
  }

  /** The plan makes the same writes in the same order as the loader, and counts the same. */
  method IntelHexToDmaPlan(lines: seq<Line>) returns (r: Result<Plan>)
    ensures r.Ok? <==> Walk(lines, 0).ok
    ensures r.Ok? ==> Apart(r.value.chunks) && Writes(r.value.chunks) == Writes(Walk(lines, 0).pieces)
    ensures r.Ok? ==> r.value.summary == Summed(Writes(Walk(lines, 0).pieces))
  {
    hide Walk;
    var w := WalkIntelHexData(lines);
    if !w.ok { return Err("flawed text"); }
    var chunks := MergePieces(w.pieces);
    var summary := SummarizeChunks(chunks);
    return Ok(Plan(chunks, summary));
  }

  method MergePieces(pieces: seq<Piece>) returns (raw: seq<Piece>)
    ensures Apart(raw) && Writes(raw) == Writes(pieces)
  {
    hide Writes, PieceWrites, Apart;
    raw := [];
    WritesNothing();
    for k := 0 to |pieces|
      invariant Apart(raw) && Writes(raw) == Writes(pieces[..k])
    {
      var p := pieces[k];
      WritesPrefix(pieces, k);
      if p.data == [] {
        NoWrites(p);
        assert Writes(raw) + [] == Writes(raw);
        continue;
      }
      if raw != [] && raw[|raw| - 1].addr + |raw[|raw| - 1].data| == p.addr {
        var last := raw[|raw| - 1];
        GrowLast(raw, p);
        raw := raw[|raw| - 1 := Piece(last.addr, last.data + p.data)];
      } else {
        NewLast(raw, p);
        raw := raw + [p];
      }
    }
    assert pieces[..|pieces|] == pieces;
  }

  lemma NoWrites(p: Piece)
    requires p.data == []
    ensures PieceWrites(p) == []
  {
  }

  lemma GrowLast(raw: seq<Piece>, p: Piece)
    requires Apart(raw) && raw != [] && raw[|raw| - 1].addr + |raw[|raw| - 1].data| == p.addr
    ensures var last := raw[|raw| - 1];
      var more := raw[|raw| - 1 := Piece(last.addr, last.data + p.data)];
      Apart(more) && Writes(more) == Writes(raw) + PieceWrites(p)
  {
    var last := raw[|raw| - 1];
    var grown := Piece(last.addr, last.data + p.data);
    JoinedWrites(last, p);
    GrownApart(raw, p);
    hide PieceWrites, Apart;
    var more := raw[|raw| - 1 := grown];
    assert more[..|raw| - 1] == raw[..|raw| - 1];
    assert Writes(more) == Writes(raw[..|raw| - 1]) + (PieceWrites(last) + PieceWrites(p));
  }

  lemma GrownApart(raw: seq<Piece>, p: Piece)
    requires Apart(raw) && raw != []
    ensures var last := raw[|raw| - 1]; Apart(raw[|raw| - 1 := Piece(last.addr, last.data + p.data)])
  {
    assert raw[|raw| - 1] in raw;
  }

  lemma JoinedWrites(last: Piece, p: Piece)
    requires last.addr + |last.data| == p.addr
    ensures PieceWrites(Piece(last.addr, last.data + p.data)) == PieceWrites(last) + PieceWrites(p)
  {
  }

  lemma NewLast(raw: seq<Piece>, p: Piece)
    requires Apart(raw) && p.data != []
    requires raw != [] ==> raw[|raw| - 1].addr + |raw[|raw| - 1].data| != p.addr
    ensures Apart(raw + [p]) && Writes(raw + [p]) == Writes(raw) + PieceWrites(p)
  {
    hide PieceWrites;
    assert (raw + [p])[..|raw|] == raw;
  }

  method SummarizeChunks(chunks: seq<Piece>) returns (s: Summary)
    ensures s == Summed(Writes(chunks))
  {
    hide PieceWrites, Lowest, Highest;
    var bytesWritten: nat, minAddr: Option<nat>, maxAddr: int := 0, None, -1;
    StoredNone([]);
    for k := 0 to |chunks|
      invariant bytesWritten == |Writes(chunks[..k])|
      invariant minAddr == Lowest(Writes(chunks[..k])) && maxAddr == Highest(Writes(chunks[..k]))
    {
      var c := chunks[k];
      WritesPrefix(chunks, k);
      bytesWritten := bytesWritten + |c.data|;
      if c.data == [] {
        assert Writes(chunks[..k]) + PieceWrites(c) == Writes(chunks[..k]);
        continue;
      }
      PieceExtremes(Writes(chunks[..k]), c, |c.data|);
      assert PieceWrites(c)[..|c.data|] == PieceWrites(c);
      if minAddr == None || c.addr < minAddr.value { minAddr := Some(c.addr); }
      var hi := c.addr + |c.data| - 1;
      if hi > maxAddr { maxAddr := hi; }
    }
    assert chunks[..|chunks|] == chunks;
    s := if bytesWritten == 0 then Summary(0, 0, -1)
    else Summary(bytesWritten, if minAddr == None then 0 else minAddr.value, maxAddr);
  }

  lemma {:induction false} PieceExtremes(done: seq<(nat, Byte)>, p: Piece, n: nat)
    requires 1 <= n <= |p.data|
    ensures var ws := done + PieceWrites(p)[..n];
      Lowest(ws) == (if Lowest(done) == None || p.addr < Lowest(done).value then Some(p.addr) else Lowest(done)) &&
      Highest(ws) == (if p.addr + n - 1 > Highest(done) then p.addr + n - 1 else Highest(done))
  {
    var ws, before := done + PieceWrites(p)[..n], done + PieceWrites(p)[..n - 1];
    assert ws == before + [PieceWrites(p)[n - 1]] && ws[..|ws| - 1] == before;
    if n == 1 {
      assert before == done;
    } else {
      PieceExtremes(done, p, n - 1);
    }
  }

  lemma WritesNothing()
    ensures Writes([]) == [] && Apart([])
  {
  }

  lemma SplitLast(cs: seq<Piece>)
    requires Apart(cs) && cs != []
    ensures var c := cs[|cs| - 1];
      c.data != [] && Apart(cs[..|cs| - 1]) && Writes(cs) == Writes(cs[..|cs| - 1]) + PieceWrites(c)
  {
    assert cs[|cs| - 1] in cs;
  }

  lemma SameEnd<T>(a: seq<T>, b: seq<T>, c: seq<T>, d: seq<T>)
    requires a + b == c + d && |b| == |d|
    ensures a == c && b == d
  {
    assert a == (a + b)[..|a|] && c == (c + d)[..|c|];
    assert b == (a + b)[|a|..] && d == (c + d)[|c|..];
  }

  /** A new chunk starts where the addresses stop being consecutive. */
  lemma ChunkEdge(cs: seq<Piece>)
    requires Apart(cs) && |cs| >= 2
    ensures var ws, n := Writes(cs), |Writes(cs)| - |cs[|cs| - 1].data|;
      0 < n < |ws| && ws[n].0 != ws[n - 1].0 + 1
  {
    hide Writes;
    var c, b, before := cs[|cs| - 1], cs[|cs| - 2], cs[..|cs| - 1];
    SplitLast(cs);
    SplitLast(before);
    var ws, n := Writes(cs), |Writes(cs)| - |c.data|;
    assert ws[n] == PieceWrites(c)[0];
    assert n == |Writes(before)| && ws[n - 1] == Writes(before)[n - 1] == PieceWrites(b)[|b.data| - 1];
  }

  /** Inside the last chunk they are consecutive. */
  lemma ChunkInside(cs: seq<Piece>, k: nat)
    requires cs != [] && |Writes(cs)| - |cs[|cs| - 1].data| < k < |Writes(cs)|
    ensures Writes(cs)[k].0 == Writes(cs)[k - 1].0 + 1
  {
    var c := cs[|cs| - 1];
    var n := |Writes(cs)| - |c.data|;
    assert Writes(cs)[k] == PieceWrites(c)[k - n] && Writes(cs)[k - 1] == PieceWrites(c)[k - 1 - n];
  }

  lemma LastNotLonger(cs: seq<Piece>, ds: seq<Piece>)
    requires Apart(cs) && Apart(ds) && Writes(cs) == Writes(ds) && cs != [] && ds != []
    ensures |ds[|ds| - 1].data| <= |cs[|cs| - 1].data|
  {
    hide Apart, PieceWrites;
    var ws := Writes(cs);
    if |cs| >= 2 {
      ChunkEdge(cs);
      forall k | |ws| - |ds[|ds| - 1].data| < k < |ws| ensures ws[k].0 == ws[k - 1].0 + 1 {
        ChunkInside(ds, k);
      }
    }
  }

  lemma SamePiece(c: Piece, d: Piece)
    requires c.data != [] && PieceWrites(c) == PieceWrites(d)
    ensures c == d
  {
    assert PieceWrites(c)[0] == (c.addr, c.data[0]) && PieceWrites(d)[0] == (d.addr, d.data[0]);
    forall i | 0 <= i < |c.data| ensures c.data[i] == d.data[i] {
      assert PieceWrites(c)[i] == PieceWrites(d)[i];
    }
  }

  /** The writes and `Apart` leave no choice: there is one such plan. */
  lemma {:induction false} PlanIsDetermined(cs: seq<Piece>, ds: seq<Piece>)
    requires Apart(cs) && Apart(ds) && Writes(cs) == Writes(ds)
    ensures cs == ds
  {
    hide PieceWrites, Apart, Writes;
    if cs != [] { SplitLast(cs); }
    if ds != [] { SplitLast(ds); }
    if cs == [] || ds == [] {
      assert Writes([]) == [] by { WritesNothing(); }
    } else {
      var c, d := cs[|cs| - 1], ds[|ds| - 1];
      LastNotLonger(cs, ds);
      LastNotLonger(ds, cs);
      SameEnd(Writes(cs[..|cs| - 1]), PieceWrites(c), Writes(ds[..|ds| - 1]), PieceWrites(d));
      SamePiece(c, d);
      PlanIsDetermined(cs[..|cs| - 1], ds[..|ds| - 1]);
      assert cs == cs[..|cs| - 1] + [c] && ds == ds[..|ds| - 1] + [d];
    }
  }
}
