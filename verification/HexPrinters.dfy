/** The two printers of Intel HEX text, and what their readers make of it. */
module HexPrinters {
  import opened Results
  import opened Bytes
  import opened IntelHex

  // ----- printed text

  function RecordOf(c: Piece): (b: seq<Byte>)
    requires |c.data| < 256
    ensures |b| == |c.data| + 5
  {
    var head := [|c.data|] + Be16(c.addr) + [0] + c.data;
    head + [Checksum(head)]
  }

  function Print(cs: seq<Piece>): (lines: seq<Line>)
    requires forall c | c in cs :: |c.data| < 256
    ensures |lines| == |cs| + 1
  {
    seq(|cs|, i requires 0 <= i < |cs| => Rec(RecordOf(cs[i]))) + [EOF_RECORD]
  }

  /** The address field keeps 16 bits. */
  function Cut(c: Piece): Piece { Piece(c.addr % 0x1_0000, c.data) }

  function CutAll(cs: seq<Piece>): seq<Piece> { seq(|cs|, i requires 0 <= i < |cs| => Cut(cs[i])) }

  lemma RecordReads(c: Piece)
    requires |c.data| < 256
    ensures var b := RecordOf(c);
      Sum8(b) == 0 && b[0] == |c.data| && b[3] == 0 && Payload(b) == c.data && Address(b) == c.addr % 0x1_0000
    ensures forall i | 0 <= i < |c.data| :: RecordOf(c)[4 + i] == c.data[i]
  {
    hide Sum8, Checksum, Be16, FromBe16;
    var b := RecordOf(c);
    var head := [|c.data|] + Be16(c.addr) + [0] + c.data;
    ChecksumCloses(head, Checksum(head));
    assert b[1..3] == Be16(c.addr);
    Be16Back(c.addr);
  }

  /** A printed text passes every check of the loader, which finds the printed pieces at their
      addresses modulo 16 bits. */
  lemma {:induction false} PrintedWalks(cs: seq<Piece>)
    requires forall c | c in cs :: |c.data| < 256
    ensures Walk(Print(cs), 0) == Walked(CutAll(cs), true)
  {
    hide Sum8, Payload, Address, RecordOf;
    if cs == [] {
      EofSums();
      assert Print(cs) == [EOF_RECORD];
    } else {
      RecordReads(cs[0]);
      PrintedWalks(cs[1..]);
      assert Print(cs)[0] == Rec(RecordOf(cs[0])) && Print(cs)[1..] == Print(cs[1..]);
      assert CutAll(cs) == [Cut(cs[0])] + CutAll(cs[1..]);
    }
  }

  lemma EofSums()
    ensures Sum8(EOF_RECORD.bytes) == 0
  {
    var a: seq<Byte> := [0, 0];
    assert a[..1] == [0] && Sum8([0]) == 0 && Sum8(a) == 0;
    var b: seq<Byte> := [0, 0, 0, 1];
    assert b[..3][..2] == a && Sum8(b[..3]) == 0;
    assert Sum8(b) == 1;
    assert EOF_RECORD.bytes[..4] == b;
  }

  // ----- words, as the emulator's tests print them

  function PayloadOf(words: seq<nat>): (p: seq<Byte>)
    ensures |p| == 2 * |words|
  {
    if words == [] then [] else PayloadOf(words[..|words| - 1]) + Be16(words[|words| - 1])
  }

  /** Slices of 16 bytes, the last one shorter. */
  function Slices(addr: nat, p: seq<Byte>): (cs: seq<Piece>)
    ensures forall c | c in cs :: |c.data| <= 16
  {
    seq((|p| + 15) / 16, k requires 0 <= k < (|p| + 15) / 16 =>
      Piece(addr + 16 * k, p[16 * k..if 16 * k + 16 <= |p| then 16 * k + 16 else |p|]))
  }

  method WordsToIntelHex(wordAddr: int, words: seq<nat>) returns (lines: seq<Line>)
    ensures lines == Print(Slices(wordAddr % 0x1_0000 * 2, PayloadOf(words)))
  {
    hide RecordOf, Be16;
    var byteAddr := wordAddr % 0x1_0000 * 2;
    var payload: seq<Byte> := [];
    for i := 0 to |words|
      invariant payload == PayloadOf(words[..i])
    {
      assert words[..i + 1][..i] == words[..i];
      payload := payload + Be16(words[i]);
    }
    assert words[..|words|] == words;
    lines := [];
    var off := 0;
    ghost var slices := Slices(byteAddr, payload);
    while off < |payload|
      invariant off == (if 16 * |lines| <= |payload| then 16 * |lines| else |payload|) && |lines| <= |slices|
      invariant forall k | 0 <= k < |lines| :: lines[k] == Rec(RecordOf(slices[k]))
    {
      var chunk := payload[off..if off + 16 <= |payload| then off + 16 else |payload|];
      assert slices[|lines|] == Piece(byteAddr + off, chunk);
      lines := lines + [Rec(RecordOf(Piece(byteAddr + off, chunk)))];
      off := off + |chunk|;
    }
    lines := lines + [EOF_RECORD];
  }

  lemma {:induction false} SlicesWrite(addr: nat, p: seq<Byte>, k: nat)
    requires k <= |Slices(addr, p)|
    ensures Writes(Slices(addr, p)[..k]) == PieceWrites(Piece(addr, p))[..if 16 * k <= |p| then 16 * k else |p|]
  {
    if k > 0 {
      var cs := Slices(addr, p);
      SlicesWrite(addr, p, k - 1);
      assert cs[..k][..k - 1] == cs[..k - 1];
      var from, to := 16 * (k - 1), if 16 * k <= |p| then 16 * k else |p|;
      assert PieceWrites(cs[k - 1]) == PieceWrites(Piece(addr, p))[from..to];
    }
  }

  /** The slices write the payload from the address on. */
  lemma SlicesWriteAll(addr: nat, p: seq<Byte>)
    ensures Writes(Slices(addr, p)) == PieceWrites(Piece(addr, p))
  {
    var cs := Slices(addr, p);
    SlicesWrite(addr, p, |cs|);
    assert cs[..|cs|] == cs;
    assert PieceWrites(Piece(addr, p))[..|p|] == PieceWrites(Piece(addr, p));
  }

  /** The text is always accepted.  It loads as the big-endian words, one behind the other from twice the
      word address, exactly when its last record still starts below 64K. */
  lemma WordsLoad(wordAddr: int, words: seq<nat>)
    ensures var p, addr := PayloadOf(words), wordAddr % 0x1_0000 * 2;
      var w := Walk(Print(Slices(addr, p)), 0);
      w.ok && (Writes(w.pieces) == PieceWrites(Piece(addr, p)) <==>
               (words == [] || addr + (|p| - 1) / 16 * 16 < 0x1_0000))
  {
    hide Print, Walk, PayloadOf, Writes, PieceWrites, Slices, CutAll;
    var p, addr := PayloadOf(words), wordAddr % 0x1_0000 * 2;
    var cs := Slices(addr, p);
    PrintedWalks(cs);
    SlicesWriteAll(addr, p);
    if words == [] || addr + (|p| - 1) / 16 * 16 < 0x1_0000 {
      SlicesUncut(addr, p);
    } else {
      LastSlice(addr, p);
      CutShifts(cs);
    }
  }

  lemma SlicesUncut(addr: nat, p: seq<Byte>)
    requires p == [] || addr + (|p| - 1) / 16 * 16 < 0x1_0000
    ensures CutAll(Slices(addr, p)) == Slices(addr, p)
  {
    var cs := Slices(addr, p);
    forall i | 0 <= i < |cs| ensures CutAll(cs)[i] == cs[i] {
      var last := (|p| - 1) / 16;
      assert i <= last && 16 * i <= last * 16;
      Fits16(addr + 16 * i);
    }
  }

  lemma Fits16(a: nat)
    requires a < 0x1_0000
    ensures a % 0x1_0000 == a
  {
  }

  lemma LastSlice(addr: nat, p: seq<Byte>)
    requires p != []
    ensures var cs := Slices(addr, p);
      cs != [] && cs[|cs| - 1].addr == addr + (|p| - 1) / 16 * 16 && cs[|cs| - 1].data != []
  {
  }

  /** Cutting the address of the last piece changes what it writes. */
  lemma {:induction false} CutShifts(cs: seq<Piece>)
    requires cs != [] && cs[|cs| - 1].addr >= 0x1_0000 && cs[|cs| - 1].data != []
    ensures Writes(CutAll(cs)) != Writes(cs)
  {
    var c := cs[|cs| - 1];
    assert CutAll(cs)[|cs| - 1] == Cut(c);
    var ws, vs := Writes(cs), Writes(CutAll(cs));
    assert ws[|ws| - 1] == PieceWrites(c)[|c.data| - 1];
    assert vs != [] ==> vs[|vs| - 1] == PieceWrites(Cut(c))[|c.data| - 1];
  }

  // ----- sparse maps, as the linker prints them

  /** The keys of the map, sorted. */
  ghost predicate SortedKeys(addrs: seq<nat>, m: map<nat, Byte>) {
    (forall i, j | 0 <= i < j < |addrs| :: addrs[i] < addrs[j]) && forall a :: a in addrs <==> a in m
  }

  /** The bytes of the map, lowest address first. */
  function InOrder(m: map<nat, Byte>, addrs: seq<nat>): (ws: seq<(nat, Byte)>)
    requires forall a | a in addrs :: a in m
    ensures |ws| == |addrs|
  {
    seq(|addrs|, i requires 0 <= i < |addrs| => (addrs[i], m[addrs[i]]))
  }

  /** A record holds 1 to 16 bytes, and ends early only in front of a hole. */
  ghost predicate Tight(cs: seq<Piece>) {
    (forall c | c in cs :: 1 <= |c.data| <= 16) &&
    forall i, j | 0 <= i && j == i + 1 < |cs| :: EndsBefore(cs[i], cs[j].addr)
  }

  /** The record is full, or a hole follows it. */
  ghost predicate EndsBefore(c: Piece, next: nat) { |c.data| == 16 || c.addr + |c.data| != next }

  /** The text has one record per piece, and the pieces hold every byte of the map once, in order. */
  ghost predicate PrintOf(lines: seq<Line>, m: map<nat, Byte>, addrs: seq<nat>)
    requires SortedKeys(addrs, m)
  {
    exists cs :: Tight(cs) && Writes(cs) == InOrder(m, addrs) && lines == Print(cs)
  }

  method BytesToIntelHex(bytes: map<nat, Byte>, addrs: seq<nat>) returns (lines: seq<Line>)
    requires SortedKeys(addrs, bytes)
    ensures PrintOf(lines, bytes, addrs)
  {
    hide RecordOf, PieceWrites, Tight, InOrder;
    var i := 0;
    lines := [];
    ghost var cs: seq<Piece> := [];
    ghost var all := InOrder(bytes, addrs);
    NothingTight();
    while i < |addrs|
      invariant i <= |addrs| && Tight(cs) && Writes(cs) == all[..i]
      invariant |lines| == |cs| && (forall c | c in cs :: |c.data| <= 16)
      invariant forall k | 0 <= k < |cs| :: lines[k] == Rec(RecordOf(cs[k]))
      invariant cs != [] && i < |addrs| ==> EndsBefore(cs[|cs| - 1], addrs[i])
    {
      var from := i;
      var start, chunk := addrs[i], [];
      i, chunk := ReadChunk(bytes, addrs, from);
      ghost var c := Piece(start, chunk);
      lines := lines + [Rec(RecordOf(Piece(start, chunk)))];
      WritesSnoc(cs, c);
      OneMoreTight(cs, c);
      assert all[..from] + all[from..i] == all[..i];
      cs := cs + [c];
    }
    assert all[..|addrs|] == all;
    lines := lines + [EOF_RECORD];
    assert lines == Print(cs);
  }

  /** The bytes at consecutive addresses from entry `from` on, at most 16. */
  method ReadChunk(bytes: map<nat, Byte>, addrs: seq<nat>, from: nat) returns (i: nat, chunk: seq<Byte>)
    requires SortedKeys(addrs, bytes) && from < |addrs|
    ensures from < i <= |addrs| && |chunk| == i - from <= 16
    ensures PieceWrites(Piece(addrs[from], chunk)) == InOrder(bytes, addrs)[from..i]
    ensures i < |addrs| ==> EndsBefore(Piece(addrs[from], chunk), addrs[i])
  {
    hide PieceWrites;
    var start := addrs[from];
    i, chunk := from, [];
    var a := start;
    ghost var all := InOrder(bytes, addrs);
    assert PieceWrites(Piece(start, chunk)) == all[from..i];
    while i < |addrs| && addrs[i] == a && |chunk| < 16
      invariant from <= i <= |addrs| && a == start + |chunk| && |chunk| == i - from <= 16
      invariant PieceWrites(Piece(start, chunk)) == all[from..i]
      invariant i == from ==> a == addrs[i]
    {
      OneLonger(start, chunk, bytes[a]);
      assert all[from..i + 1] == all[from..i] + [(a, bytes[a])];
      chunk, i, a := chunk + [bytes[a]], i + 1, a + 1;
    }
  }

  lemma NothingTight()
    ensures Tight([]) && Writes([]) == []
  {
  }

  lemma OneMoreTight(cs: seq<Piece>, c: Piece)
    requires Tight(cs) && 1 <= |c.data| <= 16 && (cs != [] ==> EndsBefore(cs[|cs| - 1], c.addr))
    ensures Tight(cs + [c])
  {
  }

  lemma OneLonger(addr: nat, data: seq<Byte>, b: Byte)
    ensures PieceWrites(Piece(addr, data + [b])) == PieceWrites(Piece(addr, data)) + [(addr + |data|, b)]
  {
  }

  lemma WritesSnoc(cs: seq<Piece>, c: Piece)
    ensures Writes(cs + [c]) == Writes(cs) + PieceWrites(c)
  {
    assert (cs + [c])[..|cs|] == cs;
  }

  // ----- the linker's reader

  function ByteAt(b: seq<Byte>, i: nat): Option<Byte> { if 4 + i < |b| then Some(b[4 + i]) else None }

  /** Consecutive entries set from `addr` on. */
  function Put(m: map<nat, Option<Byte>>, addr: nat, vals: seq<Option<Byte>>): map<nat, Option<Byte>> {
    if vals == [] then m else Put(m, addr, vals[..|vals| - 1])[addr + |vals| - 1 := vals[|vals| - 1]]
  }

  /** A data line sets as many bytes as its length field says, even those it lacks. */
  function LineVals(b: seq<Byte>): (vals: seq<Option<Byte>>)
    requires b != []
    ensures |vals| == b[0]
  {
    seq(b[0], i requires 0 <= i < b[0] => ByteAt(b, i))
  }

  predicate IsData(line: Line) { (line.Rec? || line.Ragged?) && |line.bytes| >= 5 && line.bytes[3] == 0 }

  function WithLine(m: map<nat, Option<Byte>>, line: Line): map<nat, Option<Byte>> {
    if IsData(line) then Put(m, Address(line.bytes), LineVals(line.bytes)) else m
  }

  /** Later lines win; end records and checksums are ignored. */
  function Parsed(lines: seq<Line>): map<nat, Option<Byte>> {
    if lines == [] then map[] else WithLine(Parsed(lines[..|lines| - 1]), lines[|lines| - 1])
  }

  method ParseIntelHex(lines: seq<Line>) returns (out: map<nat, Option<Byte>>)
    ensures out == Parsed(lines)
  {
    hide Address;
    out := map[];
    for k := 0 to |lines|
      invariant out == Parsed(lines[..k])
    {
      assert lines[..k + 1][..k] == lines[..k];
      if lines[k].Blank? || lines[k].Other? { continue; }
      var buf := lines[k].bytes;
      if |buf| < 5 { continue; }
      var len, addr, kind := buf[0], Address(buf), buf[3];
      if kind != 0 { continue; }
      ghost var before, vals := out, LineVals(buf);
      for i: nat := 0 to len
        invariant out == Put(before, addr, vals[..i])
      {
        assert vals[..i + 1][..i] == vals[..i];
        out := out[addr + i := ByteAt(buf, i)];
      }
      assert vals[..len] == vals;
    }
    assert lines[..|lines|] == lines;
  }

  // ----- the round trip

  function MapOf(ws: seq<(nat, Byte)>): map<nat, Option<Byte>> {
    if ws == [] then map[] else MapOf(ws[..|ws| - 1])[ws[|ws| - 1].0 := Some(ws[|ws| - 1].1)]
  }

  function Somes(data: seq<Byte>): (vals: seq<Option<Byte>>)
    ensures |vals| == |data|
  {
    seq(|data|, i requires 0 <= i < |data| => Some(data[i]))
  }

  lemma {:induction false} PieceMap(ws: seq<(nat, Byte)>, c: Piece, n: nat)
    requires n <= |c.data|
    ensures MapOf(ws + PieceWrites(c)[..n]) == Put(MapOf(ws), c.addr, Somes(c.data)[..n])
  {
    var all, vals := ws + PieceWrites(c)[..n], Somes(c.data)[..n];
    if n == 0 {
      assert all == ws;
    } else {
      var before := ws + PieceWrites(c)[..n - 1];
      assert all[..|all| - 1] == before && all[|all| - 1] == (c.addr + n - 1, c.data[n - 1]);
      assert vals[..n - 1] == Somes(c.data)[..n - 1];
      PieceMap(ws, c, n - 1);
    }
  }

  /** Reading a record back sets what its piece, with the address cut, writes. */
  lemma RecordMap(ws: seq<(nat, Byte)>, c: Piece)
    requires |c.data| < 256
    ensures WithLine(MapOf(ws), Rec(RecordOf(c))) == MapOf(ws + PieceWrites(Cut(c)))
  {
    hide RecordOf, Address, Payload, Put, MapOf, PieceWrites;
    RecordReads(c);
    var n := |c.data|;
    assert LineVals(RecordOf(c)) == Somes(c.data);
    PieceMap(ws, Cut(c), n);
    assert PieceWrites(Cut(c))[..n] == PieceWrites(Cut(c)) && Somes(c.data)[..n] == Somes(c.data);
  }

  lemma {:induction false} ParsedPieces(cs: seq<Piece>, k: nat)
    requires (forall c | c in cs :: |c.data| < 256) && k <= |cs|
    ensures Parsed(Print(cs)[..k]) == MapOf(Writes(CutAll(cs)[..k]))
  {
    hide RecordOf, WithLine, PieceWrites, Cut;
    if k > 0 {
      var lines, ds := Print(cs)[..k], CutAll(cs)[..k];
      assert lines[..k - 1] == Print(cs)[..k - 1] && ds[..k - 1] == CutAll(cs)[..k - 1];
      assert lines[k - 1] == Rec(RecordOf(cs[k - 1])) && ds[k - 1] == Cut(cs[k - 1]);
      ParsedPieces(cs, k - 1);
      RecordMap(Writes(ds[..k - 1]), cs[k - 1]);
    }
  }

  lemma ParsedPrint(cs: seq<Piece>)
    requires forall c | c in cs :: |c.data| < 256
    ensures Parsed(Print(cs)) == MapOf(Writes(CutAll(cs)))
  {
    hide MapOf, Writes, RecordOf;
    ParsedPieces(cs, |cs|);
    assert CutAll(cs)[..|cs|] == CutAll(cs);
    assert Print(cs)[|cs|] == EOF_RECORD;
  }

  /** The map with every value present. */
  function Present(m: map<nat, Byte>): map<nat, Option<Byte>> { map a | a in m :: Some(m[a]) }

  lemma {:induction false} InOrderMap(m: map<nat, Byte>, addrs: seq<nat>, k: nat)
    requires (forall a | a in addrs :: a in m) && k <= |addrs|
    ensures MapOf(InOrder(m, addrs)[..k]) == map a | a in addrs[..k] :: Some(m[a])
  {
    if k > 0 {
      var ws := InOrder(m, addrs)[..k];
      assert ws[..k - 1] == InOrder(m, addrs)[..k - 1];
      InOrderMap(m, addrs, k - 1);
      assert addrs[..k] == addrs[..k - 1] + [addrs[k - 1]];
    }
  }

  lemma PieceLowers(c: Piece)
    ensures |PieceWrites(Cut(c))| == |c.data|
    ensures forall i | 0 <= i < |c.data| :: PieceWrites(Cut(c))[i].0 <= PieceWrites(c)[i].0
    ensures c.data != [] && c.addr >= 0x1_0000 ==>
        PieceWrites(Cut(c))[|c.data| - 1].0 < PieceWrites(c)[|c.data| - 1].0
  {
  }

  /** Cutting addresses only lowers them, strictly where they do not fit. */
  lemma {:induction false} CutLowers(cs: seq<Piece>)
    ensures |Writes(CutAll(cs))| == |Writes(cs)|
    ensures forall i | 0 <= i < |Writes(cs)| :: Writes(CutAll(cs))[i].0 <= Writes(cs)[i].0
    ensures cs != [] && cs[|cs| - 1].data != [] && cs[|cs| - 1].addr >= 0x1_0000 ==>
        Writes(CutAll(cs))[|Writes(cs)| - 1].0 < Writes(cs)[|Writes(cs)| - 1].0
  {
    hide PieceWrites, Cut;
    if cs != [] {
      var c, init := cs[|cs| - 1], cs[..|cs| - 1];
      CutLowers(init);
      assert CutAll(cs)[..|cs| - 1] == CutAll(init) && CutAll(cs)[|cs| - 1] == Cut(c);
      assert Writes(CutAll(cs)) == Writes(CutAll(init)) + PieceWrites(Cut(c));
      PieceLowers(c);
    }
  }

  lemma {:induction false} MapOfKeys(ws: seq<(nat, Byte)>, top: nat)
    requires forall i | 0 <= i < |ws| :: ws[i].0 < top
    ensures forall a | a in MapOf(ws) :: a < top
  {
    if ws != [] {
      MapOfKeys(ws[..|ws| - 1], top);
    }
  }

  /** Starts grow along the records. */
  lemma {:induction false} StartsGrow(cs: seq<Piece>, k: nat)
    requires Tight(cs) && k < |cs| && forall i, j | 0 <= i < j < |Writes(cs)| :: Writes(cs)[i].0 < Writes(cs)[j].0
    ensures cs[k].addr <= cs[|cs| - 1].addr
    decreases |cs|
  {
    var n := |cs| - 1;
    assert cs[n] in cs;
    if k < n {
      var init := cs[..n];
      assert init[n - 1] in cs;
      var ws, m := Writes(init), |Writes(init)|;
      assert Writes(cs) == ws + PieceWrites(cs[n]);
      assert Writes(cs)[m] == PieceWrites(cs[n])[0] && PieceWrites(cs[n])[0].0 == cs[n].addr;
      assert Writes(cs)[m - 1] == ws[m - 1] == PieceWrites(init[n - 1])[|init[n - 1].data| - 1];
      forall i, j | 0 <= i < j < |ws| ensures ws[i].0 < ws[j].0 {
        assert Writes(cs)[i].0 < Writes(cs)[j].0;
      }
      StartsGrow(init, k);
    }
  }

  /** Parsing what was printed gives the map back exactly when every record starts below 64K, as it does
      when every key does. */
  lemma SparseRoundTrip(m: map<nat, Byte>, addrs: seq<nat>, cs: seq<Piece>)
    requires SortedKeys(addrs, m) && Tight(cs) && Writes(cs) == InOrder(m, addrs)
    ensures Parsed(Print(cs)) == Present(m) <==> forall c | c in cs :: c.addr < 0x1_0000
    ensures (forall a | a in m :: a < 0x1_0000) ==> Parsed(Print(cs)) == Present(m)
  {
    hide Writes, Parsed, Print, MapOf, PieceWrites;
    ParsedPrint(cs);
    if forall c | c in cs :: c.addr < 0x1_0000 {
      assert CutAll(cs) == cs;
      InOrderMap(m, addrs, |addrs|);
      assert addrs[..|addrs|] == addrs && InOrder(m, addrs)[..|addrs|] == InOrder(m, addrs);
    } else {
      TooHigh(m, addrs, cs);
    }
    if forall a | a in m :: a < 0x1_0000 {
      forall c | c in cs ensures c.addr < 0x1_0000 {
        StartIsKey(m, addrs, cs, c);
      }
    }
  }

  /** Every record starts at a key. */
  lemma StartIsKey(m: map<nat, Byte>, addrs: seq<nat>, cs: seq<Piece>, c: Piece)
    requires SortedKeys(addrs, m) && Tight(cs) && Writes(cs) == InOrder(m, addrs) && c in cs
    ensures c.addr in m
  {
    var k: nat :| k < |cs| && cs[k] == c;
    WritesPrefix(cs, k);
    var n := |Writes(cs[..k])|;
    assert Writes(cs[..k + 1])[n] == PieceWrites(c)[0] && PieceWrites(c)[0].0 == c.addr;
    assert Writes(cs)[n] == Writes(cs[..k + 1])[n];
    assert addrs[n] == c.addr;
  }

  /** If a record starts too high, the highest key is not among those parsed. */
  lemma TooHigh(m: map<nat, Byte>, addrs: seq<nat>, cs: seq<Piece>)
    requires SortedKeys(addrs, m) && Tight(cs) && Writes(cs) == InOrder(m, addrs)
    requires exists c :: c in cs && c.addr >= 0x1_0000
    ensures MapOf(Writes(CutAll(cs))) != Present(m)
  {
    hide Writes, PieceWrites, MapOf;
    var ws, vs := Writes(cs), Writes(CutAll(cs));
    var k: nat :| k < |cs| && cs[k].addr >= 0x1_0000;
    StartsGrow(cs, k);
    CutLowers(cs);
    assert cs[|cs| - 1] in cs;
    StartIsKey(m, addrs, cs, cs[|cs| - 1]);
    var top := addrs[|addrs| - 1];
    forall i | 0 <= i < |vs| ensures vs[i].0 < top {
      assert vs[i].0 <= ws[i].0 == addrs[i];
    }
    MapOfKeys(vs, top);
    assert top in addrs;
    assert top in Present(m);
  }

  /** What the linker prints, the emulator loads byte for byte, under the same condition. */
  lemma LinkedTextLoads(m: map<nat, Byte>, addrs: seq<nat>, cs: seq<Piece>)
    requires SortedKeys(addrs, m) && Tight(cs) && Writes(cs) == InOrder(m, addrs)
    ensures Walk(Print(cs), 0).ok
    ensures (forall c | c in cs :: c.addr < 0x1_0000) ==> Writes(Walk(Print(cs), 0).pieces) == InOrder(m, addrs)
  {
    hide Walk, Print, Writes;
    PrintedWalks(cs);
    if forall c | c in cs :: c.addr < 0x1_0000 {
      assert CutAll(cs) == cs;
    }
  }

  /** From the printer to both readers: a map with keys below 64K comes back from the parser, and is what
      the loader writes. */
  lemma PrintedMapReads(lines: seq<Line>, m: map<nat, Byte>, addrs: seq<nat>)
    requires SortedKeys(addrs, m) && PrintOf(lines, m, addrs) && forall a | a in m :: a < 0x1_0000
    ensures Parsed(lines) == Present(m)
    ensures Walk(lines, 0).ok && Writes(Walk(lines, 0).pieces) == InOrder(m, addrs)
  {
    hide Parsed, Walk, Print, Writes, InOrder, Present;
    var cs: seq<Piece> :| Tight(cs) && Writes(cs) == InOrder(m, addrs) && lines == Print(cs);
    SparseRoundTrip(m, addrs, cs);
    LinkedTextLoads(m, addrs, cs);
    forall c | c in cs ensures c.addr < 0x1_0000 {
      StartIsKey(m, addrs, cs, c);
    }
  }
}
