/** The debug connection: requests arrive as a byte stream cut up anywhere, and are answered one by one. */
module DebugStream {
  import opened Results
  import opened Bytes

  const CMD_SET: Byte := 0x80
  const CMD_CLEAR: Byte := 0x81
  const CMD_READ: Byte := 0x83
  const CMD_WRITE: Byte := 0x84
  const SET_LEN: nat := 10
  const CLEAR_LEN: nat := 2
  const READ_LEN: nat := 9
  const WRITE_HEADER: nat := 9
  const MAX_BYTES: nat := 65536
  const REPLY_NG: seq<Byte> := [0x01]

  // ----- frame lengths

  /** The number of data bytes a write header announces. */
  function Announced(buf: seq<Byte>): nat
    requires |buf| >= WRITE_HEADER
  {
    FromBe32(buf[5..9])
  }

  function FrameLength(cmd: Byte): (n: nat)
    ensures n >= 1
  {
    if cmd == CMD_SET then SET_LEN
    else if cmd == CMD_CLEAR then CLEAR_LEN
    else if cmd == CMD_READ then READ_LEN
    else if cmd == CMD_WRITE then WRITE_HEADER
    else 1
  }

  /** The length of the next frame, once the bytes at hand tell it. */
  function NeededBytes(buf: seq<Byte>): (need: Option<nat>)
    ensures need.Some? ==> need.value >= 1
  {
    if |buf| < 1 then None
    else if buf[0] == CMD_WRITE then
      if |buf| < WRITE_HEADER then None
      else if Announced(buf) > MAX_BYTES then Some(WRITE_HEADER)
      else Some(WRITE_HEADER + Announced(buf))
    else Some(FrameLength(buf[0]))
  }

  /** Which frames there are: 10, 2 and 9 bytes behind 80h, 81h and 83h; behind 84h 9 bytes and as many data as the
      count says, if that is at most 65536; any other byte is a frame of its own. */
  lemma FramesByCommand(buf: seq<Byte>)
    requires buf != []
    ensures var need := NeededBytes(buf);
      (buf[0] == 0x80 ==> need == Some(10)) && (buf[0] == 0x81 ==> need == Some(2)) &&
      (buf[0] == 0x83 ==> need == Some(9)) &&
      (buf[0] == 0x84 ==>
        if |buf| < 9 then need == None
        else need == Some(9 + if FromBe32(buf[5..9]) > 65536 then 0 else FromBe32(buf[5..9]))) &&
      (buf[0] !in {0x80, 0x81, 0x83, 0x84} ==> need == Some(1))
  {
  }

  predicate HasFrame(buf: seq<Byte>) {
    NeededBytes(buf).Some? && NeededBytes(buf).value <= |buf|
  }

  /** Bytes that arrive later never change the length of a frame that is complete. */
  lemma NeedIsStable(buf: seq<Byte>, more: seq<Byte>)
    requires HasFrame(buf)
    ensures HasFrame(buf + more) && NeededBytes(buf + more) == NeededBytes(buf)
  {
    if buf[0] == CMD_WRITE {
      assert (buf + more)[5..9] == buf[5..9];
    }
  }

  // ----- the stream as a whole

  /** Cutting a stream into frames from the front, as long as a complete one is there. */
  function Deframe(s: seq<Byte>): (r: (seq<seq<Byte>>, seq<Byte>))
    ensures !HasFrame(r.1)
    decreases |s|
  {
    if !HasFrame(s) then ([], s) else
    var n := NeededBytes(s).value;
    var (frames, rest) := Deframe(s[n..]);
    ([s[..n]] + frames, rest)
  }

  function Concat(frames: seq<seq<Byte>>): seq<Byte> {
    if frames == [] then [] else frames[0] + Concat(frames[1..])
  }

  /** Deframing loses, doubles and reorders nothing. */
  lemma {:induction false} DeframeKeepsBytes(s: seq<Byte>)
    ensures Concat(Deframe(s).0) + Deframe(s).1 == s
    decreases |s|
  {
    if HasFrame(s) {
      var n := NeededBytes(s).value;
      DeframeKeepsBytes(s[n..]);
      assert Deframe(s).0[1..] == Deframe(s[n..]).0;
      assert s == s[..n] + s[n..];
    }
  }

  /** A stream can be deframed piece by piece, carrying over what is left. */
  lemma {:induction false} DeframeMore(s: seq<Byte>, more: seq<Byte>)
    ensures Deframe(s + more).0 == Deframe(s).0 + Deframe(Deframe(s).1 + more).0
    ensures Deframe(s + more).1 == Deframe(Deframe(s).1 + more).1
    decreases |s|
  {
    if HasFrame(s) {
      var n := NeededBytes(s).value;
      NeedIsStable(s, more);
      assert (s + more)[..n] == s[..n] && (s + more)[n..] == s[n..] + more;
      DeframeMore(s[n..], more);
    }
  }

  // ----- the connection

  /** `frames` and `replies` are everything handed to the dispatcher and written back so far. */
  datatype Conn = Conn(buf: seq<Byte>, busy: bool, frames: seq<seq<Byte>>, replies: seq<seq<Byte>>)

  const OPENED: Conn := Conn([], false, [], [])

  /** A frame goes to the dispatcher if none is there already and the next one is complete. */
  function Pumped(c: Conn): (d: Conn)
    ensures d.replies == c.replies
  {
    if c.busy || !HasFrame(c.buf) then c
    else
      var n := NeededBytes(c.buf).value;
      Conn(c.buf[n..], true, c.frames + [c.buf[..n]], c.replies)
  }

  /** Something arrives, or the dispatcher is done: with a reply, or with an exception. */
  datatype Event = Data(chunk: seq<Byte>) | Done(result: Result<seq<Byte>>)

  function ReplyOf(result: Result<seq<Byte>>): seq<Byte> {
    if result.Ok? then result.value else REPLY_NG
  }

  /** A dispatch that fails is answered by the single byte 01h, any other by its own reply. */
  lemma Replied(result: Result<seq<Byte>>)
    ensures ReplyOf(result) == match result case Ok(reply) => reply case Err(_) => [0x01]
  {
  }

  /** The dispatcher can only finish what it was given. */
  predicate Possible(c: Conn, e: Event) { e.Done? ==> c.busy }

  function Next(c: Conn, e: Event): Conn
    requires Possible(c, e)
  {
    if e.Data? then Pumped(c.(buf := c.buf + e.chunk))
    else Pumped(c.(busy := false, replies := c.replies + [ReplyOf(e.result)]))
  }

  ghost predicate Follows(c: Conn, e: Event, d: Conn) { Possible(c, e) && d == Next(c, e) }

  ghost predicate Run(events: seq<Event>, states: seq<Conn>) {
    |states| == |events| + 1 && states[0] == OPENED &&
    forall i, j | 0 <= i && j == i + 1 < |states| :: Follows(states[i], events[i], states[j])
  }

  function Received(events: seq<Event>): seq<Byte> {
    if events == [] then []
    else Received(events[..|events| - 1]) + (if events[|events| - 1].Data? then events[|events| - 1].chunk else [])
  }

  function Answers(events: seq<Event>): seq<seq<Byte>> {
    if events == [] then []
    else
      var e := events[|events| - 1];
      Answers(events[..|events| - 1]) + if e.Done? then [ReplyOf(e.result)] else []
  }

  /** What holds between events: the frames dispatched are the first of the greedy deframing of all that
      was received, at most one is unanswered, and an idle connection holds no complete frame. */
  ghost predicate Inv(c: Conn, received: seq<Byte>) {
    Deframe(received).0 == c.frames + Deframe(c.buf).0 && Deframe(received).1 == Deframe(c.buf).1 &&
    Concat(c.frames) + c.buf == received &&
    |c.frames| == |c.replies| + (if c.busy then 1 else 0) &&
    (!c.busy ==> !HasFrame(c.buf))
  }

  lemma {:induction false} ConcatSnoc(frames: seq<seq<Byte>>, f: seq<Byte>)
    ensures Concat(frames + [f]) == Concat(frames) + f
  {
    if frames == [] {
      assert [f][1..] == [] && frames + [f] == [f];
    } else {
      ConcatSnoc(frames[1..], f);
      assert (frames + [f])[1..] == frames[1..] + [f];
    }
  }

  lemma PumpKeeps(c: Conn, received: seq<Byte>)
    requires Deframe(received).0 == c.frames + Deframe(c.buf).0 && Deframe(received).1 == Deframe(c.buf).1
    requires Concat(c.frames) + c.buf == received
    requires |c.frames| == |c.replies| + (if c.busy then 1 else 0)
    ensures Inv(Pumped(c), received)
  {
    hide NeededBytes;
    if !c.busy && HasFrame(c.buf) {
      var n := NeededBytes(c.buf).value;
      ConcatSnoc(c.frames, c.buf[..n]);
      assert c.buf == c.buf[..n] + c.buf[n..];
      assert c.frames + [c.buf[..n]] + Deframe(c.buf[n..]).0 == c.frames + Deframe(c.buf).0;
    }
  }

  lemma NextKeeps(c: Conn, e: Event, received: seq<Byte>)
    requires Inv(c, received) && Possible(c, e)
    ensures Inv(Next(c, e), if e.Data? then received + e.chunk else received)
  {
    hide HasFrame, Deframe, Concat, Pumped;
    if e.Data? {
      DeframeMore(received, e.chunk);
      DeframeMore(c.buf, e.chunk);
      assert Concat(c.frames) + (c.buf + e.chunk) == received + e.chunk;
      PumpKeeps(c.(buf := c.buf + e.chunk), received + e.chunk);
    } else {
      PumpKeeps(c.(busy := false, replies := c.replies + [ReplyOf(e.result)]), received);
    }
  }

  /** However the stream is cut up and whenever the dispatcher finishes, the invariant holds, and the
      replies are the dispatcher's answers in order. */
  lemma {:induction false} RunKeeps(events: seq<Event>, states: seq<Conn>)
    requires Run(events, states)
    ensures Inv(states[|events|], Received(events)) && states[|events|].replies == Answers(events)
    decreases |events|
  {
    hide Inv, Pumped, Deframe, HasFrame;
    if events == [] {
      OpenedKeeps();
    } else {
      var k := |events| - 1;
      forall i, j | 0 <= i && j == i + 1 < k + 1 ensures Follows(states[i], events[i], states[j]) {
      }
      RunKeeps(events[..k], states[..k + 1]);
      assert Follows(states[k], events[k], states[k + 1]);
      NextKeeps(states[k], events[k], Received(events[..k]));
      if events[k].Done? {
        assert Received(events) == Received(events[..k]);
      }
    }
  }

  lemma OpenedKeeps()
    ensures Inv(OPENED, [])
  {
  }

  /** Two runs that received the same bytes, and are idle, dispatched the same frames. */
  lemma CutsDoNotMatter(xs: seq<Event>, s: seq<Conn>, ys: seq<Event>, t: seq<Conn>)
    requires Run(xs, s) && Run(ys, t) && Received(xs) == Received(ys)
    requires !s[|xs|].busy && !t[|ys|].busy
    ensures s[|xs|].frames == t[|ys|].frames == Deframe(Received(xs)).0 && s[|xs|].buf == t[|ys|].buf
  {
    hide Inv, Deframe;
    RunKeeps(xs, s);
    RunKeeps(ys, t);
    IdleHas(s[|xs|], Received(xs));
    IdleHas(t[|ys|], Received(ys));
  }

  lemma IdleHas(c: Conn, received: seq<Byte>)
    requires Inv(c, received) && !c.busy
    ensures c.frames == Deframe(received).0 && c.buf == Deframe(received).1
  {
    hide HasFrame;
  }

  // ----- requests

  /** What the front end asks for; the numbers are what fits the fields of a frame. */
  datatype Request =
    | SetBreak(slot: Byte, flags: Byte, hits: Byte, addr: nat, data: nat)
    | ClearBreak(slot: Byte)
    | ReadMem(addr: nat, count: nat)
    | WriteMem(addr: nat, bytes: seq<Byte>)

  predicate Representable(r: Request) {
    match r
    case SetBreak(_, _, _, addr, data) => addr < 0x1_0000_0000 && data < 0x1_0000
    case ClearBreak(_) => true
    case ReadMem(addr, count) => addr < 0x1_0000_0000 && count < 0x1_0000_0000
    case WriteMem(addr, bytes) => addr < 0x1_0000_0000 && |bytes| < 0x1_0000_0000
  }

  function Encode(r: Request): (f: seq<Byte>)
    ensures f != []
  {
    match r
    case SetBreak(slot, flags, hits, addr, data) => [CMD_SET, slot, flags, hits] + Be32(addr) + Be16(data)
    case ClearBreak(slot) => [CMD_CLEAR, slot]
    case ReadMem(addr, count) => [CMD_READ] + Be32(addr) + Be32(count)
    case WriteMem(addr, bytes) => [CMD_WRITE] + Be32(addr) + Be32(|bytes|) + bytes
  }

  /** The parsers, tried in the dispatcher's order. */
  function Parse(f: seq<Byte>): Option<Request> {
    if |f| >= SET_LEN && f[0] == CMD_SET then
      Some(SetBreak(f[1], f[2], f[3], FromBe32(f[4..8]), FromBe16(f[8..10])))
    else if |f| >= CLEAR_LEN && f[0] == CMD_CLEAR then Some(ClearBreak(f[1]))
    else if |f| >= READ_LEN && f[0] == CMD_READ then Some(ReadMem(FromBe32(f[1..5]), FromBe32(f[5..9])))
    else if |f| >= WRITE_HEADER && f[0] == CMD_WRITE && Announced(f) <= MAX_BYTES
            && |f| >= WRITE_HEADER + Announced(f) then
      Some(WriteMem(FromBe32(f[1..5]), f[9..9 + Announced(f)]))
    else None
  }

  /** The array that the encoder of memory writes fills position by position. */
  method EncodeWrite(addr: nat, bytes: seq<Byte>) returns (out: array<Byte>)
    requires |bytes| < 0x1_0000_0000
    ensures fresh(out) && out[..] == Encode(WriteMem(addr, bytes))
  {
    hide Be32;
    var a, n := Be32(addr), |bytes|;
    var c := Be32(n);
    out := new Byte[WRITE_HEADER + n](_ => 0);
    out[0] := CMD_WRITE;
    out[1], out[2], out[3], out[4] := a[0], a[1], a[2], a[3];
    out[5], out[6], out[7], out[8] := c[0], c[1], c[2], c[3];
    ghost var head := out[..WRITE_HEADER];
    assert head == [CMD_WRITE] + a + c;
    for i := 0 to n
      invariant out[..WRITE_HEADER] == head && out[WRITE_HEADER..WRITE_HEADER + i] == bytes[..i]
    {
      out[WRITE_HEADER + i] := bytes[i];
    }
    assert out[..] == out[..WRITE_HEADER] + out[WRITE_HEADER..WRITE_HEADER + n];
  }

  /** No write of more than 65536 bytes. */
  predicate Moderate(r: Request) { r.WriteMem? ==> |r.bytes| <= MAX_BYTES }

  lemma EncodedWrite(addr: nat, bytes: seq<Byte>, more: seq<Byte>)
    requires |bytes| < 0x1_0000_0000
    ensures var s := Encode(WriteMem(addr, bytes)) + more;
      s[0] == CMD_WRITE && s[1..5] == Be32(addr) && Announced(s) == |bytes| && s[9..9 + |bytes|] == bytes
  {
    var s := Encode(WriteMem(addr, bytes)) + more;
    Be32Back(|bytes|);
    assert s[5..9] == Be32(|bytes|);
    assert s[1..5] == Be32(addr);
    assert s[9..9 + |bytes|] == bytes;
  }

  /** In front of any other bytes a request is cut off whole, unless it is too long a write: then the
      header alone is taken for a frame and the data for further requests. */
  lemma RequestIsFrame(r: Request, more: seq<Byte>)
    requires Representable(r)
    ensures NeededBytes(Encode(r) + more) == Some(|Encode(r)|) <==> Moderate(r)
    ensures !Moderate(r) ==> NeededBytes(Encode(r) + more) == Some(WRITE_HEADER)
  {
    if r.WriteMem? {
      EncodedWrite(r.addr, r.bytes, more);
    }
  }

  /** A stream that starts with too long a write: its header is one frame, and the data are deframed as if
      they were requests. */
  lemma OversizedReadAsRequests(r: Request, more: seq<Byte>)
    requires Representable(r) && !Moderate(r)
    ensures Deframe(Encode(r) + more) ==
      ([Encode(r)[..WRITE_HEADER]] + Deframe(r.bytes + more).0, Deframe(r.bytes + more).1)
  {
    hide Deframe, NeededBytes;
    RequestIsFrame(r, more);
    var s := Encode(r) + more;
    assert s[..WRITE_HEADER] == Encode(r)[..WRITE_HEADER] && s[WRITE_HEADER..] == r.bytes + more;
    FirstFrame(s, WRITE_HEADER);
  }

  lemma FirstFrame(s: seq<Byte>, n: nat)
    requires NeededBytes(s) == Some(n) && n <= |s|
    ensures Deframe(s) == ([s[..n]] + Deframe(s[n..]).0, Deframe(s[n..]).1)
  {
  }

  /** What was encoded is parsed back; too long a write is not, whether whole or cut to its header. */
  lemma ParseEncoded(r: Request)
    requires Representable(r)
    ensures Moderate(r) ==> Parse(Encode(r)) == Some(r)
    ensures !Moderate(r) ==> Parse(Encode(r)) == None && Parse(Encode(r)[..WRITE_HEADER]) == None
  {
    hide Be32, FromBe32, Be16, FromBe16;
    var f := Encode(r);
    match r
    case SetBreak(_, _, _, addr, data) =>
      assert f[4..8] == Be32(addr) && f[8..10] == Be16(data);
      Be32Back(addr);
      Be16Back(data);
    case ClearBreak(_) =>
    case ReadMem(addr, count) =>
      assert f[1..5] == Be32(addr) && f[5..9] == Be32(count);
      Be32Back(addr);
      Be32Back(count);
    case WriteMem(addr, bytes) =>
      EncodedWrite(addr, bytes, []);
      assert f + [] == f;
      Be32Back(addr);
      assert f[..9][5..9] == f[5..9];
  }

  /** A frame cut from the stream that parses is the encoding of what it parses to. */
  lemma EncodeParsed(f: seq<Byte>)
    requires NeededBytes(f) == Some(|f|) && Parse(f).Some?
    ensures Representable(Parse(f).value) && Moderate(Parse(f).value) && Encode(Parse(f).value) == f
  {
    hide Be32, FromBe32, Be16, FromBe16;
    if f[0] == CMD_SET {
      FromBe32Back(f[4..8]);
      FromBe16Back(f[8..10]);
      assert f == f[..4] + f[4..8] + f[8..10];
    } else if f[0] == CMD_READ {
      FromBe32Back(f[1..5]);
      FromBe32Back(f[5..9]);
      assert f == f[..1] + f[1..5] + f[5..9];
    } else if f[0] == CMD_WRITE {
      FromBe32Back(f[1..5]);
      FromBe32Back(f[5..9]);
      assert f == f[..1] + f[1..5] + f[5..9] + f[9..];
      assert f[9..9 + Announced(f)] == f[9..];
    }
  }

  function EncodeAll(rs: seq<Request>): seq<seq<Byte>> {
    seq(|rs|, i requires 0 <= i < |rs| => Encode(rs[i]))
  }

  /** Requests sent back to back, none of them too long a write, are dispatched one frame each. */
  lemma {:induction false} RequestsDeframe(rs: seq<Request>)
    requires forall r | r in rs :: Representable(r) && Moderate(r)
    ensures Deframe(Concat(EncodeAll(rs))) == (EncodeAll(rs), [])
  {
    hide Encode, Representable, NeededBytes;
    if rs != [] {
      var more := Concat(EncodeAll(rs[1..]));
      assert EncodeAll(rs)[1..] == EncodeAll(rs[1..]);
      RequestIsFrame(rs[0], more);
      var s := Encode(rs[0]) + more;
      assert s[..|Encode(rs[0])|] == Encode(rs[0]) && s[|Encode(rs[0])|..] == more;
      RequestsDeframe(rs[1..]);
      assert EncodeAll(rs) == [Encode(rs[0])] + EncodeAll(rs[1..]);
    }
  }

  class Connection {
    var buf: seq<Byte>
    var busy: bool
    var frames: seq<seq<Byte>>
    var replies: seq<seq<Byte>>

    ghost function Now(): Conn
      reads this
    {
      Conn(buf, busy, frames, replies)
    }

    constructor ()
      ensures Now() == OPENED
    {
      buf, busy, frames, replies := [], false, [], [];
    }

    method Pump()
      modifies this
      ensures Now() == Pumped(old(Now()))
    {
      if busy { return; }
      if |buf| < 1 { return; }
      var need := NeededBytes(buf);
      if need == None || |buf| < need.value { return; }
      var frame := buf[..need.value];
      buf := buf[need.value..];
      busy := true;
      frames := frames + [frame];
    }

    method OnData(chunk: seq<Byte>, ghost received: seq<Byte>)
      requires Inv(Now(), received)
      modifies this
      ensures Now() == Next(old(Now()), Data(chunk)) && Inv(Now(), received + chunk)
    {
      hide Inv, Pumped;
      NextKeeps(Now(), Data(chunk), received);
      buf := buf + chunk;
      Pump();
    }

    method OnDone(result: Result<seq<Byte>>, ghost received: seq<Byte>)
      requires Inv(Now(), received) && busy
      modifies this
      ensures Now() == Next(old(Now()), Done(result)) && Inv(Now(), received)
    {
      hide Inv, Pumped;
      NextKeeps(Now(), Done(result), received);
      replies := replies + [ReplyOf(result)];
      busy := false;
      Pump();
    }
  }
}
