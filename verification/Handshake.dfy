/** The DENA/DACK handshake: a sender and a receiver on one set of wires, two bytes a cycle.  Each lock
    scope of the source is one atomic step; the two roles interleave freely. */
module Handshake {
  import opened Bytes

  /** Where the sender stands: before a unit, waiting for DACK, about to drop DENA, waiting for release. */
  datatype SenderPc = SNext | SWaitAck | SDrop | SWaitRelease | SDone

  datatype ReceiverPc = RNext | RWaitUp | RRead0 | RAck | RWaitDown | RRead1 | RRelease | RStore | RDone

  /** The wires and the locals of both roles.  `units` counts the cycles the receiver has released. */
  datatype State = State(
    data: Byte, dena: bool, dack: bool,
    spc: SenderPc, si: nat,
    rpc: ReceiverPc, b0: Byte, b1: Byte, got: seq<Byte>, units: nat)

  /** What is sent, and whether the receiver, holding some bytes, asks for one more. */
  datatype Session = Session(payload: seq<Byte>, more: seq<Byte> -> bool)

  const IDLE: State := State(0, false, false, SNext, 0, RNext, 0, 0, [], 0)

  // ----- the steps

  function SecondByte(p: seq<Byte>, i: nat): Byte { if i + 1 < |p| then p[i + 1] else 0 }

  predicate SenderEnabled(s: State) {
    match s.spc
    case SWaitAck => s.dack
    case SWaitRelease => !s.dack
    case SDone => false
    case _ => true
  }

  function SenderStep(x: Session, s: State): State {
    match s.spc
    case SNext =>
      if s.si < |x.payload| then s.(data := x.payload[s.si], dena := true, spc := SWaitAck) else s.(spc := SDone)
    case SWaitAck => s.(spc := SDrop)
    case SDrop => s.(data := SecondByte(x.payload, s.si), dena := false, spc := SWaitRelease)
    case SWaitRelease => s.(si := s.si + 2, spc := SNext)
    case SDone => s
  }

  predicate ReceiverEnabled(s: State) {
    match s.rpc
    case RWaitUp => s.dena
    case RWaitDown => !s.dena
    case RDone => false
    case _ => true
  }

  /** The bytes a receiver keeps of one unit: the second only if it still asks for one. */
  function Kept(x: Session, got: seq<Byte>, b0: Byte, b1: Byte): seq<Byte> {
    if x.more(got + [b0]) then got + [b0, b1] else got + [b0]
  }

  function ReceiverStep(x: Session, s: State): State {
    match s.rpc
    case RNext => s.(rpc := if x.more(s.got) then RWaitUp else RDone)
    case RWaitUp => s.(rpc := RRead0)
    case RRead0 => s.(b0 := s.data, rpc := RAck)
    case RAck => s.(dack := true, rpc := RWaitDown)
    case RWaitDown => s.(rpc := RRead1)
    case RRead1 => s.(b1 := s.data, rpc := RRelease)
    case RRelease => s.(dack := false, units := s.units + 1, rpc := RStore)
    case RStore => s.(got := Kept(x, s.got, s.b0, s.b1), rpc := RNext)
    case RDone => s
  }

  ghost predicate Next(x: Session, s: State, t: State) {
    (SenderEnabled(s) && t == SenderStep(x, s)) || (ReceiverEnabled(s) && t == ReceiverStep(x, s))
  }

  // ----- what should arrive

  /** The bytes on the wire: an odd payload is padded with a zero. */
  function Padded(p: seq<Byte>): seq<Byte> { if |p| % 2 == 0 then p else p + [0] }

  function UnitsOf(p: seq<Byte>): nat { (|p| + 1) / 2 }

  /** What a receiver holds after `k` units. */
  function Taken(x: Session, k: nat): seq<Byte>
    requires k <= UnitsOf(x.payload)
  {
    if k == 0 then []
    else
      var p := Padded(x.payload);
      Kept(x, Taken(x, k - 1), p[2 * (k - 1)], p[2 * (k - 1) + 1])
  }

  /** The receiver asked for each of the first `k` units. */
  ghost predicate Asked(x: Session, k: nat)
    requires k <= UnitsOf(x.payload)
  {
    forall j | 0 <= j < k :: x.more(Taken(x, j))
  }

  ghost predicate Cycling(rpc: ReceiverPc) { rpc.RWaitDown? || rpc.RRead1? || rpc.RRelease? }

  /** The wires follow the roles, and the roles keep in step. */
  ghost predicate InStep(s: State) {
    (s.dena <==> s.spc.SWaitAck? || s.spc.SDrop?) &&
    (s.dack <==> Cycling(s.rpc)) &&
    (s.rpc.RRead0? || s.rpc.RAck? ==> s.spc.SWaitAck?) &&
    (s.spc.SDrop? ==> s.rpc.RWaitDown?) &&
    (s.rpc.RRead1? || s.rpc.RRelease? ==> s.spc.SWaitRelease?) &&
    (Cycling(s.rpc) ==> s.spc.SWaitAck? || s.spc.SDrop? || s.spc.SWaitRelease?)
  }

  /** The unit in progress is the same for both, and its bytes are where they should be. */
  ghost predicate InPlace(x: Session, s: State) {
    var p := Padded(x.payload);
    var n := UnitsOf(x.payload);
    s.si % 2 == 0 && s.si <= 2 * n &&
    s.units == s.si / 2 + (if s.spc.SWaitRelease? && !Cycling(s.rpc) then 1 else 0) && s.units <= n &&
    (s.spc.SWaitAck? || s.spc.SDrop? || s.spc.SWaitRelease? ==> s.si < |x.payload|) &&
    (s.spc.SDone? ==> s.si >= |x.payload|) &&
    (s.spc.SWaitAck? || s.spc.SDrop? ==> s.data == p[s.si]) &&
    (s.spc.SWaitRelease? ==> s.data == p[s.si + 1]) &&
    (s.rpc.RAck? || Cycling(s.rpc) ==> s.units < n && s.b0 == p[2 * s.units]) &&
    (s.rpc.RRelease? ==> s.b1 == p[2 * s.units + 1]) &&
    (s.rpc.RStore? ==> s.units > 0 && s.b0 == p[2 * s.units - 2] && s.b1 == p[2 * s.units - 1])
  }

  /** The receiver holds what the finished units carried, and asked for every unit it took. */
  ghost predicate InHand(x: Session, s: State) {
    s.units <= UnitsOf(x.payload) &&
    (s.rpc.RStore? ==> s.units > 0) &&
    s.got == Taken(x, if s.rpc.RStore? then s.units - 1 else s.units) &&
    Asked(x, s.units) &&
    (s.rpc.RDone? ==> !x.more(s.got)) &&
    (!s.rpc.RDone? && !s.rpc.RNext? && !s.rpc.RStore? ==> x.more(s.got))
  }

  ghost predicate Inv(x: Session, s: State) { InStep(s) && InPlace(x, s) && InHand(x, s) }

  lemma IdleHolds(x: Session)
    ensures Inv(x, IDLE)
  {
  }

  lemma SenderKeeps(x: Session, s: State)
    requires Inv(x, s) && SenderEnabled(s)
    ensures Inv(x, SenderStep(x, s))
  {
    hide Taken, Asked, Kept;
  }

  lemma ReceiverKeeps(x: Session, s: State)
    requires Inv(x, s) && ReceiverEnabled(s)
    ensures Inv(x, ReceiverStep(x, s))
  {
    hide Kept, Padded;
    if s.rpc.RRelease? {
      hide Taken;
      assert s.got == Taken(x, s.units);
    }
  }

  // ----- every run

  ghost predicate Run(x: Session, states: seq<State>) {
    |states| > 0 && states[0] == IDLE && forall k | 0 < k < |states| :: Next(x, states[k - 1], states[k])
  }

  lemma RunKeeps(x: Session, states: seq<State>)
    requires Run(x, states)
    ensures forall k | 0 <= k < |states| :: Inv(x, states[k])
  {
    hide Inv, SenderEnabled, SenderStep, ReceiverEnabled, ReceiverStep;
    IdleHolds(x);
    var k := 0;
    while k + 1 < |states|
      invariant k < |states| && forall j | 0 <= j <= k :: Inv(x, states[j])
    {
      assert Next(x, states[k], states[k + 1]);
      if SenderEnabled(states[k]) && states[k + 1] == SenderStep(x, states[k]) {
        SenderKeeps(x, states[k]);
      } else {
        ReceiverKeeps(x, states[k]);
      }
      k := k + 1;
    }
  }

  /** Bytes kept unit by unit are a prefix of the padded payload; only the last unit can be cut. */
  lemma {:induction false} TakenIsPrefix(x: Session, k: nat)
    requires k <= UnitsOf(x.payload) && Asked(x, k)
    ensures var t := Taken(x, k);
      t <= Padded(x.payload) && (|t| == 2 * k || (|t| == 2 * k - 1 && !x.more(t)))
    ensures forall n | 0 <= n < |Taken(x, k)| :: x.more(Padded(x.payload)[..n])
  {
    if k > 0 {
      var p := Padded(x.payload);
      assert Asked(x, k - 1);
      TakenIsPrefix(x, k - 1);
      var u := Taken(x, k - 1);
      assert |u| == 2 * (k - 1);
      assert p[..|u|] == u && p[..|u| + 1] == u + [p[|u|]];
    }
  }

  /** Safety: whatever the interleaving, what was received is a prefix of the zero-padded payload, none
      lost, doubled or swapped; and a receiver that is done holds the shortest prefix after which it
      asks for nothing more. */
  lemma ReceivedIsPrefix(x: Session, states: seq<State>, k: nat)
    requires Run(x, states) && k < |states|
    ensures states[k].got <= Padded(x.payload)
    ensures forall n | 0 <= n < |states[k].got| :: x.more(Padded(x.payload)[..n])
    ensures states[k].rpc.RDone? ==> !x.more(states[k].got)
  {
    hide InStep, InPlace, Taken, Kept;
    RunKeeps(x, states);
    var s := states[k];
    TakenIsPrefix(x, if s.rpc.RStore? then s.units - 1 else s.units);
  }

  /** A receiver that asks for a fixed number of bytes. */
  function FixedLength(length: nat): seq<Byte> -> bool { got => |got| < length }

  /** A receiver done with the sent length holds exactly the payload. */
  lemma ExactDelivery(payload: seq<Byte>, states: seq<State>, k: nat)
    requires Run(Session(payload, FixedLength(|payload|)), states) && k < |states| && states[k].rpc.RDone?
    ensures states[k].got == payload
  {
    hide Run;
    var x := Session(payload, FixedLength(|payload|));
    ReceivedIsPrefix(x, states, k);
    var got := states[k].got;
    if |got| > 0 {
      assert x.more(Padded(payload)[..|got| - 1]);
    }
    assert got == Padded(payload)[..|payload|] == payload;
  }

  // ----- progress

  function Rank(x: Session, s: State): int {
    var n := UnitsOf(x.payload);
    var m := n - s.si / 2;
    var r := n - s.units;
    (match s.spc
     case SNext => 4 * m + 1
     case SWaitAck => 4 * m
     case SDrop => 4 * m - 1
     case SWaitRelease => 4 * m - 2
     case SDone => 0) +
    (match s.rpc
     case RNext => 8 * r + 2
     case RWaitUp => 8 * r + 1
     case RRead0 => 8 * r
     case RAck => 8 * r - 1
     case RWaitDown => 8 * r - 2
     case RRead1 => 8 * r - 3
     case RRelease => 8 * r - 4
     case RStore => 8 * r + 3
     case RDone => 0)
  }

  lemma RankFalls(x: Session, s: State, t: State)
    requires Inv(x, s) && Next(x, s, t)
    ensures 0 <= Rank(x, t) < Rank(x, s)
  {
    hide Taken, Asked, Kept, Padded;
  }

  /** Every step of a run uses up rank, so no run is longer than the rank of the idle state. */
  lemma RunsEnd(x: Session, states: seq<State>)
    requires Run(x, states)
    ensures |states| - 1 <= 12 * UnitsOf(x.payload) + 3
  {
    hide Inv, Rank, Next;
    RunKeeps(x, states);
    var k := 0;
    IdleRank(x);
    while k + 1 < |states|
      invariant k < |states| && k + Rank(x, states[k]) <= Rank(x, IDLE) && Rank(x, states[k]) >= 0
    {
      RankFalls(x, states[k], states[k + 1]);
      k := k + 1;
    }
  }

  lemma IdleRank(x: Session)
    ensures Rank(x, IDLE) == 12 * UnitsOf(x.payload) + 3
  {
  }

  ghost predicate Stuck(s: State) { !SenderEnabled(s) && !ReceiverEnabled(s) }

  ghost predicate Complete(x: Session, s: State) {
    s.spc.SDone? && s.rpc.RDone? && !s.dena && !s.dack && s.units == UnitsOf(x.payload)
  }

  /** The receiver asks for exactly as many units as are sent. */
  ghost predicate SameUnits(x: Session) {
    Asked(x, UnitsOf(x.payload)) && !x.more(Taken(x, UnitsOf(x.payload)))
  }

  /** A run that can go no further is complete, with both wires down, exactly when the receiver asks for
      as many units as are sent. */
  lemma StuckIffComplete(x: Session, states: seq<State>)
    requires Run(x, states) && Stuck(states[|states| - 1])
    ensures Complete(x, states[|states| - 1]) <==> SameUnits(x)
  {
    hide Inv, Stuck, Complete, SameUnits, Next;
    RunKeeps(x, states);
    StuckState(x, states[|states| - 1]);
  }

  lemma StuckState(x: Session, s: State)
    requires Inv(x, s) && Stuck(s)
    ensures Complete(x, s) <==> SameUnits(x)
  {
    hide Taken, Kept, Padded;
    if s.rpc.RDone? && s.units < UnitsOf(x.payload) {
      assert !x.more(Taken(x, s.units));
    }
  }

  /** With equally many units wanted and sent, no reachable state before completion has both roles
      waiting. */
  lemma NoDeadlock(x: Session, states: seq<State>)
    requires Run(x, states) && SameUnits(x) && !Complete(x, states[|states| - 1])
    ensures SenderEnabled(states[|states| - 1]) || ReceiverEnabled(states[|states| - 1])
  {
    hide SameUnits, Complete, Next;
    if Stuck(states[|states| - 1]) {
      StuckIffComplete(x, states);
    }
  }

  // ----- fair schedules

  /** One tick of a role: its step, or nothing while it waits. */
  function Tick(x: Session, s: State, sender: bool): State {
    if sender then if SenderEnabled(s) then SenderStep(x, s) else s
    else if ReceiverEnabled(s) then ReceiverStep(x, s) else s
  }

  function Played(x: Session, s: State, schedule: seq<bool>): State
    decreases |schedule|
  {
    if schedule == [] then s
    else Tick(x, Played(x, s, schedule[..|schedule| - 1]), schedule[|schedule| - 1])
  }

  lemma TickKeeps(x: Session, s: State, sender: bool)
    requires Inv(x, s)
    ensures var t := Tick(x, s, sender); Inv(x, t) && (t == s || 0 <= Rank(x, t) < Rank(x, s))
  {
    hide Inv, Rank, SenderStep, ReceiverStep;
    var t := Tick(x, s, sender);
    if sender && SenderEnabled(s) {
      SenderKeeps(x, s);
      RankFalls(x, s, t);
    } else if !sender && ReceiverEnabled(s) {
      ReceiverKeeps(x, s);
      RankFalls(x, s, t);
    }
  }

  /** Ticks keep the invariant, and leave the state alone or use up rank. */
  lemma {:induction false} PlayedKeeps(x: Session, s: State, schedule: seq<bool>)
    requires Inv(x, s)
    ensures var t := Played(x, s, schedule); Inv(x, t) && (t == s || 0 <= Rank(x, t) < Rank(x, s))
    decreases |schedule|
  {
    hide Inv, Rank, Tick;
    if schedule != [] {
      var n := |schedule| - 1;
      PlayedKeeps(x, s, schedule[..n]);
      TickKeeps(x, Played(x, s, schedule[..n]), schedule[n]);
    }
  }

  lemma {:induction false} PlayedTwice(x: Session, s: State, a: seq<bool>, b: seq<bool>)
    ensures Played(x, s, a + b) == Played(x, Played(x, s, a), b)
    decreases |b|
  {
    hide Tick;
    if b == [] {
      assert a + b == a;
    } else {
      var n := |b| - 1;
      assert (a + b)[..|a + b| - 1] == a + b[..n];
      PlayedTwice(x, s, a, b[..n]);
    }
  }

  /** A role that could move leaves the state changed once it has had its turn. */
  lemma {:induction false} TurnMoves(x: Session, s: State, window: seq<bool>, sender: bool)
    requires Inv(x, s) && sender in window && Tick(x, s, sender) != s
    ensures Played(x, s, window) != s
    decreases |window|
  {
    hide Inv, Rank, Tick;
    var n := |window| - 1;
    var before := Played(x, s, window[..n]);
    PlayedKeeps(x, s, window[..n]);
    TickKeeps(x, before, window[n]);
    if before == s && sender != window[n] {
      assert window == window[..n] + [window[n]];
      TurnMoves(x, s, window[..n], sender);
    }
  }

  /** In each window both roles get at least one turn. */
  ghost predicate Fair(windows: seq<seq<bool>>) { forall w | w in windows :: true in w && false in w }

  function Joined(windows: seq<seq<bool>>): seq<bool> {
    if windows == [] then [] else Joined(windows[..|windows| - 1]) + windows[|windows| - 1]
  }

  lemma Moves(x: Session, s: State)
    requires Inv(x, s) && SameUnits(x) && !Complete(x, s)
    ensures Tick(x, s, true) != s || Tick(x, s, false) != s
  {
    hide Complete, SameUnits;
    if Stuck(s) { StuckState(x, s); }
    hide Inv;
    if SenderEnabled(s) {
      assert SenderStep(x, s).spc != s.spc;
    } else {
      assert ReceiverStep(x, s).rpc != s.rpc;
    }
  }

  /** Every fair window before completion uses up rank. */
  lemma {:induction false} WindowsUseRank(x: Session, windows: seq<seq<bool>>)
    requires SameUnits(x) && Fair(windows)
    ensures var s := Played(x, IDLE, Joined(windows));
      Inv(x, s) && (Complete(x, s) || 0 <= Rank(x, s) <= Rank(x, IDLE) - |windows|)
    decreases |windows|
  {
    hide Inv, Rank, SameUnits, Complete, Tick;
    IdleHolds(x);
    IdleRank(x);
    if windows != [] {
      var n := |windows| - 1;
      var s, window := Played(x, IDLE, Joined(windows[..n])), windows[n];
      WindowsUseRank(x, windows[..n]);
      PlayedTwice(x, IDLE, Joined(windows[..n]), window);
      PlayedKeeps(x, s, window);
      if Complete(x, s) {
        CompleteStays(x, s, window);
      } else {
        Moves(x, s);
        TurnMoves(x, s, window, Tick(x, s, true) != s);
      }
    }
  }

  lemma {:induction false} CompleteStays(x: Session, s: State, schedule: seq<bool>)
    requires Complete(x, s)
    ensures Played(x, s, schedule) == s
    decreases |schedule|
  {
    if schedule != [] {
      CompleteStays(x, s, schedule[..|schedule| - 1]);
    }
  }

  /** With equally many units wanted and sent, a schedule in which each role gets a turn in each of
      12 windows per unit and 3 completes the exchange. */
  lemma FairCompletes(x: Session, windows: seq<seq<bool>>)
    requires SameUnits(x) && Fair(windows) && |windows| >= 12 * UnitsOf(x.payload) + 3
    ensures Complete(x, Played(x, IDLE, Joined(windows)))
  {
    hide Inv, Rank, SameUnits, Complete, Played, Tick;
    IdleRank(x);
    WindowsUseRank(x, windows);
    var s := Played(x, IDLE, Joined(windows));
    if !Complete(x, s) {
      Moves(x, s);
      TickKeeps(x, s, Tick(x, s, true) != s);
    }
  }

  /** Fed with what was sent, the receiver asks until it has `wanted` bytes. */
  ghost predicate AsksUntil(x: Session, wanted: nat) {
    forall n | 0 <= n <= |Padded(x.payload)| :: x.more(Padded(x.payload)[..n]) <==> n < wanted
  }

  lemma {:induction false} TakenUntil(x: Session, k: nat, wanted: nat)
    requires k <= UnitsOf(x.payload) && AsksUntil(x, wanted)
    ensures Asked(x, k) <==> 2 * k <= wanted + 1
    ensures Asked(x, k) ==> Taken(x, k) == Padded(x.payload)[..if 2 * k <= wanted then 2 * k else 2 * k - 1]
  {
    if k > 0 {
      TakenUntil(x, k - 1, wanted);
      assert Asked(x, k) <==> Asked(x, k - 1) && x.more(Taken(x, k - 1));
      if Asked(x, k) {
        var p, u := Padded(x.payload), Taken(x, k - 1);
        assert |u| == 2 * (k - 1) && u + [p[2 * (k - 1)]] == p[..2 * k - 1];
        assert p[..2 * k - 1] + [p[2 * k - 1]] == p[..2 * k];
      }
    }
  }

  /** Such a receiver asks for exactly the units sent when the bytes it wants fill as many. */
  lemma UnitsWanted(x: Session, wanted: nat)
    requires AsksUntil(x, wanted)
    ensures SameUnits(x) <==> (wanted + 1) / 2 == UnitsOf(x.payload)
  {
    hide Taken, Asked;
    var n := UnitsOf(x.payload);
    TakenUntil(x, n, wanted);
    if Asked(x, n) {
      var l := if 2 * n <= wanted then 2 * n else 2 * n - 1;
      assert x.more(Padded(x.payload)[..l]) <==> l < wanted;
    }
  }

  /** A fixed-length receiver asks for the units of its length. */
  lemma FixedUnits(payload: seq<Byte>, length: nat)
    ensures SameUnits(Session(payload, FixedLength(length))) <==> (length + 1) / 2 == UnitsOf(payload)
  {
    UnitsWanted(Session(payload, FixedLength(length)), length);
  }

  // ----- frames that declare their own length

  const CMD_BREAK_NOTIFY: Byte := 0x1a
  const HEADER: nat := 11
  const HISTORY_MAX: nat := 4

  /** The two boards differ in the length of the state notifications and of a history entry. */
  datatype Board = Mn1613 | Tms9995

  function EntrySize(b: Board): nat { if b.Mn1613? then 66 else 78 }

  /** The fixed frame length of a command; an unknown command is one byte long. */
  function FrameSize(b: Board, cmd: Byte): nat {
    if cmd == 0x10 || cmd == 0x15 then 2
    else if cmd == 0x16 then 16
    else if cmd == 0x17 || cmd == 0x19 || cmd == 0x12 then 6
    else if cmd == 0x18 then 20
    else if cmd == 0x1b || cmd == 0x13 then (if b.Mn1613? then 60 else 70)
    else if cmd == CMD_BREAK_NOTIFY then HEADER
    else 1
  }

  function Minus(a: nat, b: nat): nat { if a > b then a - b else 0 }

  /** How many bytes a frame still lacks, judged from the bytes at hand. */
  function Remaining(b: Board, frame: seq<Byte>): nat {
    if frame == [] then 0
    else if frame[0] != CMD_BREAK_NOTIFY then Minus(FrameSize(b, frame[0]), |frame|)
    else if |frame| < 3 || frame[2] > HISTORY_MAX then Minus(HEADER, |frame|)
    else Minus(HEADER + frame[2] * EntrySize(b), |frame|)
  }

  /** The length a stream declares for its first frame, as far as it tells; a first byte is always due. */
  function Declared(b: Board, stream: seq<Byte>): (n: nat)
    ensures n >= 1
  {
    if stream == [] then 1
    else if stream[0] != CMD_BREAK_NOTIFY then FrameSize(b, stream[0])
    else if |stream| < 3 || stream[2] > HISTORY_MAX then HEADER
    else HEADER + stream[2] * EntrySize(b)
  }

  ghost predicate CarriesFrame(b: Board, stream: seq<Byte>) { Declared(b, stream) <= |stream| }

  /** Although the estimate jumps up when the history count arrives, a prefix lacks something exactly
      while it is shorter than the declared length. */
  lemma LacksUntilDeclared(b: Board, stream: seq<Byte>, n: nat)
    requires 1 <= n <= |stream|
    ensures Remaining(b, stream[..n]) > 0 <==> n < Declared(b, stream)
  {
    assert stream[..n][0] == stream[0] && (n >= 3 ==> stream[..n][2] == stream[2]);
  }

  /** What a frame lacks completes it to the length it declares so far. */
  lemma LacksTheRest(b: Board, frame: seq<Byte>)
    requires frame != []
    ensures |frame| + Remaining(b, frame) == if |frame| < Declared(b, frame) then Declared(b, frame) else |frame|
  {
  }

  /** The lengths declared: mode and PC key 2 bytes, the LED display 16, timer, LCD control and beep 6, LCD text 20,
      the state notifications 60 or 70, a break notification 11 and 66 or 78 for each of at most 4 entries of
      history, and any other command 1. */
  lemma DeclaredLengths(b: Board, stream: seq<Byte>)
    requires |stream| >= 3
    ensures var n, cmd := Declared(b, stream), stream[0];
      (cmd in {0x10, 0x15} ==> n == 2) &&
      (cmd == 0x16 ==> n == 16) &&
      (cmd in {0x12, 0x17, 0x19} ==> n == 6) &&
      (cmd == 0x18 ==> n == 20) &&
      (cmd in {0x13, 0x1b} ==> n == if b == Mn1613 then 60 else 70) &&
      (cmd == 0x1a && stream[2] > 4 ==> n == 11) &&
      (cmd == 0x1a && stream[2] <= 4 ==> n == 11 + (stream[2] as int) * (if b == Mn1613 then 66 else 78)) &&
      (cmd !in {0x10, 0x12, 0x13, 0x15, 0x16, 0x17, 0x18, 0x19, 0x1a, 0x1b} ==> n == 1)
  {
  }

  /** A receiver that asks until the frame is complete; the first byte it asks for unconditionally. */
  function Framed(b: Board): seq<Byte> -> bool { got => got == [] || Remaining(b, got) > 0 }

  /** Over the wires, a frame-driven receiver that is done holds exactly the declared frame, with the padding
      if the payload itself falls one byte short of it. */
  lemma FrameDelivery(b: Board, payload: seq<Byte>, states: seq<State>, k: nat)
    requires Run(Session(payload, Framed(b)), states) && k < |states| && states[k].rpc.RDone?
    ensures Declared(b, payload) <= |Padded(payload)| && states[k].got == Padded(payload)[..Declared(b, payload)]
    ensures CarriesFrame(b, payload) ==> states[k].got == payload[..Declared(b, payload)]
  {
    hide Remaining, Declared, Run;
    var x, got := Session(payload, Framed(b)), states[k].got;
    ReceivedIsPrefix(x, states, k);
    PaddedDeclares(b, payload);
    var p := Padded(payload);
    assert got == p[..|got|];
    assert |got| > 0;
    LacksUntilDeclared(b, p, |got|);
    assert x.more(p[..|got| - 1]);
    if |got| > 1 {
      LacksUntilDeclared(b, p, |got| - 1);
    }
  }

  /** A frame-driven receiver asks for exactly the units sent when the declared frame fills as many,
      whatever is sent: by `StuckIffComplete` its runs end complete exactly then. */
  lemma FramedUnits(b: Board, payload: seq<Byte>)
    ensures SameUnits(Session(payload, Framed(b))) <==> (Declared(b, payload) + 1) / 2 == UnitsOf(payload)
  {
    hide Remaining, SameUnits;
    var x, p, d := Session(payload, Framed(b)), Padded(payload), Declared(b, payload);
    PaddedDeclares(b, payload);
    forall n | 0 <= n <= |p| ensures x.more(p[..n]) <==> n < d {
      if n > 0 { LacksUntilDeclared(b, p, n); }
    }
    UnitsWanted(x, d);
  }

  lemma PaddedDeclares(b: Board, payload: seq<Byte>)
    ensures Declared(b, Padded(payload)) == Declared(b, payload)
  {
  }

  /** The bytes of a list of units. */
  function UnitBytes(units: seq<(Byte, Byte)>): seq<Byte> {
    if units == [] then [] else [units[0].0, units[0].1] + UnitBytes(units[1..])
  }

  lemma {:induction false} BytesSnoc(units: seq<(Byte, Byte)>, k: nat)
    requires k < |units|
    ensures UnitBytes(units[..k + 1]) == UnitBytes(units[..k]) + [units[k].0, units[k].1]
    ensures |UnitBytes(units[..k])| == 2 * k && UnitBytes(units[..k]) <= UnitBytes(units)
  {
    if k == 0 {
      var first := units[..1];
      assert first == [units[0]] && first[1..] == [];
    } else {
      BytesSnoc(units[1..], k - 1);
      assert units[..k + 1][1..] == units[1..][..k] && units[..k][1..] == units[1..][..k - 1];
    }
  }

  lemma {:induction false} BytesLength(units: seq<(Byte, Byte)>)
    ensures |UnitBytes(units)| == 2 * |units|
  {
    if units != [] {
      BytesLength(units[1..]);
    }
  }

  /** The receiving loop: one unit first, then byte by byte from the units, fetching a unit whenever none
      is pending.  The frame is complete, or the units ran out (the source's time-out) before it was. */
  method ReceiveFramedAdaptive(b: Board, units: seq<(Byte, Byte)>) returns (bytes: seq<Byte>, used: nat)
    requires |units| > 0
    ensures 1 <= |bytes| && bytes <= UnitBytes(units) && used == (|bytes| + 1) / 2 <= |units|
    ensures Remaining(b, bytes) == 0 || bytes == UnitBytes(units)
    ensures forall n | 1 <= n < |bytes| :: Remaining(b, UnitBytes(units)[..n]) > 0
  {
    hide Remaining, UnitBytes;
    ghost var all := UnitBytes(units);
    BytesLength(units);
    BytesSnoc(units, 0);
    bytes, used := [units[0].0], 1;
    var pending := [units[0].1];
    if |units| > 1 { BytesSnoc(units, 1); } else { assert units[..1] == units; }
    while true
      invariant 1 <= used <= |units| && 1 <= |bytes| && |bytes| + |pending| == 2 * used && |pending| <= 1
      invariant bytes + pending == UnitBytes(units[..used]) && UnitBytes(units[..used]) <= all
      invariant forall n | 1 <= n < |bytes| :: Remaining(b, all[..n]) > 0
      decreases 2 * |units| - |bytes|
    {
      assert bytes == all[..|bytes|];
      var rem := Remaining(b, bytes);
      if rem == 0 { break; }
      if pending == [] {
        if used == |units| {
          assert units[..used] == units;
          break;
        }
        BytesSnoc(units, used);
        if used + 1 < |units| { BytesSnoc(units, used + 1); } else { assert units[..used + 1] == units; }
        pending := [units[used].0, units[used].1];
        used := used + 1;
      }
      bytes, pending := bytes + [pending[0]], pending[1..];
      assert |bytes| > 1 ==> all[..|bytes| - 1] == bytes[..|bytes| - 1];
    }
  }

  /** For every stream that carries a frame, the loop stops with exactly the declared bytes. */
  lemma FrameRead(b: Board, stream: seq<Byte>, bytes: seq<Byte>)
    requires CarriesFrame(b, stream) && 1 <= |bytes| && bytes <= stream
    requires Remaining(b, bytes) == 0 || bytes == stream
    requires forall n | 1 <= n < |bytes| :: Remaining(b, stream[..n]) > 0
    ensures |bytes| == Declared(b, stream)
  {
    hide Remaining, Declared;
    assert bytes == stream[..|bytes|];
    LacksUntilDeclared(b, stream, |bytes|);
    if |bytes| > 1 {
      LacksUntilDeclared(b, stream, |bytes| - 1);
    }
  }

  // ----- the roles at work

  /** The shared wires with both roles on them; every tick is one lock scope of one role. */
  class Exchange {
    const session: Session
    var data: Byte
    var dena: bool
    var dack: bool
    var spc: SenderPc
    var si: nat
    var rpc: ReceiverPc
    var b0: Byte
    var b1: Byte
    var got: seq<Byte>
    ghost var units: nat

    ghost function Now(): State
      reads this
    {
      State(data, dena, dack, spc, si, rpc, b0, b1, got, units)
    }

    constructor (session: Session)
      ensures this.session == session && Now() == IDLE
    {
      this.session := session;
      data, dena, dack, spc, si := 0, false, false, SNext, 0;
      rpc, b0, b1, got, units := RNext, 0, 0, [], 0;
    }

    /** A lock scope of the sender; a wait whose condition fails changes nothing. */
    method SenderTick()
      modifies this
      ensures Now() == if SenderEnabled(old(Now())) then SenderStep(session, old(Now())) else old(Now())
    {
      match spc {
        case SNext =>
          if si < |session.payload| {
            data := session.payload[si];
            dena := true;
            spc := SWaitAck;
          } else {
            spc := SDone;
          }
        case SWaitAck =>
          if dack { spc := SDrop; }
        case SDrop =>
          data := if si + 1 < |session.payload| then session.payload[si + 1] else 0;
          dena := false;
          spc := SWaitRelease;
        case SWaitRelease =>
          if !dack {
            si := si + 2;
            spc := SNext;
          }
        case SDone =>
      }
    }

    /** A lock scope of the receiver, or its own bookkeeping between two of them. */
    method ReceiverTick()
      modifies this
      ensures Now() == if ReceiverEnabled(old(Now())) then ReceiverStep(session, old(Now())) else old(Now())
    {
      match rpc {
        case RNext =>
          rpc := if session.more(got) then RWaitUp else RDone;
        case RWaitUp =>
          if dena { rpc := RRead0; }
        case RRead0 =>
          b0 := data;
          rpc := RAck;
        case RAck =>
          dack := true;
          rpc := RWaitDown;
        case RWaitDown =>
          if !dena { rpc := RRead1; }
        case RRead1 =>
          b1 := data;
          rpc := RRelease;
        case RRelease =>
          dack := false;
          units := units + 1;
          rpc := RStore;
        case RStore =>
          got := got + [b0];
          if session.more(got) {
            got := got + [b1];
          }
          rpc := RNext;
        case RDone =>
      }
    }

    /** Any schedule of ticks leaves a prefix of the padded payload with the receiver. */
    method Play(schedule: seq<bool>)
      requires Inv(session, Now())
      modifies this
      ensures Inv(session, Now()) && got <= Padded(session.payload)
      ensures Now() == Played(session, old(Now()), schedule)
      ensures spc.SDone? && rpc.RDone? ==> !dena && !dack
    {
      hide Inv, InStep, InPlace, InHand, SenderEnabled, SenderStep, ReceiverEnabled, ReceiverStep;
      assert schedule[..|schedule|] == schedule;
      for k := 0 to |schedule|
        invariant Inv(session, Now()) && Now() == Played(session, old(Now()), schedule[..k])
      {
        ghost var s := Now();
        assert schedule[..k + 1][..k] == schedule[..k];
        if schedule[k] {
          if SenderEnabled(s) { SenderKeeps(session, s); }
          SenderTick();
        } else {
          if ReceiverEnabled(s) { ReceiverKeeps(session, s); }
          ReceiverTick();
        }
      }
      InvGives(session, Now());
    }
  }

  lemma InvGives(x: Session, s: State)
    requires Inv(x, s)
    ensures s.got <= Padded(x.payload)
    ensures s.spc.SDone? && s.rpc.RDone? ==> !s.dena && !s.dack
  {
    hide Taken, Kept;
    TakenIsPrefix(x, if s.rpc.RStore? then s.units - 1 else s.units);
  }
}
