/** What the tables and rules of the assembler come to, said of the source's own names and numbers. */
module AssemblerLaws {
  import opened Results
  import opened Assembly
  import opened Expression
  import opened Assembler
  import opened TwoPass

  // ----- symbol kinds

  /** A defined name keeps its value and area and is global if it was declared so; a declared name without a
      definition is external; there are no others. */
  lemma KindsAre(s: Pass1State, globl: set<string>, n: string)
    ensures var infos := BuildInfos(s, globl);
      (n in infos <==> n in s.symbols || n in globl) &&
      (n in s.symbols ==>
        infos[n].value == s.symbols[n] && (infos[n].kind == Kind.Global <==> n in globl) &&
        (infos[n].kind == Local <==> n !in globl) &&
        infos[n].area == if n in s.symbolAreas then Some(s.symbolAreas[n]) else None) &&
      (n !in s.symbols && n in globl ==> infos[n].kind == External)
  {
  }

  // ----- relocations

  /** A lone name asks for a relocation by symbol if it is not local, by offset if it lies in one of five areas. */
  lemma NameAsks(n: string, infos: Infos)
    ensures MatchAbs(Ref(n), infos) ==
      if n !in infos then None
      else if infos[n].kind != Local then Some(Symbol(n))
      else if infos[n].area.Some? && infos[n].area.value in {"_CODE", "_DATA", "_WORK", "_SYS_PAGE0", "_USR_PAGE0"} then
        Some(Word(infos[n].value % 0x1_0000, infos[n].area))
      else None
    ensures MatchStar(Ref(n), infos) == None
  {
  }

  /** `*name` asks for a byte, if the name is not local or lies in a zero-page area. */
  lemma StarAsks(n: string, infos: Infos)
    ensures MatchStar(Star(n), infos) ==
      if n !in infos then None
      else if infos[n].kind != Local then Some(Symbol(n))
      else if infos[n].area.Some? && infos[n].area.value in {"_SYS_PAGE0", "_USR_PAGE0"} then
        Some(Word(infos[n].value % 0x1_0000, infos[n].area))
      else None
    ensures MatchAbs(Star(n), infos) == None
  {
  }

  /** Any other expression asks for none. */
  lemma OthersAskNothing(e: Expr, infos: Infos)
    ensures MatchAbs(Plain(e), infos) == None && MatchStar(Plain(e), infos) == None
  {
  }

  /** The first operand that asks decides. */
  lemma {:induction false} FirstAsks(args: seq<Arg>, infos: Infos, star: bool, k: nat)
    requires k < |args|
    requires forall j | 0 <= j < k :: (if star then MatchStar(args[j], infos) else MatchAbs(args[j], infos)) == None
    requires (if star then MatchStar(args[k], infos) else MatchAbs(args[k], infos)).Some?
    ensures FirstMatch(args, infos, star) == if star then MatchStar(args[k], infos) else MatchAbs(args[k], infos)
  {
    hide MatchAbs, MatchStar;
    if k > 0 {
      assert forall j | 0 <= j < |args| - 1 :: args[1..][j] == args[j + 1];
      FirstAsks(args[1..], infos, star, k - 1);
    }
  }

  // ----- names in expressions

  /** The names an expression mentions are those among its tokens. */
  lemma {:induction false} MentionsTokens(e: Expr, n: string)
    ensures n in Mentions(e) <==> Sym(n) in Flatten(e)
  {
    match e
    case Un(_, x) => MentionsTokens(x, n);
    case Bin(_, l, r) => MentionsTokens(l, n); MentionsTokens(r, n);
    case Paren(x) => MentionsTokens(x, n);
    case _ =>
  }

  /** Externals count as 0 in instructions, all defined names as themselves, and nothing else is known. */
  lemma EncodingNames(symbols: SymbolTable, infos: Infos, n: string)
    ensures var known := ForEncode(symbols, infos);
      (n in known <==> n in symbols || (n in infos && infos[n].kind == External)) &&
      (n in symbols ==> known[n] == symbols[n]) && (n in known && n !in symbols ==> known[n] == 0)
  {
  }

  /** A number fits 16 bits signed or unsigned, and is cut to them. */
  lemma SixteenBits(v: int)
    ensures U16(v) == if -32768 <= v <= 65535 then Ok(v % 65536) else Err("out of 16-bit range")
  {
  }

  // ----- instruction words

  /** The low four bits of instruction words, together. */
  function Nibbles(ws: seq<nat>): nat { if ws == [] then 0 else ws[0] % 16 + Nibbles(ws[1..]) }

  /** A split `AI`/`SI`: every word is the operation with a step of at most 15, all steps but the last are 15, and
      together they are the immediate. */
  lemma SplitWords(head: nat, args: seq<Arg>, pc: nat, symbols: SymbolTable)
    requires |args| == 2 && Eval(ArgExpr(args[1]), symbols, false).Ok?
    ensures var imm, ws := Eval(ArgExpr(args[1]), symbols, false).value, Encode(AiSi(head, args), pc, symbols);
      (ws.Ok? <==> imm >= 0) &&
      (ws.Ok? ==>
        (forall k | 0 <= k < |ws.value| :: ws.value[k] / 16 == head % 4096) &&
        (forall k | 0 <= k < |ws.value| - 1 :: ws.value[k] % 16 == 15) &&
        Nibbles(ws.value) == imm)
  {
    hide Eval, Steps, Low16;
    var imm := Eval(ArgExpr(args[1]), symbols, false).value;
    if imm >= 0 {
      StepsAddUp(imm);
      FullSteps(imm);
      var s, ws := Steps(imm), Encode(AiSi(head, args), pc, symbols).value;
      forall k | 0 <= k < |s| ensures ws[k] / 16 == head % 4096 && ws[k] % 16 == s[k] { StepWord(head, s[k]); }
      NibblesAre(ws, s);
    }
  }

  lemma StepWord(head: nat, step: nat)
    requires step < 16
    ensures Low16(head * 16 + step) / 16 == head % 4096 && Low16(head * 16 + step) % 16 == step
  {
    var q, h := head / 4096, head % 4096;
    assert head * 16 + step == q * 0x1_0000 + (h * 16 + step);
    assert h * 16 + step < 0x1_0000;
  }

  lemma FullSteps(imm: nat)
    ensures forall k | 0 <= k < |Steps(imm)| - 1 :: Steps(imm)[k] == 15
  {
    if imm > 15 { FullStepsDown(imm); }
  }

  lemma {:induction false} FullStepsDown(remain: nat)
    ensures forall k | 0 <= k < |StepsDown(remain)| - 1 :: StepsDown(remain)[k] == 15
  {
    if remain > 15 {
      FullStepsDown(remain - 15);
      assert StepsDown(remain) == [15] + StepsDown(remain - 15);
    }
  }

  lemma {:induction false} NibblesAre(ws: seq<nat>, s: seq<nat>)
    requires |ws| == |s| && forall k | 0 <= k < |s| :: ws[k] % 16 == s[k]
    ensures Nibbles(ws) == Sum(s)
  {
    if s != [] {
      NibblesAre(ws[1..], s[1..]);
    }
  }

  /** A long instruction is its opcode word and its operand; only an immediate has to fit. */
  lemma LongWords(first: nat, imm: bool, operand: nat, args: seq<Arg>, pc: nat, symbols: SymbolTable)
    requires operand < |args| && Eval(ArgExpr(args[operand]), symbols, false).Ok?
    ensures var v, ws := Eval(ArgExpr(args[operand]), symbols, false).value,
                         Encode(TwoWord(first, imm, operand, args), pc, symbols);
      if imm && !(-32768 <= v <= 65535) then ws.Err? else ws == Ok([first % 65536, v % 65536])
  {
    hide Eval;
  }

  // ----- recorded areas

  /** The size recorded for an area is the largest counter of the areas that bear its name, the unnamed one being
      `_CODE`. */
  lemma RecordedSizes(c: Ctx, k: nat)
    requires k < |SnapshotAreas(c)| && forall n | n in c.locs :: n == "" || Upper(n) == n
    ensures var area := SnapshotAreas(c)[k];
      (forall n | n in c.locs && CanonicalAreaName(n) == area.name :: c.locs[n].pc <= area.size) &&
      (area.size > 0 ==> exists n :: n in c.locs && CanonicalAreaName(n) == area.name && c.locs[n].pc == area.size)
  {
    hide OrderLinkAreaNames, UsedNames, IsNoload;
    var used := UsedNames(c, c.order);
    var key := OrderLinkAreaNames(used)[k];
    assert key in CanonicalNames(used);
    Capitals();
    hide Upper;
    assert SnapshotAreas(c)[k] == AreaInfo(key, FinalSize(c, key), IsNoload(c, key));
    forall n | n in c.locs && CanonicalAreaName(n) == key ensures c.locs[n].pc <= FinalSize(c, key) {
    }
    if FinalSize(c, key) > 0 {
      if key in c.locs && c.locs[key].pc == FinalSize(c, key) {
        KeyIsCanonical(used, key);
      }
    }
  }

  lemma Capitals()
    ensures Upper("_CODE") == "_CODE"
  {
  }

  lemma KeyIsCanonical(used: seq<string>, key: string)
    requires key in CanonicalNames(used)
    ensures CanonicalAreaName(key) == key
  {
    var j :| 0 <= j < |used| && CanonicalNames(used)[j] == key;
    CanonicalTwice(used[j]);
  }

  lemma {:induction false} UsedIs(c: Ctx, order: seq<string>, n: string)
    ensures n in UsedNames(c, order) <==> n in order && !(n == "" && "" in c.locs && c.locs[""].pc == 0)
  {
    if order != [] {
      UsedIs(c, order[1..], n);
    }
  }

  /** The areas recorded are those that were opened, but for an unnamed one without words. */
  lemma RecordedAreas(c: Ctx, area: string)
    ensures (exists k :: 0 <= k < |SnapshotAreas(c)| && SnapshotAreas(c)[k].name == area) <==>
      exists n :: n in c.order && CanonicalAreaName(n) == area && !(n == "" && "" in c.locs && c.locs[""].pc == 0)
  {
    hide OrderLinkAreaNames, UsedNames, IsNoload, FinalSize, CanonicalAreaName;
    var used := UsedNames(c, c.order);
    var names := OrderLinkAreaNames(used);
    forall n ensures n in used <==> n in c.order && !(n == "" && "" in c.locs && c.locs[""].pc == 0) {
      UsedIs(c, c.order, n);
    }
    assert area in names <==> area in CanonicalNames(used);
    assert area in CanonicalNames(used) <==> exists n :: n in used && CanonicalAreaName(n) == area by {
      if area in CanonicalNames(used) {
        var j :| 0 <= j < |used| && CanonicalNames(used)[j] == area;
        assert used[j] in used;
      }
      if n :| n in used && CanonicalAreaName(n) == area {
        var j :| 0 <= j < |used| && used[j] == n;
        assert CanonicalNames(used)[j] == area;
      }
    }
    if area in names {
      var k :| 0 <= k < |names| && names[k] == area;
      assert SnapshotAreas(c)[k].name == area;
    }
    if k :| 0 <= k < |SnapshotAreas(c)| && SnapshotAreas(c)[k].name == area {
      assert names[k] == area && names[k] in names;
    }
  }

  /** An area is recorded as one without initial values if it is `_WORK`, or an area of its name was opened as such. */
  lemma RecordedNoload(c: Ctx, k: nat)
    requires k < |SnapshotAreas(c)| && forall n | n in c.locs :: n == "" || Upper(n) == n
    ensures SnapshotAreas(c)[k].noload <==>
      SnapshotAreas(c)[k].name == "_WORK" ||
      exists n :: n in c.locs && CanonicalAreaName(n) == SnapshotAreas(c)[k].name && c.locs[n].noload &&
        !(n == "" && c.locs[n].pc == 0)
  {
    hide OrderLinkAreaNames, UsedNames, FinalSize;
    var used := UsedNames(c, c.order);
    var key := OrderLinkAreaNames(used)[k];
    assert key in CanonicalNames(used);
    KeyIsCanonical(used, key);
    NamesNotEmpty(used, key);
    Capitals();
    hide Upper;
    assert SnapshotAreas(c)[k] == AreaInfo(key, FinalSize(c, key), IsNoload(c, key));
  }

  lemma NamesNotEmpty(used: seq<string>, key: string)
    requires key in CanonicalNames(used)
    ensures key != ""
  {
    var j :| 0 <= j < |used| && CanonicalNames(used)[j] == key;
    assert |Upper(used[j])| == |used[j]|;
  }
}
