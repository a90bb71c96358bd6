/** The macro expander: nested blocks, definitions, calls and repeats, run to a fixpoint. */
module Macros {
  import opened Results

  /** The operation of a line, spelled in any case. */
  datatype Op = NoOp | MacroOp | ReptOp | IrpOp | IrpcOp | EndmOp | MexitOp | Named(upperName: string)

  /** A line already split; `note` is what the split ignores. */
  datatype Line = Line(indent: string, lbl: Option<string>, op: Op, args: string, note: string)

  datatype MacroDef = MacroDef(formals: seq<string>, body: seq<Line>)

  type Binding = map<string, string>

  type Table = map<string, MacroDef>

  /** The text functions: argument splitting, macro headers, repeat counts, the symbol and characters of
      `.irpc`, substitution into a line, upper case, and whether a line's text mentions `.macro`.
      Everything below holds whatever they are. */
  datatype Syntax = Syntax(
    splitArgs: string -> seq<string>,
    header: string -> (string, seq<string>),
    repeatCount: string -> Option<nat>,
    letters: string -> Option<(string, seq<string>)>,
    subst: (Line, Binding, nat) -> Line,
    upper: string -> string,
    mentions: Line -> bool)

  const MAX_DEPTH: nat := 64
  const MAX_PASSES: nat := 32
  const EMPTY_LINE: Line := Line("", None, NoOp, "", "")

  predicate IsOpen(op: Op) { op.MacroOp? || op.ReptOp? || op.IrpOp? || op.IrpcOp? }

  predicate IsRepeat(op: Op) { op.ReptOp? || op.IrpOp? || op.IrpcOp? }

  // ----- blocks

  function Bump(o: Option<nat>): Option<nat> { if o.Some? then Some(o.value + 1) else None }

  /** The depth behind a line. */
  function Turn(op: Op, depth: nat): nat
    requires depth >= 1
  {
    if IsOpen(op) then depth + 1 else if op.EndmOp? then depth - 1 else depth
  }

  /** Where the block that is `depth` deep at the first line ends. */
  function Scan(lines: seq<Line>, depth: nat): (k: Option<nat>)
    requires depth >= 1
    ensures k.Some? ==> k.value < |lines|
  {
    if lines == [] then None else
    var d := Turn(lines[0].op, depth);
    if d == 0 then Some(0) else Bump(Scan(lines[1..], d))
  }

  lemma ScanCons(line: Line, rest: seq<Line>, depth: nat)
    requires depth >= 1
    ensures var d := Turn(line.op, depth);
      Scan([line] + rest, depth) == if d == 0 then Some(0) else Bump(Scan(rest, d))
  {
    assert ([line] + rest)[1..] == rest;
  }

  lemma {:induction false} ScanEndsAtEndm(lines: seq<Line>, depth: nat)
    requires depth >= 1 && Scan(lines, depth).Some?
    ensures lines[Scan(lines, depth).value].op.EndmOp?
  {
    var d := Turn(lines[0].op, depth);
    if d > 0 {
      ScanEndsAtEndm(lines[1..], d);
    }
  }

  /** The body from `start` on up to the matching `.endm`, and the index behind it. */
  method ReadBlockBody(lines: seq<Line>, start: nat) returns (r: Option<(seq<Line>, nat)>)
    requires start <= |lines|
    ensures Scan(lines[start..], 1).None? ==> r == None
    ensures Scan(lines[start..], 1).Some? ==>
        var k := Scan(lines[start..], 1).value;
        r == Some((lines[start..start + k], start + k + 1))
  {
    hide Scan;
    var body: seq<Line>, depth: nat, i := [], 1, start;
    while i < |lines|
      invariant start <= i <= |lines| && depth >= 1 && body == lines[start..i]
      invariant Scan(lines[start..], 1) ==
          (if Scan(lines[i..], depth).None? then None else Some(i - start + Scan(lines[i..], depth).value))
    {
      ScanCons(lines[i], lines[i + 1..], depth);
      assert lines[i..] == [lines[i]] + lines[i + 1..];
      if IsOpen(lines[i].op) {
        depth := depth + 1;
      } else if lines[i].op.EndmOp? {
        depth := depth - 1;
        if depth == 0 {
          return Some((body, i + 1));
        }
      }
      body := body + [lines[i]];
      i := i + 1;
    }
    ScanNothing(lines[i..], depth);
    return None;
  }

  /** Properly nested source: single lines and blocks, each closed by its own `.endm`. */
  datatype Nest = End | Single(line: Line, rest: Nest) | Block(open: Line, body: Nest, close: Line, rest: Nest)

  ghost predicate Proper(n: Nest) {
    match n
    case End => true
    case Single(line, rest) => !IsOpen(line.op) && !line.op.EndmOp? && Proper(rest)
    case Block(open, body, close, rest) => IsOpen(open.op) && Proper(body) && close.op.EndmOp? && Proper(rest)
  }

  function Flatten(n: Nest): seq<Line> {
    match n
    case End => []
    case Single(line, rest) => [line] + Flatten(rest)
    case Block(open, body, close, rest) => [open] + Flatten(body) + [close] + Flatten(rest)
  }

  /** A scan walks over nested source as if it were not there. */
  lemma {:induction false} ScanOver(n: Nest, depth: nat, more: seq<Line>)
    requires Proper(n) && depth >= 1
    ensures Scan(Flatten(n) + more, depth) ==
        (if Scan(more, depth).None? then None else Some(|Flatten(n)| + Scan(more, depth).value))
    decreases n
  {
    hide Scan;
    var lines, tail := Flatten(n) + more, Scan(more, depth);
    match n
    case End =>
      assert lines == more;
    case Single(line, rest) =>
      assert lines == [line] + (Flatten(rest) + more);
      ScanCons(line, Flatten(rest) + more, depth);
      ScanOver(rest, depth, more);
    case Block(open, body, close, rest) =>
      var after := Flatten(rest) + more;
      assert lines == [open] + (Flatten(body) + ([close] + after));
      ScanCons(open, Flatten(body) + ([close] + after), depth);
      ScanOver(body, depth + 1, [close] + after);
      ScanCons(close, after, depth + 1);
      ScanOver(rest, depth, more);
  }

  lemma ScanNothing(lines: seq<Line>, depth: nat)
    requires lines == [] && depth >= 1
    ensures Scan(lines, depth) == None
  {
  }

  /** On nested source the body read is exactly the text up to the matching `.endm`. */
  lemma BodyOfNest(n: Nest, close: Line, more: seq<Line>)
    requires Proper(n) && close.op.EndmOp?
    ensures Scan(Flatten(n) + ([close] + more), 1) == Some(|Flatten(n)|)
  {
    ScanCons(close, more, 1);
    ScanOver(n, 1, [close] + more);
  }

  /** A deeper scan passes the end of the inner block first. */
  lemma {:induction false} ScanDeeper(lines: seq<Line>, inner: nat, outer: nat)
    requires inner >= 1 && outer >= 1 && Scan(lines, inner + outer).Some?
    ensures Scan(lines, inner).Some?
    ensures var k := Scan(lines, inner).value;
      Scan(lines[k + 1..], outer).Some? &&
      Scan(lines, inner + outer).value == k + 1 + Scan(lines[k + 1..], outer).value
  {
    var d := Turn(lines[0].op, inner);
    assert Turn(lines[0].op, inner + outer) == d + outer;
    if d > 0 {
      ScanDeeper(lines[1..], d, outer);
      var k := Scan(lines[1..], d).value;
      assert lines[1..][k + 1..] == lines[k + 2..];
    }
  }

  /** The parts of a body that begins with a block: the inner body, its end, and the body behind it. */
  lemma OuterScan(line: Line, rest: seq<Line>)
    requires IsOpen(line.op) && Scan([line] + rest, 1).Some?
    ensures Scan(rest, 1).Some?
    ensures var k := Scan(rest, 1).value;
      rest[k].op.EndmOp? && Scan(rest[k + 1..], 1).Some? &&
      Scan([line] + rest, 1).value == k + 2 + Scan(rest[k + 1..], 1).value
  {
    hide Scan;
    ScanCons(line, rest, 1);
    ScanDeeper(rest, 1, 1);
    ScanEndsAtEndm(rest, 1);
  }

  /** Whatever body is read is properly nested. */
  lemma {:induction false} BodyIsNest(lines: seq<Line>) returns (n: Nest)
    requires Scan(lines, 1).Some?
    ensures Proper(n) && Flatten(n) == lines[..Scan(lines, 1).value]
    decreases |lines|
  {
    hide Scan;
    var line, rest := lines[0], lines[1..];
    assert lines == [line] + rest;
    if line.op.EndmOp? {
      ScanCons(line, rest, 1);
      n := End;
    } else if IsOpen(line.op) {
      OuterScan(line, rest);
      var k := Scan(rest, 1).value;
      var more := rest[k + 1..];
      var body := BodyIsNest(rest);
      var later := BodyIsNest(more);
      n := Block(line, body, rest[k], later);
      BlockText(line, rest, k, Scan(more, 1).value);
    } else {
      ScanCons(line, rest, 1);
      var later := BodyIsNest(rest);
      n := Single(line, later);
      var j := Scan(rest, 1).value;
      assert lines[..1 + j] == [line] + rest[..j];
    }
  }

  lemma BlockText(line: Line, rest: seq<Line>, k: nat, j: nat)
    requires k < |rest| && j <= |rest| - k - 1
    ensures ([line] + rest)[..k + 2 + j] == [line] + rest[..k] + [rest[k]] + rest[k + 1..][..j]
  {
  }

  // ----- definitions

  datatype Extracted = Extracted(macros: Table, out: seq<Line>)

  function Keeping(kept: seq<Line>, r: Result<Extracted>): Result<Extracted> {
    if r.Err? then r else Ok(r.value.(out := kept + r.value.out))
  }

  /** Top-level definitions go into the table, everything else stays. */
  function Extract(x: Syntax, lines: seq<Line>, macros: Table): Result<Extracted>
    decreases |lines|
  {
    if lines == [] then Ok(Extracted(macros, [])) else
    var line, rest := lines[0], lines[1..];
    if line.op.MacroOp? then
      var (name, formals) := x.header(line.args);
      if name == "" then Err(".macro requires a name")
      else if x.upper(name) in macros then Err("Duplicate macro")
      else if Scan(rest, 1).None? then Err("Unclosed block")
      else
        var k := Scan(rest, 1).value;
        Extract(x, rest[k + 1..], macros[x.upper(name) := MacroDef(formals, rest[..k])])
    else if IsRepeat(line.op) then
      if Scan(rest, 1).None? then Err("Unclosed block")
      else
        var k := Scan(rest, 1).value;
        Keeping([line] + rest[..k + 1], Extract(x, rest[k + 1..], macros))
    else if line.op.EndmOp? then Err(".endm without matching block")
    else Keeping([line], Extract(x, rest, macros))
  }

  lemma KeepingTwice(a: seq<Line>, b: seq<Line>, r: Result<Extracted>)
    ensures Keeping(a, Keeping(b, r)) == Keeping(a + b, r)
  {
    if r.Ok? {
      assert a + (b + r.value.out) == a + b + r.value.out;
    }
  }

  method ExtractMacros(x: Syntax, lines: seq<Line>) returns (r: Result<Extracted>)
    ensures r == Extract(x, lines, map[])
  {
    hide Scan;
    hide Extract;
    var macros: Table, out: seq<Line>, i := map[], [], 0;
    assert lines[0..] == lines;
    KeepingNothing(Extract(x, lines, map[]));
    while i < |lines|
      invariant i <= |lines| && Extract(x, lines, map[]) == Keeping(out, Extract(x, lines[i..], macros))
    {
      var raw := lines[i];
      ghost var before, rest := out, lines[i + 1..];
      ExtractStep(x, lines, i, macros);
      if raw.op.MacroOp? {
        var (name, formals) := x.header(raw.args);
        if name == "" { return Err(".macro requires a name"); }
        if x.upper(name) in macros { return Err("Duplicate macro"); }
        var b := ReadBlockBody(lines, i + 1);
        if b == None { return Err("Unclosed block"); }
        macros := macros[x.upper(name) := MacroDef(formals, b.value.0)];
        i := b.value.1;
      } else if IsRepeat(raw.op) {
        var b := ReadBlockBody(lines, i + 1);
        if b == None { return Err("Unclosed block"); }
        ghost var block := [raw] + (b.value.0 + [lines[b.value.1 - 1]]);
        KeepingTwice(before, block, Extract(x, lines[b.value.1..], macros));
        out := out + [raw] + b.value.0 + [lines[b.value.1 - 1]];
        assert out == before + block;
        i := b.value.1;
      } else if raw.op.EndmOp? {
        return Err(".endm without matching block");
      } else {
        KeepingTwice(before, [raw], Extract(x, rest, macros));
        out := out + [raw];
        i := i + 1;
      }
    }
    ExtractDone(x, lines[i..], macros);
    assert out + [] == out;
    r := Ok(Extracted(macros, out));
  }

  lemma KeepingNothing(r: Result<Extracted>)
    ensures Keeping([], r) == r
  {
    if r.Ok? {
      assert [] + r.value.out == r.value.out;
    }
  }

  lemma ExtractDone(x: Syntax, lines: seq<Line>, macros: Table)
    requires lines == []
    ensures Extract(x, lines, macros) == Ok(Extracted(macros, []))
  {
  }

  /** One step of the extraction, in terms of positions. */
  lemma ExtractStep(x: Syntax, lines: seq<Line>, i: nat, macros: Table)
    requires i < |lines|
    ensures var line, end := lines[i], Scan(lines[i + 1..], 1);
      Extract(x, lines[i..], macros) ==
        if line.op.MacroOp? then
          var (name, formals) := x.header(line.args);
          if name == "" then Err(".macro requires a name")
          else if x.upper(name) in macros then Err("Duplicate macro")
          else if end.None? then Err("Unclosed block")
          else Extract(x, lines[i + end.value + 2..],
                       macros[x.upper(name) := MacroDef(formals, lines[i + 1..i + 1 + end.value])])
        else if IsRepeat(line.op) then
          if end.None? then Err("Unclosed block")
          else Keeping([line] + (lines[i + 1..i + 1 + end.value] + [lines[i + 1 + end.value]]),
                       Extract(x, lines[i + end.value + 2..], macros))
        else if line.op.EndmOp? then Err(".endm without matching block")
        else Keeping([line], Extract(x, lines[i + 1..], macros))
  {
    hide Scan;
    var here, rest := lines[i..], lines[i + 1..];
    assert here[0] == lines[i] && here[1..] == rest;
    var end := Scan(rest, 1);
    if end.Some? {
      var k := end.value;
      assert rest[..k] == lines[i + 1..i + 1 + k] && rest[k + 1..] == lines[i + k + 2..];
      assert rest[..k + 1] == lines[i + 1..i + 1 + k] + [lines[i + 1 + k]];
    }
  }

  /** The nested source without its top-level definitions. */
  function WithoutMacros(n: Nest): Nest {
    match n
    case End => End
    case Single(line, rest) => Single(line, WithoutMacros(rest))
    case Block(open, body, close, rest) =>
      if open.op.MacroOp? then WithoutMacros(rest) else Block(open, body, close, WithoutMacros(rest))
  }

  /** The table of its top-level definitions; `None` for a nameless or repeated one. */
  function Definitions(x: Syntax, n: Nest, macros: Table): Option<Table> {
    match n
    case End => Some(macros)
    case Single(_, rest) => Definitions(x, rest, macros)
    case Block(open, body, _, rest) =>
      if !open.op.MacroOp? then Definitions(x, rest, macros) else
      var (name, formals) := x.header(open.args);
      if name == "" || x.upper(name) in macros then None
      else Definitions(x, rest, macros[x.upper(name) := MacroDef(formals, Flatten(body))])
  }

  /** Extraction from nested source deletes exactly the top-level definitions and records each of them;
      it fails exactly when one has no name or a name already taken. */
  lemma {:induction false} ExtractNest(x: Syntax, n: Nest, macros: Table)
    requires Proper(n)
    ensures Extract(x, Flatten(n), macros).Ok? <==> Definitions(x, n, macros).Some?
    ensures Definitions(x, n, macros).Some? ==>
        Extract(x, Flatten(n), macros) == Ok(Extracted(Definitions(x, n, macros).value, Flatten(WithoutMacros(n))))
  {
    hide Scan, Extract;
    var lines := Flatten(n);
    if n.End? {
      ExtractDone(x, lines, macros);
    } else {
      assert lines[0..] == lines;
      ExtractStep(x, lines, 0, macros);
      if n.Single? {
        assert lines[1..] == Flatten(n.rest);
        ExtractNest(x, n.rest, macros);
      } else {
        var body, k := Flatten(n.body), |Flatten(n.body)|;
        assert lines[1..] == body + ([n.close] + Flatten(n.rest));
        BodyOfNest(n.body, n.close, Flatten(n.rest));
        assert lines[1..1 + k] == body && lines[k + 2..] == Flatten(n.rest);
        if n.open.op.MacroOp? {
          var (name, formals) := x.header(n.open.args);
          ExtractNest(x, n.rest, macros[x.upper(name) := MacroDef(formals, body)]);
        } else {
          ExtractNest(x, n.rest, macros);
          assert [n.open] + body + [n.close] == [n.open] + (body + [n.close]);
        }
      }
    }
  }

  /** Extraction succeeds on properly nested source only. */
  lemma {:induction false} ExtractedIsNest(x: Syntax, lines: seq<Line>, macros: Table) returns (n: Nest)
    requires Extract(x, lines, macros).Ok?
    ensures Proper(n) && Flatten(n) == lines
    decreases |lines|
  {
    hide Scan, Extract;
    if lines == [] {
      n := End;
    } else {
      assert lines[0..] == lines;
      ExtractStep(x, lines, 0, macros);
      if IsOpen(lines[0].op) {
        var rest := lines[1..];
        var k := Scan(rest, 1).value;
        ScanEndsAtEndm(rest, 1);
        var body := BodyIsNest(rest);
        var (name, formals) := x.header(lines[0].args);
        assert lines[k + 2..] == rest[k + 1..] && lines[1..1 + k] == rest[..k];
        var table := if lines[0].op.MacroOp? then macros[x.upper(name) := MacroDef(formals, rest[..k])] else macros;
        var later := ExtractedIsNest(x, rest[k + 1..], table);
        n := Block(lines[0], body, rest[k], later);
        assert lines == [lines[0]] + rest[..k] + [rest[k]] + rest[k + 1..];
      } else {
        var later := ExtractedIsNest(x, lines[1..], macros);
        n := Single(lines[0], later);
        assert lines == [lines[0]] + lines[1..];
      }
    }
  }
}
