/** Expanding macro calls and repeats to a bounded depth, and whole passes to a fixpoint. */
module MacroExpansion {
  import opened Results
  import opened Macros

  // ----- what a pass computes

  /** Expanded lines, the counter of expansions behind them, and the numbers put for `?` on the way. */
  datatype Output = Output(lines: seq<Line>, id: nat, used: seq<nat>)

  type Expanded = Result<Output>

  /** A dummy argument given twice keeps its last value, a missing actual one is empty. */
  function BindArgs(x: Syntax, formals: seq<string>, actual: seq<string>): Binding {
    if formals == [] then map[] else
    var k := |formals| - 1;
    BindArgs(x, formals[..k], actual)[x.upper(formals[k]) := if k < |actual| then actual[k] else ""]
  }

  /** The rounds of a repeat, each with what it binds. */
  function Rounds(x: Syntax, line: Line): Result<seq<Binding>> {
    if line.op.ReptOp? then
      var count := x.repeatCount(line.args);
      if count == None then Err(".rept count") else Ok(seq(count.value, _ => map[]))
    else if line.op.IrpOp? then
      var parts := x.splitArgs(line.args);
      if parts == [] then Err(".irp requires a symbol") else Ok(BindEach(x, parts[0], parts[1..]))
    else
      var chars := x.letters(line.args);
      if chars == None then Err(".irpc requires a symbol") else Ok(BindEach(x, chars.value.0, chars.value.1))
  }

  function BindEach(x: Syntax, sym: string, actuals: seq<string>): seq<Binding> {
    seq(|actuals|, i requires 0 <= i < |actuals| => map[x.upper(sym) := actuals[i]])
  }

  /** The body up to its first `.mexit`, with the arguments put in. */
  function Substituted(x: Syntax, body: seq<Line>, binding: Binding, id: nat): seq<Line> {
    if body == [] || body[0].op.MexitOp? then []
    else [x.subst(body[0], binding, id)] + Substituted(x, body[1..], binding, id)
  }

  /** The label of a call moves to the first line it expands to, or gets a line of its own. */
  function Labelled(line: Line, body: seq<Line>): seq<Line> {
    if line.lbl == None then body
    else if body == [] || body[0].lbl.Some? || body[0].op.NoOp? then
      [Line(line.indent, line.lbl, NoOp, "", "")] + body
    else [Line(line.indent, line.lbl, body[0].op, body[0].args, "")] + body[1..]
  }

  function Join(lines: seq<Line>, used: seq<nat>, r: Expanded): Expanded {
    if r.Err? then r else Ok(Output(lines + r.value.lines, r.value.id, used + r.value.used))
  }

  function Room(depth: nat): nat { if depth <= MAX_DEPTH then MAX_DEPTH + 1 - depth else 0 }

  /** Expansion of lines at a depth; the depth bound, and then the lines left, make it end. */
  function Expand(x: Syntax, macros: Table, lines: seq<Line>, depth: nat, id: nat): Expanded
    decreases Room(depth), |lines|, 0
  {
    if depth > MAX_DEPTH then Err("exceeded max depth")
    else if lines == [] then Ok(Output([], id, []))
    else
      var line, rest := lines[0], lines[1..];
      if IsRepeat(line.op) then
        var rounds := Rounds(x, line);
        if rounds.Err? then Err(rounds.error) else
        var end := Scan(rest, 1);
        if end == None then Err("Unclosed block") else
        var out := ExpandRounds(x, macros, rest[..end.value], rounds.value, depth, id);
        if out.Err? then out else
        Join(out.value.lines, out.value.used, Expand(x, macros, rest[end.value + 1..], depth, out.value.id))
      else if line.op.MexitOp? then Err(".mexit outside macro/repeat")
      else if line.op.Named? && line.op.upperName in macros then
        var out := ExpandCall(x, macros, line, depth, id);
        if out.Err? then out else
        Join(Labelled(line, out.value.lines), out.value.used, Expand(x, macros, rest, depth, out.value.id))
      else Join([line], [], Expand(x, macros, rest, depth, id))
  }

  function ExpandRounds(x: Syntax, macros: Table, body: seq<Line>, rounds: seq<Binding>, depth: nat, id: nat): Expanded
    requires depth <= MAX_DEPTH
    decreases Room(depth), |body|, |rounds|
  {
    if rounds == [] then Ok(Output([], id, [])) else
    var out := Expand(x, macros, Substituted(x, body, rounds[0], id + 1), depth + 1, id + 1);
    if out.Err? then out else
    Join(out.value.lines, [id + 1] + out.value.used, ExpandRounds(x, macros, body, rounds[1..], depth, out.value.id))
  }

  function ExpandCall(x: Syntax, macros: Table, line: Line, depth: nat, id: nat): Expanded
    requires depth <= MAX_DEPTH && line.op.Named? && line.op.upperName in macros
    decreases Room(depth), 0, 0
  {
    var def := macros[line.op.upperName];
    var actual := x.splitArgs(line.args);
    if |actual| > |def.formals| then Err("too many arguments")
    else
      Join([], [id + 1],
           Expand(x, macros, Substituted(x, def.body, BindArgs(x, def.formals, actual), id + 1), depth + 1, id + 1))
  }

  // ----- what a pass leaves

  /** No repeat, no `.mexit`, and no call of a macro in the table. */
  predicate Done(macros: Table, line: Line) {
    !IsRepeat(line.op) && !line.op.MexitOp? && !(line.op.Named? && line.op.upperName in macros)
  }

  ghost predicate AllDone(macros: Table, lines: seq<Line>) { forall l | l in lines :: Done(macros, l) }

  lemma LabelledDone(macros: Table, line: Line, body: seq<Line>)
    requires AllDone(macros, body)
    ensures AllDone(macros, Labelled(line, body))
  {
    if body != [] {
      assert body[0] in body;
    }
  }

  /** A successful expansion leaves nothing to expand, the merged labels included. */
  lemma {:induction false} ExpandedDone(x: Syntax, macros: Table, lines: seq<Line>, depth: nat, id: nat)
    requires Expand(x, macros, lines, depth, id).Ok?
    ensures AllDone(macros, Expand(x, macros, lines, depth, id).value.lines)
    decreases Room(depth), |lines|, 0
  {
    hide AllDone, Scan, Rounds, ExpandRounds, Substituted, Labelled, BindArgs;
    if lines == [] {
      NothingDone(macros);
    } else {
      var line, rest := lines[0], lines[1..];
      if IsRepeat(line.op) {
        var end := Scan(rest, 1).value;
        var out := ExpandRounds(x, macros, rest[..end], Rounds(x, line).value, depth, id);
        RoundsDone(x, macros, rest[..end], Rounds(x, line).value, depth, id);
        ExpandedDone(x, macros, rest[end + 1..], depth, out.value.id);
        BothDone(macros, out.value.lines, Expand(x, macros, rest[end + 1..], depth, out.value.id).value.lines);
      } else if line.op.Named? && line.op.upperName in macros {
        var out := ExpandCall(x, macros, line, depth, id);
        CallDone(x, macros, line, depth, id);
        LabelledDone(macros, line, out.value.lines);
        ExpandedDone(x, macros, rest, depth, out.value.id);
        BothDone(macros, Labelled(line, out.value.lines), Expand(x, macros, rest, depth, out.value.id).value.lines);
      } else {
        ExpandedDone(x, macros, rest, depth, id);
        OneDone(macros, line);
        BothDone(macros, [line], Expand(x, macros, rest, depth, id).value.lines);
      }
    }
  }

  lemma {:induction false} RoundsDone(x: Syntax, macros: Table, body: seq<Line>, rounds: seq<Binding>, depth: nat,
                                      id: nat)
    requires depth <= MAX_DEPTH && ExpandRounds(x, macros, body, rounds, depth, id).Ok?
    ensures AllDone(macros, ExpandRounds(x, macros, body, rounds, depth, id).value.lines)
    decreases Room(depth), |body|, |rounds|
  {
    hide AllDone, Expand, Substituted;
    if rounds == [] {
      NothingDone(macros);
    } else {
      var sub := Substituted(x, body, rounds[0], id + 1);
      var out := Expand(x, macros, sub, depth + 1, id + 1);
      ExpandedDone(x, macros, sub, depth + 1, id + 1);
      RoundsDone(x, macros, body, rounds[1..], depth, out.value.id);
      BothDone(macros, out.value.lines, ExpandRounds(x, macros, body, rounds[1..], depth, out.value.id).value.lines);
    }
  }

  lemma {:induction false} CallDone(x: Syntax, macros: Table, line: Line, depth: nat, id: nat)
    requires depth <= MAX_DEPTH && line.op.Named? && line.op.upperName in macros
    requires ExpandCall(x, macros, line, depth, id).Ok?
    ensures AllDone(macros, ExpandCall(x, macros, line, depth, id).value.lines)
    decreases Room(depth), 0, 0
  {
    hide AllDone, Expand, Substituted, BindArgs;
    var def := macros[line.op.upperName];
    var sub := Substituted(x, def.body, BindArgs(x, def.formals, x.splitArgs(line.args)), id + 1);
    ExpandedDone(x, macros, sub, depth + 1, id + 1);
    var out := Expand(x, macros, sub, depth + 1, id + 1).value;
    assert [] + out.lines == out.lines;
  }

  lemma NothingDone(macros: Table)
    ensures AllDone(macros, [])
  {
  }

  lemma OneDone(macros: Table, line: Line)
    requires Done(macros, line)
    ensures AllDone(macros, [line])
  {
  }

  lemma BothDone(macros: Table, a: seq<Line>, b: seq<Line>)
    requires AllDone(macros, a) && AllDone(macros, b)
    ensures AllDone(macros, a + b)
  {
  }

  // ----- the numbers put for `?`

  /** Distinct numbers above `from` and up to `to`, rising. */
  ghost predicate Rising(used: seq<nat>, from: nat, to: nat) {
    from <= to && (forall i | 0 <= i < |used| :: from < used[i] <= to) &&
    forall i, j | 0 <= i < j < |used| :: used[i] < used[j]
  }

  lemma RisingJoins(a: seq<nat>, from: nat, middle: nat, b: seq<nat>, to: nat)
    requires Rising(a, from, middle) && Rising(b, middle, to)
    ensures Rising(a + b, from, to)
  {
  }

  lemma OneRises(from: nat)
    ensures Rising([from + 1], from, from + 1) && Rising([], from, from)
  {
  }

  /** Within one pass no number is used twice: every expansion gets a number of its own. */
  lemma {:induction false} NumbersDiffer(x: Syntax, macros: Table, lines: seq<Line>, depth: nat, id: nat)
    requires Expand(x, macros, lines, depth, id).Ok?
    ensures var out := Expand(x, macros, lines, depth, id).value; Rising(out.used, id, out.id)
    decreases Room(depth), |lines|, 0
  {
    hide Rising, Scan, Rounds, ExpandRounds, ExpandCall, Labelled;
    OneRises(id);
    if lines != [] {
      var line, rest := lines[0], lines[1..];
      if IsRepeat(line.op) {
        var end := Scan(rest, 1).value;
        var out := ExpandRounds(x, macros, rest[..end], Rounds(x, line).value, depth, id).value;
        RoundNumbersDiffer(x, macros, rest[..end], Rounds(x, line).value, depth, id);
        NumbersDiffer(x, macros, rest[end + 1..], depth, out.id);
        var later := Expand(x, macros, rest[end + 1..], depth, out.id).value;
        RisingJoins(out.used, id, out.id, later.used, later.id);
      } else if line.op.Named? && line.op.upperName in macros {
        var out := ExpandCall(x, macros, line, depth, id).value;
        CallNumbersDiffer(x, macros, line, depth, id);
        NumbersDiffer(x, macros, rest, depth, out.id);
        var later := Expand(x, macros, rest, depth, out.id).value;
        RisingJoins(out.used, id, out.id, later.used, later.id);
      } else {
        NumbersDiffer(x, macros, rest, depth, id);
        var later := Expand(x, macros, rest, depth, id).value;
        assert [] + later.used == later.used;
      }
    }
  }

  lemma {:induction false} RoundNumbersDiffer(x: Syntax, macros: Table, body: seq<Line>, rounds: seq<Binding>,
                                              depth: nat, id: nat)
    requires depth <= MAX_DEPTH && ExpandRounds(x, macros, body, rounds, depth, id).Ok?
    ensures var out := ExpandRounds(x, macros, body, rounds, depth, id).value; Rising(out.used, id, out.id)
    decreases Room(depth), |body|, |rounds|
  {
    hide Rising, Expand, Substituted;
    OneRises(id);
    if rounds != [] {
      var sub := Substituted(x, body, rounds[0], id + 1);
      var out := Expand(x, macros, sub, depth + 1, id + 1).value;
      NumbersDiffer(x, macros, sub, depth + 1, id + 1);
      RisingJoins([id + 1], id, id + 1, out.used, out.id);
      RoundNumbersDiffer(x, macros, body, rounds[1..], depth, out.id);
      var later := ExpandRounds(x, macros, body, rounds[1..], depth, out.id).value;
      RisingJoins([id + 1] + out.used, id, out.id, later.used, later.id);
    }
  }

  lemma {:induction false} CallNumbersDiffer(x: Syntax, macros: Table, line: Line, depth: nat, id: nat)
    requires depth <= MAX_DEPTH && line.op.Named? && line.op.upperName in macros
    requires ExpandCall(x, macros, line, depth, id).Ok?
    ensures var out := ExpandCall(x, macros, line, depth, id).value; Rising(out.used, id, out.id)
    decreases Room(depth), 0, 0
  {
    hide Rising, Expand, Substituted, BindArgs;
    OneRises(id);
    var def := macros[line.op.upperName];
    var sub := Substituted(x, def.body, BindArgs(x, def.formals, x.splitArgs(line.args)), id + 1);
    var out := Expand(x, macros, sub, depth + 1, id + 1).value;
    NumbersDiffer(x, macros, sub, depth + 1, id + 1);
    RisingJoins([id + 1], id, id + 1, out.used, out.id);
  }

  // ----- the expander at work

  /** One pass over a source: the macro table and the counter that makes local labels unique. */
  class Expander {
    const x: Syntax
    const macros: Table
    var expandId: nat
    ghost var used: seq<nat>

    constructor (x: Syntax, macros: Table)
      ensures this.x == x && this.macros == macros && expandId == 0 && used == []
    {
      this.x, this.macros, expandId, used := x, macros, 0, [];
    }

    /** The method found what the function says: the lines, the counter and the numbers used since
        `before`, or the error. */
    ghost predicate Found(r: Result<seq<Line>>, e: Expanded, before: seq<nat>)
      reads this
    {
      if e.Err? then r == Err(e.error)
      else r == Ok(e.value.lines) && expandId == e.value.id && used == before + e.value.used
    }

    method ExpandLines(lines: seq<Line>, depth: nat) returns (r: Result<seq<Line>>)
      modifies this
      ensures Found(r, Expand(x, macros, lines, depth, old(expandId)), old(used))
      decreases Room(depth), |lines|, 1
    {
      hide Expand, ExpandRounds, ExpandCall, Rounds, Labelled, Scan, Substituted, BindArgs;
      if depth > MAX_DEPTH {
        TooDeep(x, macros, lines, depth, expandId);
        return Err("exceeded max depth");
      }
      var out: seq<Line>, i := [], 0;
      ghost var goal, log: seq<nat> := Expand(x, macros, lines, depth, expandId), [];
      assert lines[0..] == lines;
      JoinNothing(goal);
      while i < |lines|
        invariant i <= |lines| && used == old(used) + log
        invariant goal == Join(out, log, Expand(x, macros, lines[i..], depth, expandId))
      {
        var line := lines[i];
        ghost var id, rest := expandId, lines[i + 1..];
        ExpandStep(x, macros, lines, i, depth, id);
        if IsRepeat(line.op) {
          var rounds := Rounds(x, line);
          if rounds.Err? { return Err(rounds.error); }
          var b := ReadBlockBody(lines, i + 1);
          if b == None { return Err("Unclosed block"); }
          ghost var more := ExpandRounds(x, macros, b.value.0, rounds.value, depth, id);
          var expanded := RunRounds(b.value.0, rounds.value, depth);
          if expanded.Err? { return expanded; }
          JoinTwice(out, log, expanded.value, more.value.used, Expand(x, macros, lines[b.value.1..], depth, expandId));
          out, log := out + expanded.value, log + more.value.used;
          i := b.value.1;
        } else if line.op.MexitOp? {
          return Err(".mexit outside macro/repeat");
        } else if line.op.Named? && line.op.upperName in macros {
          ghost var more := ExpandCall(x, macros, line, depth, id);
          var bodyOut := Call(line, depth);
          if bodyOut.Err? { return bodyOut; }
          JoinTwice(out, log, Labelled(line, bodyOut.value), more.value.used, Expand(x, macros, rest, depth, expandId));
          out, log := out + Labelled(line, bodyOut.value), log + more.value.used;
          i := i + 1;
        } else {
          JoinTwice(out, log, [line], [], Expand(x, macros, rest, depth, id));
          assert log + [] == log;
          out := out + [line];
          i := i + 1;
        }
      }
      NoLinesLeft(x, macros, lines[i..], depth, expandId);
      assert out + [] == out && log + [] == log;
      r := Ok(out);
    }

    /** A macro call: bind the arguments and expand the body. */
    method Call(line: Line, depth: nat) returns (r: Result<seq<Line>>)
      requires depth <= MAX_DEPTH && line.op.Named? && line.op.upperName in macros
      modifies this
      ensures Found(r, ExpandCall(x, macros, line, depth, old(expandId)), old(used))
      decreases Room(depth), 0, 1
    {
      hide Expand, Substituted, BindArgs;
      var def := macros[line.op.upperName];
      var actual := x.splitArgs(line.args);
      expandId := expandId + 1;
      if |actual| > |def.formals| { return Err("too many arguments"); }
      r := ExpandBodyLines(def.body, BindArgs(x, def.formals, actual), depth);
    }

    /** Once per round: count up, substitute, expand one level deeper. */
    method RunRounds(body: seq<Line>, rounds: seq<Binding>, depth: nat) returns (r: Result<seq<Line>>)
      requires depth <= MAX_DEPTH
      modifies this
      ensures Found(r, ExpandRounds(x, macros, body, rounds, depth, old(expandId)), old(used))
      decreases Room(depth), |body|, 1
    {
      hide Expand, Substituted;
      var out: seq<Line> := [];
      ghost var goal, log: seq<nat> := ExpandRounds(x, macros, body, rounds, depth, expandId), [];
      assert rounds[0..] == rounds;
      JoinNothing(goal);
      for k := 0 to |rounds|
        invariant used == old(used) + log
        invariant goal == Join(out, log, ExpandRounds(x, macros, body, rounds[k..], depth, expandId))
      {
        ghost var rest, id := rounds[k..], expandId + 1;
        assert rest[0] == rounds[k] && rest[1..] == rounds[k + 1..];
        ghost var more := Expand(x, macros, Substituted(x, body, rounds[k], id), depth + 1, id);
        expandId := expandId + 1;
        var expanded := ExpandBodyLines(body, rounds[k], depth);
        if expanded.Err? { return expanded; }
        ghost var numbers := [id] + more.value.used;
        assert [] + more.value.lines == more.value.lines;
        JoinTwice(out, log, expanded.value, numbers, ExpandRounds(x, macros, body, rounds[k + 1..], depth, expandId));
        out, log := out + expanded.value, log + numbers;
      }
      assert out + [] == out && log + [] == log;
      r := Ok(out);
    }

    method ExpandBodyLines(body: seq<Line>, binding: Binding, depth: nat) returns (r: Result<seq<Line>>)
      requires depth <= MAX_DEPTH
      modifies this
      ensures var id := old(expandId);
        Found(r, Join([], [id], Expand(x, macros, Substituted(x, body, binding, id), depth + 1, id)), old(used))
      decreases Room(depth), 0, 0
    {
      hide Expand, Substituted, Join;
      var substituted: seq<Line>, k := [], 0;
      ghost var goal := Substituted(x, body, binding, expandId);
      assert body[0..] == body && [] + goal == goal;
      while k < |body| && !body[k].op.MexitOp?
        invariant k <= |body| && expandId == old(expandId) && used == old(used)
        invariant goal == substituted + Substituted(x, body[k..], binding, expandId)
      {
        SubstituteStep(x, body, k, binding, expandId);
        substituted := substituted + [x.subst(body[k], binding, expandId)];
        k := k + 1;
      }
      SubstituteEnd(x, body, k, binding, expandId);
      assert goal == substituted;
      JoinCall(expandId, Expand(x, macros, substituted, depth + 1, expandId), used);
      used := used + [expandId];
      r := ExpandLines(substituted, depth + 1);
    }
  }

  lemma SubstituteStep(x: Syntax, body: seq<Line>, k: nat, binding: Binding, id: nat)
    requires k < |body| && !body[k].op.MexitOp?
    ensures Substituted(x, body[k..], binding, id) ==
      [x.subst(body[k], binding, id)] + Substituted(x, body[k + 1..], binding, id)
  {
    var rest := body[k..];
    assert rest[0] == body[k] && rest[1..] == body[k + 1..];
  }

  lemma SubstituteEnd(x: Syntax, body: seq<Line>, k: nat, binding: Binding, id: nat)
    requires k <= |body| && (k == |body| || body[k].op.MexitOp?)
    ensures Substituted(x, body[k..], binding, id) == []
  {
  }

  /** The body's number goes before those its expansion uses. */
  lemma JoinCall(id: nat, more: Expanded, before: seq<nat>)
    ensures var r := Join([], [id], more);
      if more.Err? then r == more
      else r == Ok(Output(more.value.lines, more.value.id, [id] + more.value.used)) &&
           before + [id] + more.value.used == before + ([id] + more.value.used)
  {
    if more.Ok? {
      assert [] + more.value.lines == more.value.lines;
    }
  }

  lemma TooDeep(x: Syntax, macros: Table, lines: seq<Line>, depth: nat, id: nat)
    requires depth > MAX_DEPTH
    ensures Expand(x, macros, lines, depth, id) == Err("exceeded max depth")
  {
  }

  lemma NoLinesLeft(x: Syntax, macros: Table, lines: seq<Line>, depth: nat, id: nat)
    requires depth <= MAX_DEPTH && lines == []
    ensures Expand(x, macros, lines, depth, id) == Ok(Output([], id, []))
  {
  }

  lemma JoinNothing(r: Expanded)
    ensures Join([], [], r) == r
  {
    if r.Ok? {
      assert [] + r.value.lines == r.value.lines && [] + r.value.used == r.value.used;
    }
  }

  lemma JoinTwice(a: seq<Line>, p: seq<nat>, b: seq<Line>, q: seq<nat>, r: Expanded)
    ensures Join(a, p, Join(b, q, r)) == Join(a + b, p + q, r)
  {
    if r.Ok? {
      assert a + (b + r.value.lines) == a + b + r.value.lines;
      assert p + (q + r.value.used) == p + q + r.value.used;
    }
  }

  /** One step of the expansion, in terms of positions. */
  lemma ExpandStep(x: Syntax, macros: Table, lines: seq<Line>, i: nat, depth: nat, id: nat)
    requires depth <= MAX_DEPTH && i < |lines|
    ensures var line, end := lines[i], Scan(lines[i + 1..], 1);
      Expand(x, macros, lines[i..], depth, id) ==
        if IsRepeat(line.op) then
          var rounds := Rounds(x, line);
          if rounds.Err? then Err(rounds.error)
          else if end == None then Err("Unclosed block")
          else
            var out := ExpandRounds(x, macros, lines[i + 1..i + 1 + end.value], rounds.value, depth, id);
            if out.Err? then out
            else Join(out.value.lines, out.value.used,
                      Expand(x, macros, lines[i + end.value + 2..], depth, out.value.id))
        else if line.op.MexitOp? then Err(".mexit outside macro/repeat")
        else if line.op.Named? && line.op.upperName in macros then
          var out := ExpandCall(x, macros, line, depth, id);
          if out.Err? then out
          else Join(Labelled(line, out.value.lines), out.value.used,
                    Expand(x, macros, lines[i + 1..], depth, out.value.id))
        else Join([line], [], Expand(x, macros, lines[i + 1..], depth, id))
  {
    hide Scan, Rounds, ExpandRounds, ExpandCall, Labelled;
    var here, rest := lines[i..], lines[i + 1..];
    assert here[0] == lines[i] && here[1..] == rest;
    var end := Scan(rest, 1);
    if end.Some? {
      assert rest[..end.value] == lines[i + 1..i + 1 + end.value];
      assert rest[end.value + 1..] == lines[i + end.value + 2..];
    }
  }
}
