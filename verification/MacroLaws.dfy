/** What calls and repeats yield: copies of the body, line by line, under the right bindings. */
module MacroLaws {
  import opened Results
  import opened Macros
  import opened MacroExpansion

  // ----- bindings

  function Uppers(x: Syntax, formals: seq<string>): seq<string> {
    seq(|formals|, k requires 0 <= k < |formals| => x.upper(formals[k]))
  }

  /** No later name is the same. */
  ghost predicate LastIn(names: seq<string>, k: nat) {
    k < |names| && forall j | k < j < |names| :: names[j] != names[k]
  }

  /** Every name stands for the actual argument in its place, a missing one for nothing; of two equal names the
      later counts.  Nothing else is bound. */
  ghost predicate Binds(names: seq<string>, actual: seq<string>, b: Binding) {
    (forall u :: u in b <==> u in names) &&
    forall k | 0 <= k < |names| && LastIn(names, k) :: b[names[k]] == if k < |actual| then actual[k] else ""
  }

  lemma BindsOneMore(names: seq<string>, u: string, actual: seq<string>, b: Binding, v: string)
    requires Binds(names, actual, b) && v == if |names| < |actual| then actual[|names|] else ""
    ensures Binds(names + [u], actual, b[u := v])
  {
    hide LastIn;
    var all, c := names + [u], b[u := v];
    forall w ensures w in all <==> w in names || w == u {
    }
    forall k | 0 <= k < |all| && LastIn(all, k) ensures c[all[k]] == if k < |actual| then actual[k] else "" {
      if k < |names| {
        StillLast(names, u, k);
        assert all[k] == names[k];
      } else {
        assert all[k] == u;
      }
    }
  }

  lemma StillLast(names: seq<string>, u: string, k: nat)
    requires k < |names| && LastIn(names + [u], k)
    ensures LastIn(names, k) && names[k] != u
  {
    var all := names + [u];
    assert all[|names|] == u && forall j | 0 <= j < |names| :: all[j] == names[j];
  }

  lemma UppersSnoc(x: Syntax, formals: seq<string>, n: nat)
    requires |formals| == n + 1
    ensures Uppers(x, formals) == Uppers(x, formals[..n]) + [x.upper(formals[n])] && |Uppers(x, formals[..n])| == n
  {
  }

  lemma NoneBound(x: Syntax, actual: seq<string>)
    ensures Binds(Uppers(x, []), actual, map[])
  {
  }

  /** The names of a macro's dummy arguments, in capitals, are bound to the actual arguments in their places. */
  lemma {:induction false} ArgsBound(x: Syntax, formals: seq<string>, actual: seq<string>)
    ensures Binds(Uppers(x, formals), actual, BindArgs(x, formals, actual))
  {
    hide Binds, Uppers;
    if formals == [] {
      NoneBound(x, actual);
    } else {
      var n := |formals| - 1;
      ArgsBound(x, formals[..n], actual);
      UppersSnoc(x, formals, n);
      assert |Uppers(x, formals[..n])| == n;
      BindsOneMore(Uppers(x, formals[..n]), x.upper(formals[n]), actual, BindArgs(x, formals[..n], actual),
                   if n < |actual| then actual[n] else "");
    }
  }

  /** There is only one such binding. */
  lemma BindsOnce(names: seq<string>, actual: seq<string>, b: Binding, c: Binding)
    requires Binds(names, actual, b) && Binds(names, actual, c)
    ensures b == c
  {
    forall u | u in b ensures u in c && b[u] == c[u] {
      var k := LastOf(names, u);
    }
    assert b.Keys == c.Keys;
  }

  lemma {:induction false} LastOf(names: seq<string>, u: string) returns (k: nat)
    requires u in names
    ensures k < |names| && names[k] == u && LastIn(names, k)
  {
    var n := |names| - 1;
    if names[n] == u {
      k := n;
    } else {
      k := LastOf(names[..n], u);
      assert forall j | k < j < n :: names[..n][j] == names[j];
    }
  }

  /** The rounds of a repeat: so many empty bindings, or one binding of the symbol for each argument or
      character. */
  ghost predicate RoundsOf(x: Syntax, line: Line, bs: seq<Binding>) {
    match line.op
    case ReptOp => x.repeatCount(line.args) == Some(|bs|) && forall i | 0 <= i < |bs| :: bs[i] == map[]
    case IrpOp =>
      var parts := x.splitArgs(line.args);
      |parts| == |bs| + 1 && forall i | 0 <= i < |bs| :: bs[i] == map[x.upper(parts[0]) := parts[i + 1]]
    case IrpcOp =>
      var found := x.letters(line.args);
      found.Some? && |found.value.1| == |bs| &&
      forall i | 0 <= i < |bs| :: bs[i] == map[x.upper(found.value.0) := found.value.1[i]]
    case _ => false
  }

  lemma RoundsFound(x: Syntax, line: Line, bs: seq<Binding>)
    requires RoundsOf(x, line, bs)
    ensures Rounds(x, line) == Ok(bs)
  {
    if line.op.ReptOp? {
      var rounds := Rounds(x, line).value;
      assert |rounds| == |bs| && forall i | 0 <= i < |bs| :: rounds[i] == bs[i];
      assert rounds == bs;
    } else if line.op.IrpOp? {
      var parts := x.splitArgs(line.args);
      assert BindEach(x, parts[0], parts[1..]) == bs;
    } else {
      var found := x.letters(line.args).value;
      assert BindEach(x, found.0, found.1) == bs;
    }
  }

  // ----- copies of a body

  /** The first `n` lines are those in front of the first `.mexit`. */
  ghost predicate UpToMexit(body: seq<Line>, n: nat) {
    n <= |body| && (forall k | 0 <= k < n :: !body[k].op.MexitOp?) && (n < |body| ==> body[n].op.MexitOp?)
  }

  /** Those lines with the binding and the number put in. */
  ghost predicate Copy(x: Syntax, body: seq<Line>, n: nat, b: Binding, id: nat, copy: seq<Line>) {
    UpToMexit(body, n) && |copy| == n && forall k | 0 <= k < n :: copy[k] == x.subst(body[k], b, id)
  }

  lemma {:induction false} SubstitutedIsCopy(x: Syntax, body: seq<Line>, n: nat, b: Binding, id: nat, copy: seq<Line>)
    requires Copy(x, body, n, b, id, copy)
    ensures Substituted(x, body, b, id) == copy
  {
    if n > 0 {
      var rest := body[1..];
      assert forall k | 0 <= k < |rest| :: rest[k] == body[k + 1];
      SubstitutedIsCopy(x, rest, n - 1, b, id, copy[1..]);
      assert copy == [copy[0]] + copy[1..];
    }
  }

  /** Nothing to expand expands to itself. */
  lemma {:induction false} DoneExpands(x: Syntax, macros: Table, lines: seq<Line>, depth: nat, id: nat)
    requires depth <= 64 && forall l | l in lines :: Done(macros, l)
    ensures Expand(x, macros, lines, depth, id) == Ok(Output(lines, id, []))
    decreases |lines|
  {
    hide Expand;
    if lines == [] {
      NoLinesLeft(x, macros, lines, depth, id);
    } else {
      assert lines[0] in lines && lines[0..] == lines;
      ExpandStep(x, macros, lines, 0, depth, id);
      DoneExpands(x, macros, lines[1..], depth, id);
      assert lines == [lines[0]] + lines[1..];
      var none: seq<nat> := [];
      assert none + none == none;
    }
  }

  /** The label of a call stays in front: on the copy's first line if that has an operation and no label, or on a
      line of its own. */
  ghost predicate Headed(line: Line, copy: seq<Line>, front: seq<Line>) {
    if line.lbl == None then front == copy
    else if copy != [] && copy[0].lbl == None && !copy[0].op.NoOp? then
      |front| == |copy| && front[1..] == copy[1..] &&
      front[0] == Line(line.indent, line.lbl, copy[0].op, copy[0].args, "")
    else
      |front| == |copy| + 1 && front[1..] == copy && front[0] == Line(line.indent, line.lbl, NoOp, "", "")
  }

  /** A call, in front of any lines, yields the expansion of its body's copy, with the label kept; the number
      is the next one. */
  lemma CallYields(x: Syntax, macros: Table, line: Line, rest: seq<Line>, n: nat, b: Binding, copy: seq<Line>,
                   depth: nat, id: nat)
    requires depth < 64 && line.op.Named? && line.op.upperName in macros
    requires var def := macros[line.op.upperName];
      |x.splitArgs(line.args)| <= |def.formals| && Binds(Uppers(x, def.formals), x.splitArgs(line.args), b) &&
      Copy(x, def.body, n, b, id + 1, copy)
    ensures var body := Expand(x, macros, copy, depth + 1, id + 1);
      var r := Expand(x, macros, [line] + rest, depth, id);
      (body.Err? ==> r == body) &&
      (body.Ok? ==>
        var more := Expand(x, macros, rest, depth, body.value.id);
        (more.Err? ==> r == more) &&
        (more.Ok? ==>
          r.Ok? && r.value.id == more.value.id &&
          exists front :: Headed(line, body.value.lines, front) && r.value.lines == front + more.value.lines))
  {
    hide Expand, Labelled, Binds, Copy, Headed;
    var def, actual := macros[line.op.upperName], x.splitArgs(line.args);
    var all := [line] + rest;
    assert all[0..] == all && all[1..] == rest && all[0] == line;
    ExpandStep(x, macros, all, 0, depth, id);
    ArgsBound(x, def.formals, actual);
    BindsOnce(Uppers(x, def.formals), actual, b, BindArgs(x, def.formals, actual));
    SubstitutedIsCopy(x, def.body, n, b, id + 1, copy);
    var body := Expand(x, macros, copy, depth + 1, id + 1);
    CallIs(x, macros, line, b, copy, depth, id);
    if body.Ok? {
      assert [] + body.value.lines == body.value.lines;
      LabelledIsHeaded(line, body.value.lines);
    }
  }

  lemma CallIs(x: Syntax, macros: Table, line: Line, b: Binding, copy: seq<Line>, depth: nat, id: nat)
    requires depth < 64 && line.op.Named? && line.op.upperName in macros
    requires var def, actual := macros[line.op.upperName], x.splitArgs(line.args);
      |actual| <= |def.formals| && b == BindArgs(x, def.formals, actual) &&
      copy == Substituted(x, def.body, b, id + 1)
    ensures ExpandCall(x, macros, line, depth, id) == Join([], [id + 1], Expand(x, macros, copy, depth + 1, id + 1))
  {
    hide Expand, BindArgs, Substituted;
  }

  lemma LabelledIsHeaded(line: Line, body: seq<Line>)
    ensures Headed(line, body, Labelled(line, body))
  {
  }

  /** A call whose copy holds nothing to expand yields that copy. */
  lemma PlainCallYields(x: Syntax, macros: Table, line: Line, rest: seq<Line>, n: nat, b: Binding, copy: seq<Line>,
                        depth: nat, id: nat)
    requires depth < 64 && line.op.Named? && line.op.upperName in macros
    requires var def := macros[line.op.upperName];
      |x.splitArgs(line.args)| <= |def.formals| && Binds(Uppers(x, def.formals), x.splitArgs(line.args), b) &&
      Copy(x, def.body, n, b, id + 1, copy)
    requires (forall l | l in copy :: Done(macros, l)) && Expand(x, macros, rest, depth, id + 1).Ok?
    ensures var more, r := Expand(x, macros, rest, depth, id + 1), Expand(x, macros, [line] + rest, depth, id);
      r.Ok? && exists front :: Headed(line, copy, front) && r.value.lines == front + more.value.lines
  {
    hide Expand, Headed, Binds, Copy, Done;
    CallYields(x, macros, line, rest, n, b, copy, depth, id);
    DoneExpands(x, macros, copy, depth + 1, id + 1);
  }

  /** More actual arguments than dummy ones are an error. */
  lemma TooManyArguments(x: Syntax, macros: Table, line: Line, rest: seq<Line>, depth: nat, id: nat)
    requires depth <= 64 && line.op.Named? && line.op.upperName in macros
    requires |x.splitArgs(line.args)| > |macros[line.op.upperName].formals|
    ensures Expand(x, macros, [line] + rest, depth, id).Err?
  {
    hide Expand, Labelled;
    var all := [line] + rest;
    assert all[0..] == all && all[0] == line;
    ExpandStep(x, macros, all, 0, depth, id);
  }

  // ----- repeats

  /** One copy per round, numbered from `id + 1` on. */
  ghost predicate RoundCopies(x: Syntax, body: seq<Line>, n: nat, bs: seq<Binding>, id: nat, copies: seq<seq<Line>>) {
    |copies| == |bs| && forall i | 0 <= i < |bs| :: Copy(x, body, n, bs[i], id + 1 + i, copies[i])
  }

  function Concat(copies: seq<seq<Line>>): seq<Line> {
    if copies == [] then [] else copies[0] + Concat(copies[1..])
  }

  lemma {:induction false} RoundsYield(x: Syntax, macros: Table, body: seq<Line>, n: nat, bs: seq<Binding>,
                                       copies: seq<seq<Line>>, depth: nat, id: nat)
    requires depth < 64 && RoundCopies(x, body, n, bs, id, copies)
    requires forall c | c in copies :: forall l | l in c :: Done(macros, l)
    ensures var r := ExpandRounds(x, macros, body, bs, depth, id);
      r.Ok? && r.value.lines == Concat(copies) && r.value.id == id + |bs|
    decreases |bs|
  {
    hide Expand, Copy, Done;
    if bs != [] {
      assert copies[0] in copies;
      SubstitutedIsCopy(x, body, n, bs[0], id + 1, copies[0]);
      DoneExpands(x, macros, copies[0], depth + 1, id + 1);
      forall i | 0 <= i < |bs| - 1 ensures Copy(x, body, n, bs[1..][i], id + 1 + 1 + i, copies[1..][i]) {
        assert Copy(x, body, n, bs[i + 1], id + 1 + (i + 1), copies[i + 1]);
      }
      forall c | c in copies[1..] ensures c in copies {
      }
      RoundsYield(x, macros, body, n, bs[1..], copies[1..], depth, id + 1);
    }
  }

  /** A repeat around a properly nested body, in front of any lines, yields one copy of the body per round, in
      order, when the copies hold nothing to expand. */
  lemma RepeatYields(x: Syntax, macros: Table, line: Line, nest: Nest, close: Line, rest: seq<Line>, n: nat,
                     bs: seq<Binding>, copies: seq<seq<Line>>, depth: nat, id: nat)
    requires depth < 64 && Proper(nest) && close.op.EndmOp? && RoundsOf(x, line, bs)
    requires RoundCopies(x, Flatten(nest), n, bs, id, copies)
    requires (forall c | c in copies :: forall l | l in c :: Done(macros, l))
    requires Expand(x, macros, rest, depth, id + |bs|).Ok?
    ensures var more := Expand(x, macros, rest, depth, id + |bs|);
      var r := Expand(x, macros, [line] + Flatten(nest) + [close] + rest, depth, id);
      r.Ok? && r.value.lines == Concat(copies) + more.value.lines
  {
    hide Expand, ExpandRounds, RoundCopies, Scan, Done, Proper, Flatten;
    var body := Flatten(nest);
    var all := [line] + body + [close] + rest;
    Parts(line, body, close, rest);
    IsRepeatLine(x, line, bs);
    RoundsFound(x, line, bs);
    hide RoundsOf;
    BodyOfNest(nest, close, rest);
    ExpandStep(x, macros, all, 0, depth, id);
    RoundsYield(x, macros, body, n, bs, copies, depth, id);
  }

  lemma Parts(line: Line, body: seq<Line>, close: Line, rest: seq<Line>)
    ensures var all := [line] + body + [close] + rest;
      all[0..] == all && all[0] == line && all[1..] == body + ([close] + rest) &&
      all[1..1 + |body|] == body && all[|body| + 2..] == rest
  {
  }

  lemma IsRepeatLine(x: Syntax, line: Line, bs: seq<Binding>)
    requires RoundsOf(x, line, bs)
    ensures IsRepeat(line.op)
  {
  }

  /** More than 64 expansions inside one another are an error. */
  lemma NestedTooDeep(x: Syntax, macros: Table, lines: seq<Line>, depth: nat, id: nat)
    requires depth > 64
    ensures Expand(x, macros, lines, depth, id).Err?
  {
    TooDeep(x, macros, lines, depth, id);
  }

  /** Any other line in front of any lines stays as it is. */
  lemma OtherLineStays(x: Syntax, macros: Table, line: Line, rest: seq<Line>, depth: nat, id: nat)
    requires depth <= 64 && Done(macros, line) && Expand(x, macros, rest, depth, id).Ok?
    ensures var more, r := Expand(x, macros, rest, depth, id), Expand(x, macros, [line] + rest, depth, id);
      r.Ok? && r.value.lines == [line] + more.value.lines && r.value.id == more.value.id
  {
    hide Expand;
    var all := [line] + rest;
    assert all[0..] == all && all[0] == line && all[1..] == rest;
    ExpandStep(x, macros, all, 0, depth, id);
  }
}
