/** Passes of extraction and expansion, repeated until the text no longer changes. */
module MacroPasses {
  import opened Results
  import opened Macros
  import opened MacroExpansion

  /** Joining no lines and splitting again gives one empty line. */
  function Text(lines: seq<Line>): (t: seq<Line>)
    ensures t != []
  {
    if lines == [] then [EMPTY_LINE] else lines
  }

  function Pass(x: Syntax, text: seq<Line>): Result<seq<Line>> {
    var e := Extract(x, text, map[]);
    if e.Err? then Err(e.error) else
    var r := Expand(x, e.value.macros, Text(e.value.out), 0, 0);
    if r.Err? then Err(r.error) else Ok(Text(r.value.lines))
  }

  predicate MentionsMacro(x: Syntax, text: seq<Line>) {
    exists l | l in text :: l.op.MacroOp? || x.mentions(l)
  }

  function Passes(x: Syntax, text: seq<Line>, n: nat): Result<seq<Line>>
    decreases n
  {
    if n == 0 then Err("exceeded max passes") else
    var r := Pass(x, text);
    if r.Err? then r
    else if r.value == text then
      if MentionsMacro(x, text) then Err("Unexpanded .macro left in source") else r
    else Passes(x, r.value, n - 1)
  }

  method ExpandMacros(x: Syntax, source: seq<Line>) returns (r: Result<seq<Line>>)
    requires source != []
    ensures r == Passes(x, source, 32)
  {
    hide Extract, Expand;
    var text := source;
    for pass := 0 to MAX_PASSES
      invariant text != [] && Passes(x, source, MAX_PASSES) == Passes(x, text, MAX_PASSES - pass)
    {
      var e := ExtractMacros(x, text);
      if e.Err? { return Err(e.error); }
      var expander := new Expander(x, e.value.macros);
      var lines := expander.ExpandLines(Text(e.value.out), 0);
      if lines.Err? { return Err(lines.error); }
      var expanded := Text(lines.value);
      if expanded == text {
        if MentionsMacro(x, expanded) { return Err("Unexpanded .macro left in source"); }
        return Ok(expanded);
      }
      text := expanded;
    }
    return Err("exceeded max passes");
  }

  /** A source with nothing for the expander to do. */
  ghost predicate Plain(text: seq<Line>) {
    text != [] && forall l | l in text :: l.op.NoOp? || l.op.Named?
  }

  lemma {:induction false} PlainExtracts(x: Syntax, lines: seq<Line>, macros: Table)
    requires forall l | l in lines :: l.op.NoOp? || l.op.Named?
    ensures Extract(x, lines, macros) == Ok(Extracted(macros, lines))
  {
    if lines != [] {
      assert lines[0] in lines;
      PlainExtracts(x, lines[1..], macros);
      assert lines == [lines[0]] + lines[1..];
    }
  }

  lemma {:induction false} PlainExpands(x: Syntax, lines: seq<Line>, id: nat)
    requires forall l | l in lines :: l.op.NoOp? || l.op.Named?
    ensures Expand(x, map[], lines, 0, id) == Ok(Output(lines, id, []))
    decreases |lines|
  {
    hide Expand;
    if lines == [] {
      NoLinesLeft(x, map[], lines, 0, id);
    } else {
      assert lines[0] in lines && lines[0..] == lines;
      ExpandStep(x, map[], lines, 0, 0, id);
      PlainExpands(x, lines[1..], id);
      var none: seq<nat> := [];
      assert none + none == none;
      assert lines == [lines[0]] + lines[1..];
    }
  }

  /** A successful extraction from a source without definitions keeps all of it. */
  lemma {:induction false} NothingExtracted(x: Syntax, lines: seq<Line>, macros: Table)
    requires Extract(x, lines, macros).Ok? && forall l | l in lines :: !l.op.MacroOp?
    ensures Extract(x, lines, macros) == Ok(Extracted(macros, lines))
    decreases |lines|, 1
  {
    hide Scan, Extract;
    if lines == [] {
      ExtractDone(x, lines, macros);
    } else {
      var line, rest := lines[0], lines[1..];
      assert line in lines && lines == [line] + rest && lines[0..] == lines;
      ExtractStep(x, lines, 0, macros);
      if IsRepeat(line.op) {
        NoneInRepeat(x, lines, macros);
      } else {
        NothingExtracted(x, rest, macros);
      }
    }
  }

  lemma {:induction false} NoneInRepeat(x: Syntax, lines: seq<Line>, macros: Table)
    requires lines != [] && IsRepeat(lines[0].op)
    requires Extract(x, lines, macros).Ok? && forall l | l in lines :: !l.op.MacroOp?
    ensures Extract(x, lines, macros) == Ok(Extracted(macros, lines))
    decreases |lines|, 0
  {
    hide Scan, Extract;
    assert lines[0..] == lines;
    ExtractStep(x, lines, 0, macros);
    var k := Scan(lines[1..], 1).value;
    NothingExtracted(x, lines[k + 2..], macros);
    WholeBlock(lines, k);
  }

  lemma WholeBlock(lines: seq<Line>, k: nat)
    requires k + 1 < |lines|
    ensures lines == [lines[0]] + (lines[1..1 + k] + [lines[1 + k]]) + lines[k + 2..]
  {
  }

  /** Without blocks, an `.endm` makes the extraction fail. */
  lemma {:induction false} NoStrayEndm(x: Syntax, lines: seq<Line>, macros: Table)
    requires Extract(x, lines, macros).Ok? && forall l | l in lines :: !IsOpen(l.op)
    ensures forall l | l in lines :: !l.op.EndmOp?
    decreases |lines|
  {
    if lines != [] {
      assert lines[0] in lines && lines == [lines[0]] + lines[1..];
      NoStrayEndm(x, lines[1..], macros);
    }
  }

  /** A pass that changes nothing, on a source without `.macro`, means that the source is plain. */
  lemma UnchangedIsPlain(x: Syntax, text: seq<Line>)
    requires text != [] && Pass(x, text) == Ok(text) && forall l | l in text :: !l.op.MacroOp?
    ensures Plain(text)
  {
    hide Extract, Expand;
    NothingExtracted(x, text, map[]);
    ExpandedDone(x, map[], text, 0, 0);
    var lines := Expand(x, map[], text, 0, 0).value.lines;
    if lines == [] {
      assert text == [EMPTY_LINE];
    } else {
      assert lines == text;
      forall l | l in text ensures Done(map[], l) {
      }
      NoStrayEndm(x, text, map[]);
    }
  }

  lemma PlainPass(x: Syntax, text: seq<Line>)
    requires Plain(text)
    ensures Pass(x, text) == Ok(text)
  {
    hide Extract, Expand;
    PlainExtracts(x, text, map[]);
    PlainExpands(x, text, 0);
  }

  /** Whatever the expander returns holds no directive any more, and expanding it again returns it. */
  lemma {:induction false} ResultIsPlain(x: Syntax, text: seq<Line>, n: nat)
    requires text != [] && Passes(x, text, n).Ok?
    ensures Plain(Passes(x, text, n).value) && !MentionsMacro(x, Passes(x, text, n).value)
    ensures Passes(x, Passes(x, text, n).value, MAX_PASSES) == Passes(x, text, n)
    decreases n
  {
    hide Pass;
    var r := Pass(x, text);
    if r.value == text {
      UnchangedIsPlain(x, text);
    } else {
      assert r.value != [] by { PassNotEmpty(x, text); }
      ResultIsPlain(x, r.value, n - 1);
    }
    PlainPass(x, Passes(x, text, n).value);
  }

  lemma PassNotEmpty(x: Syntax, text: seq<Line>)
    requires Pass(x, text).Ok?
    ensures Pass(x, text).value != []
  {
  }

  /** The sources left as they are are exactly the plain ones whose text does not mention `.macro`. */
  lemma FixpointsArePlain(x: Syntax, text: seq<Line>)
    requires text != []
    ensures Passes(x, text, MAX_PASSES) == Ok(text) <==> Plain(text) && !MentionsMacro(x, text)
  {
    hide Pass;
    if Plain(text) && !MentionsMacro(x, text) {
      PlainPass(x, text);
    }
    if Passes(x, text, MAX_PASSES) == Ok(text) {
      ResultIsPlain(x, text, MAX_PASSES);
    }
  }
}
