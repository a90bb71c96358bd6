/** The operand expression evaluator: a recursive-descent parser with six left-associative
    binary levels over a primary level, which evaluates while it parses.  The parser is written
    once over an algebra of results, so that the evaluating parser and a tree-building parser are
    two instances of one definition and can be compared. */
module Expression {
  import opened Results

  datatype BinOp = Or | Xor | And | Shl | Shr | Add | Sub | Mul | Div | Mod

  datatype UnOp = Plus | Minus | Not

  datatype Token = Num(n: nat) | Sym(name: string) | Op(op: BinOp) | Tilde | Open | Close

  /** Level 6 is the primary level; level 0 is `|`. */
  const PRIMARY: nat := 6

  function LevelOf(op: BinOp): nat {
    match op
    case Or => 0
    case Xor => 1
    case And => 2
    case Shl | Shr => 3
    case Add | Sub => 4
    case Mul | Div | Mod => 5
  }

  /** Does the token at `i` continue a chain of operators at level `k`? */
  predicate OpAt(ts: seq<Token>, i: nat, k: nat) {
    i < |ts| && ts[i].Op? && LevelOf(ts[i].op) == k
  }

  /** What the parser does with the pieces it recognises.  `stray` is what happens to an operator
      or a closing parenthesis found where an operand should be. */
  datatype Algebra<!V> = Algebra(
    num: nat -> V,
    sym: string -> Result<V>,
    un: (UnOp, V) -> V,
    bin: (BinOp, V, V) -> Result<V>,
    paren: V -> V,
    stray: Token -> Result<V>)

  datatype Parsed<+V> = Parsed(v: V, next: nat)

  function Primary<V>(a: Algebra<V>, ts: seq<Token>, i: nat): (r: Result<Parsed<V>>)
    requires i <= |ts|
    ensures r.Ok? ==> i < r.value.next <= |ts|
    decreases |ts| - i, 0
  {
    if i == |ts| then Err("Invalid expression") else
    match ts[i]
    case Open =>
      var p :- Level(a, 0, ts, i + 1);
      if p.next == |ts| || ts[p.next] != Close then Err("Missing ')'")
      else Ok(Parsed(a.paren(p.v), p.next + 1))
    case Op(Add) => Unary(a, Plus, ts, i)
    case Op(Sub) => Unary(a, Minus, ts, i)
    case Tilde => Unary(a, Not, ts, i)
    case Num(n) => Ok(Parsed(a.num(n), i + 1))
    case Sym(s) => var v :- a.sym(s); Ok(Parsed(v, i + 1))
    case t => var v :- a.stray(t); Ok(Parsed(v, i + 1))
  }

  function Unary<V>(a: Algebra<V>, op: UnOp, ts: seq<Token>, i: nat): (r: Result<Parsed<V>>)
    requires i < |ts|
    ensures r.Ok? ==> i < r.value.next <= |ts|
    decreases |ts| - i - 1, 1
  {
    var p :- Primary(a, ts, i + 1);
    Ok(Parsed(a.un(op, p.v), p.next))
  }

  function Level<V>(a: Algebra<V>, k: nat, ts: seq<Token>, i: nat): (r: Result<Parsed<V>>)
    requires k <= PRIMARY && i <= |ts|
    ensures r.Ok? ==> i < r.value.next <= |ts|
    decreases |ts| - i, 8 - k
  {
    if k == PRIMARY then Primary(a, ts, i)
    else
      var p :- Level(a, k + 1, ts, i);
      Chain(a, k, p.v, ts, p.next)
  }

  /** The `while` loop of a level: fold operators of that level from the left onto `v`. */
  function Chain<V>(a: Algebra<V>, k: nat, v: V, ts: seq<Token>, i: nat): (r: Result<Parsed<V>>)
    requires k <= PRIMARY && i <= |ts|
    ensures r.Ok? ==> i <= r.value.next <= |ts|
    decreases |ts| - i, 8 - k
  {
    if !OpAt(ts, i, k) then Ok(Parsed(v, i))
    else
      var p :- Level(a, k + 1, ts, i + 1);
      var w :- a.bin(ts[i].op, v, p.v);
      Chain(a, k, w, ts, p.next)
  }

  /** The whole evaluator: parse at the loosest level and insist that nothing is left over. */
  function Run<V>(a: Algebra<V>, ts: seq<Token>): Result<V> {
    if ts == [] then Err("Empty expression")
    else
      var p :- Level(a, 0, ts, 0);
      if p.next != |ts| then Err("Unexpected token") else Ok(p.v)
  }

  // ----- syntax trees

  datatype Expr =
    | Lit(n: nat)
    | Name(s: string)
    | Un(uop: UnOp, x: Expr)
    | Bin(bop: BinOp, l: Expr, r: Expr)
    | Paren(inner: Expr)

  function Value<V>(a: Algebra<V>, e: Expr): Result<V> {
    match e
    case Lit(n) => Ok(a.num(n))
    case Name(s) => a.sym(s)
    case Un(op, x) => var v :- Value(a, x); Ok(a.un(op, v))
    case Bin(op, l, r) => var v :- Value(a, l); var w :- Value(a, r); a.bin(op, v, w)
    case Paren(x) => var v :- Value(a, x); Ok(a.paren(v))
  }

  function UnToken(op: UnOp): Token {
    match op
    case Plus => Op(Add)
    case Minus => Op(Sub)
    case Not => Tilde
  }

  function Flatten(e: Expr): (ts: seq<Token>)
    ensures |ts| > 0
  {
    match e
    case Lit(n) => [Num(n)]
    case Name(s) => [Sym(s)]
    case Un(op, x) => [UnToken(op)] + Flatten(x)
    case Bin(op, l, r) => Flatten(l) + [Op(op)] + Flatten(r)
    case Paren(x) => [Open] + Flatten(x) + [Close]
  }

  /** Precedence and left associativity are respected: an operand binds at least as tightly as its
      place demands, the right operand strictly more. */
  predicate Shaped(e: Expr, k: nat) {
    match e
    case Lit(_) | Name(_) => true
    case Un(_, x) => Shaped(x, PRIMARY)
    case Bin(op, l, r) => k <= LevelOf(op) && Shaped(l, LevelOf(op)) && Shaped(r, LevelOf(op) + 1)
    case Paren(x) => Shaped(x, 0)
  }

  /** The tree-building instance of the parser. */
  function TreeAlgebra(): Algebra<Expr> {
    Algebra(n => Lit(n), s => Ok(Name(s)), (op, x) => Un(op, x), (op, l, r) => Ok(Bin(op, l, r)),
            x => Paren(x), t => Err("Undefined symbol"))
  }

  function ParseTree(ts: seq<Token>): Result<Expr> { Run(TreeAlgebra(), ts) }

  // ----- parsing and evaluating at once is parsing, then evaluating

  ghost predicate Strict<V>(a: Algebra<V>) { forall t: Token :: a.stray(t).Err? }

  /** How the outcome of the evaluating parser must relate to the outcome of the tree parser. */
  ghost predicate Agree<V(!new)>(a: Algebra<V>, tree: Result<Parsed<Expr>>, got: Result<Parsed<V>>) {
    match tree
    case Err(_) => Strict(a) ==> got.Err?
    case Ok(p) =>
      match Value(a, p.v)
      case Err(m) => got == Err(m)
      case Ok(v) => got == Ok(Parsed(v, p.next))
  }

  lemma {:induction false} PrimaryAgrees<V(!new)>(a: Algebra<V>, ts: seq<Token>, i: nat)
    requires i <= |ts|
    ensures Agree(a, Primary(TreeAlgebra(), ts, i), Primary(a, ts, i))
    decreases |ts| - i, 0
  {
    hide Unary;
    if i < |ts| {
      match ts[i]
      case Open => LevelAgrees(a, 0, ts, i + 1);
      case Op(Add) => UnaryAgrees(a, Plus, ts, i);
      case Op(Sub) => UnaryAgrees(a, Minus, ts, i);
      case Tilde => UnaryAgrees(a, Not, ts, i);
      case _ =>
    }
  }

  lemma {:induction false} UnaryAgrees<V(!new)>(a: Algebra<V>, op: UnOp, ts: seq<Token>, i: nat)
    requires i < |ts|
    ensures Agree(a, Unary(TreeAlgebra(), op, ts, i), Unary(a, op, ts, i))
    decreases |ts| - i - 1, 1
  {
    PrimaryAgrees(a, ts, i + 1);
  }

  lemma {:induction false} LevelAgrees<V(!new)>(a: Algebra<V>, k: nat, ts: seq<Token>, i: nat)
    requires k <= PRIMARY && i <= |ts|
    ensures Agree(a, Level(TreeAlgebra(), k, ts, i), Level(a, k, ts, i))
    decreases |ts| - i, 8 - k
  {
    if k == PRIMARY {
      PrimaryAgrees(a, ts, i);
    } else {
      LevelAgrees(a, k + 1, ts, i);
      var tree, got := Level(TreeAlgebra(), k + 1, ts, i), Level(a, k + 1, ts, i);
      if tree.Ok? {
        ChainAgrees(a, k, tree.value.v, ts, tree.value.next);
      }
    }
  }

  lemma {:induction false} ChainAgrees<V(!new)>(a: Algebra<V>, k: nat, e: Expr, ts: seq<Token>, i: nat)
    requires k <= PRIMARY && i <= |ts|
    ensures Agree(a, Chain(TreeAlgebra(), k, e, ts, i),
                  var v :- Value(a, e); Chain(a, k, v, ts, i))
    decreases |ts| - i, 8 - k
  {
    if OpAt(ts, i, k) {
      LevelAgrees(a, k + 1, ts, i + 1);
      var tree := Level(TreeAlgebra(), k + 1, ts, i + 1);
      if tree.Ok? {
        ChainAgrees(a, k, Bin(ts[i].op, e, tree.value.v), ts, tree.value.next);
      }
    }
  }

  /** Evaluating while parsing gives what the tree evaluates to, errors included; and with a strict
      algebra the evaluator rejects everything that is not an expression. */
  lemma RunAgrees<V(!new)>(a: Algebra<V>, ts: seq<Token>)
    ensures ParseTree(ts).Ok? ==> Run(a, ts) == Value(a, ParseTree(ts).value)
    ensures ParseTree(ts).Err? && Strict(a) ==> Run(a, ts).Err?
  {
    LevelAgrees(a, 0, ts, 0);
  }

  // ----- a parsed tree spells out exactly the tokens consumed

  ghost predicate Spells(ts: seq<Token>, i: nat, k: nat, r: Result<Parsed<Expr>>)
    requires i <= |ts| && (r.Ok? ==> i <= r.value.next <= |ts|)
  {
    r.Ok? ==> Shaped(r.value.v, k) && Flatten(r.value.v) == ts[i..r.value.next]
  }

  lemma {:induction false} PrimarySpells(ts: seq<Token>, i: nat)
    requires i <= |ts|
    ensures Spells(ts, i, PRIMARY, Primary(TreeAlgebra(), ts, i))
    decreases |ts| - i, 0
  {
    if i < |ts| {
      match ts[i]
      case Open =>
        LevelSpells(0, ts, i + 1);
        var p := Level(TreeAlgebra(), 0, ts, i + 1);
        if p.Ok? && p.value.next < |ts| {
          var n := p.value.next;
          assert ts[i..n + 1] == [ts[i]] + ts[i + 1..n] + [ts[n]];
        }
      case Op(Add) => UnarySpells(Plus, ts, i);
      case Op(Sub) => UnarySpells(Minus, ts, i);
      case Tilde => UnarySpells(Not, ts, i);
      case _ =>
    }
  }

  lemma {:induction false} UnarySpells(op: UnOp, ts: seq<Token>, i: nat)
    requires i < |ts| && ts[i] == UnToken(op)
    ensures Spells(ts, i, PRIMARY, Unary(TreeAlgebra(), op, ts, i))
    decreases |ts| - i - 1, 1
  {
    PrimarySpells(ts, i + 1);
    var p := Primary(TreeAlgebra(), ts, i + 1);
    if p.Ok? {
      assert ts[i..p.value.next] == [ts[i]] + ts[i + 1..p.value.next];
    }
  }

  lemma {:induction false} LevelSpells(k: nat, ts: seq<Token>, i: nat)
    requires k <= PRIMARY && i <= |ts|
    ensures Spells(ts, i, k, Level(TreeAlgebra(), k, ts, i))
    decreases |ts| - i, 8 - k
  {
    if k == PRIMARY {
      PrimarySpells(ts, i);
    } else {
      LevelSpells(k + 1, ts, i);
      var p := Level(TreeAlgebra(), k + 1, ts, i);
      if p.Ok? {
        ShapedLooser(p.value.v, k + 1);
        ChainSpells(k, p.value.v, ts, i, p.value.next);
      }
    }
  }

  lemma {:induction false} ChainSpells(k: nat, e: Expr, ts: seq<Token>, from: nat, i: nat)
    requires k <= PRIMARY && from <= i <= |ts|
    requires Shaped(e, k) && Flatten(e) == ts[from..i]
    ensures Spells(ts, from, k, Chain(TreeAlgebra(), k, e, ts, i))
    decreases |ts| - i, 8 - k
  {
    if OpAt(ts, i, k) {
      LevelSpells(k + 1, ts, i + 1);
      var p := Level(TreeAlgebra(), k + 1, ts, i + 1);
      if p.Ok? {
        var e' := Bin(ts[i].op, e, p.value.v);
        assert ts[from..p.value.next] == ts[from..i] + [ts[i]] + ts[i + 1..p.value.next];
        ChainSpells(k, e', ts, from, p.value.next);
      }
    }
  }

  lemma ShapedLooser(e: Expr, k: nat)
    requires k > 0 && Shaped(e, k)
    ensures Shaped(e, k - 1)
  {
  }

  // ----- the parser finds every properly shaped tree

  /** The tokens `w` stand in `ts` from `i` on. */
  ghost predicate At(w: seq<Token>, ts: seq<Token>, i: nat) {
    i + |w| <= |ts| && forall j | 0 <= j < |w| :: ts[i + j] == w[j]
  }

  lemma AtSplit(a: seq<Token>, b: seq<Token>, ts: seq<Token>, i: nat)
    requires At(a + b, ts, i)
    ensures At(a, ts, i) && At(b, ts, i + |a|)
  {
    forall j | 0 <= j < |a| ensures ts[i + j] == a[j] {
      assert (a + b)[j] == a[j];
    }
    forall j | 0 <= j < |b| ensures ts[i + |a| + j] == b[j] {
      assert (a + b)[|a| + j] == b[j];
    }
  }

  /** No operator binding tighter than level `k` stands at `i`. */
  ghost predicate NoneTighter(ts: seq<Token>, i: nat, k: nat) {
    i < |ts| && ts[i].Op? ==> LevelOf(ts[i].op) <= k
  }

  /** After reading `e` the level's loop stands with `e` in hand behind it. */
  lemma {:induction false} LevelReads(e: Expr, k: nat, ts: seq<Token>, i: nat)
    requires k <= PRIMARY && i <= |ts| && Shaped(e, k) && At(Flatten(e), ts, i)
    requires NoneTighter(ts, i + |Flatten(e)|, k)
    ensures Level(TreeAlgebra(), k, ts, i) == Chain(TreeAlgebra(), k, e, ts, i + |Flatten(e)|)
    decreases e, 8 - k
  {
    hide At, Primary;
    if k == PRIMARY {
      PrimaryReads(e, ts, i);
    } else if e.Bin? && LevelOf(e.bop) == k {
      BinReads(e.bop, e.l, e.r, k, ts, i);
    } else {
      assert Shaped(e, k + 1);
      LevelReads(e, k + 1, ts, i);
      ChainEnds(k + 1, e, ts, i + |Flatten(e)|);
    }
  }

  lemma {:induction false} BinReads(op: BinOp, l: Expr, r: Expr, k: nat, ts: seq<Token>, i: nat)
    requires k == LevelOf(op) && i <= |ts| && Shaped(Bin(op, l, r), k)
    requires At(Flatten(l) + [Op(op)] + Flatten(r), ts, i)
    requires NoneTighter(ts, i + |Flatten(l)| + 1 + |Flatten(r)|, k)
    ensures Level(TreeAlgebra(), k, ts, i) ==
            Chain(TreeAlgebra(), k, Bin(op, l, r), ts, i + |Flatten(l)| + 1 + |Flatten(r)|)
    decreases Bin(op, l, r), 0
  {
    hide Primary, Level, Chain;
    var nl := i + |Flatten(l)|;
    AtSplit(Flatten(l) + [Op(op)], Flatten(r), ts, i);
    AtSplit(Flatten(l), [Op(op)], ts, i);
    assert ts[nl + 0] == [Op(op)][0];
    LevelReads(l, k, ts, i);
    LevelReads(r, k + 1, ts, nl + 1);
    ChainEnds(k + 1, r, ts, nl + 1 + |Flatten(r)|);
    ChainStep(k, l, r, ts, nl, nl + 1 + |Flatten(r)|);
  }

  lemma ChainEnds(k: nat, e: Expr, ts: seq<Token>, n: nat)
    requires 0 < k <= PRIMARY && n <= |ts| && NoneTighter(ts, n, k - 1)
    ensures Chain(TreeAlgebra(), k, e, ts, n) == Ok(Parsed(e, n))
  {
  }

  lemma ChainStep(k: nat, l: Expr, r: Expr, ts: seq<Token>, i: nat, n: nat)
    requires k < PRIMARY && i < |ts| && OpAt(ts, i, k)
    requires Level(TreeAlgebra(), k + 1, ts, i + 1) == Ok(Parsed(r, n))
    ensures Chain(TreeAlgebra(), k, l, ts, i) == Chain(TreeAlgebra(), k, Bin(ts[i].op, l, r), ts, n)
  {
  }

  lemma {:induction false} PrimaryReads(e: Expr, ts: seq<Token>, i: nat)
    requires i <= |ts| && Shaped(e, PRIMARY) && At(Flatten(e), ts, i)
    ensures Primary(TreeAlgebra(), ts, i) == Ok(Parsed(e, i + |Flatten(e)|))
    decreases e, 1
  {
    hide Level, Chain;
    assert ts[i + 0] == Flatten(e)[0];
    match e
    case Un(op, x) => UnaryReads(op, x, ts, i);
    case Paren(x) => ParenReads(x, ts, i);
    case _ =>
  }

  lemma {:induction false} UnaryReads(op: UnOp, x: Expr, ts: seq<Token>, i: nat)
    requires i <= |ts| && Shaped(x, PRIMARY) && At([UnToken(op)] + Flatten(x), ts, i)
    ensures Unary(TreeAlgebra(), op, ts, i) == Ok(Parsed(Un(op, x), i + 1 + |Flatten(x)|))
    decreases x, 2
  {
    hide Primary;
    AtSplit([UnToken(op)], Flatten(x), ts, i);
    PrimaryReads(x, ts, i + 1);
  }

  lemma {:induction false} ParenReads(x: Expr, ts: seq<Token>, i: nat)
    requires i <= |ts| && Shaped(x, 0) && At([Open] + Flatten(x) + [Close], ts, i)
    ensures Primary(TreeAlgebra(), ts, i) == Ok(Parsed(Paren(x), i + 1 + |Flatten(x)| + 1))
    decreases x, 10
  {
    hide Level, Chain;
    var n := i + 1 + |Flatten(x)|;
    AtSplit([Open] + Flatten(x), [Close], ts, i);
    AtSplit([Open], Flatten(x), ts, i);
    assert ts[i + 0] == [Open][0] && ts[n + 0] == [Close][0];
    LevelReads(x, 0, ts, i + 1);
    NothingFollows(x, ts, n);
  }

  lemma NothingFollows(e: Expr, ts: seq<Token>, n: nat)
    requires n <= |ts| && !OpAt(ts, n, 0)
    ensures Chain(TreeAlgebra(), 0, e, ts, n) == Ok(Parsed(e, n))
  {
  }

  /** Parsing is the inverse of printing, in both directions. */
  lemma ParseIffSpelled(ts: seq<Token>, e: Expr)
    ensures ParseTree(ts) == Ok(e) <==> Shaped(e, 0) && Flatten(e) == ts
  {
    LevelSpells(0, ts, 0);
    hide Level, Chain, Primary;
    if Shaped(e, 0) && Flatten(e) == ts {
      LevelReads(e, 0, ts, 0);
      NothingFollows(e, ts, |ts|);
    }
    if ParseTree(ts) == Ok(e) {
      assert ts[0..|ts|] == ts;
    }
  }

  // ----- fewest parentheses

  predicate Atomic(e: Expr, k: nat) { e.Bin? ==> k <= LevelOf(e.bop) }

  /** Insert the parentheses that precedence and left associativity require, and no others. */
  function Fewest(e: Expr, k: nat): Expr
    decreases e
  {
    var inner := match e
      case Lit(_) | Name(_) => e
      case Un(op, x) => Un(op, Fewest(x, PRIMARY))
      case Bin(op, l, r) => Bin(op, Fewest(l, LevelOf(op)), Fewest(r, LevelOf(op) + 1))
      case Paren(x) => Paren(Fewest(x, 0));
    if Atomic(e, k) then inner else Paren(inner)
  }

  ghost predicate ParenIsTransparent<V(!new)>(a: Algebra<V>) { forall v :: a.paren(v) == v }

  lemma {:induction false} FewestKeepsMeaning<V(!new)>(a: Algebra<V>, e: Expr, k: nat)
    requires ParenIsTransparent(a)
    ensures Shaped(Fewest(e, k), k) && Value(a, Fewest(e, k)) == Value(a, e)
    decreases e
  {
    match e
    case Lit(_) =>
    case Name(_) =>
    case Un(_, x) => FewestKeepsMeaning(a, x, PRIMARY);
    case Bin(op, l, r) =>
      FewestKeepsMeaning(a, l, LevelOf(op));
      FewestKeepsMeaning(a, r, LevelOf(op) + 1);
    case Paren(x) => FewestKeepsMeaning(a, x, 0);
  }

  /** Correctness: whatever the operators mean, failures included, evaluating the printed form of
      a tree consumes every token and gives the tree's value. */
  lemma PrintedEvaluates<V(!new)>(a: Algebra<V>, e: Expr)
    requires ParenIsTransparent(a)
    ensures Run(a, Flatten(Fewest(e, 0))) == Value(a, e)
  {
    FewestKeepsMeaning(a, e, 0);
    ParseIffSpelled(Flatten(Fewest(e, 0)), Fewest(e, 0));
    RunAgrees(a, Flatten(Fewest(e, 0)));
  }

  /** The other direction: a strict evaluator succeeds on nothing but printed trees. */
  lemma EvaluatesOnlyPrinted<V(!new)>(a: Algebra<V>, ts: seq<Token>, v: V)
    requires Strict(a)
    ensures Run(a, ts) == Ok(v) <==> exists e :: Shaped(e, 0) && Flatten(e) == ts && Value(a, e) == Ok(v)
  {
    RunAgrees(a, ts);
    if Run(a, ts) == Ok(v) {
      ParseIffSpelled(ts, ParseTree(ts).value);
    }
    if e :| Shaped(e, 0) && Flatten(e) == ts && Value(a, e) == Ok(v) {
      ParseIffSpelled(ts, e);
    }
  }

  // ----- the evaluator's own numbers

  type SymbolTable = map<string, int>

  function Pow2(n: nat): (p: nat)
    ensures p >= 1
  {
    if n == 0 then 1 else 2 * Pow2(n - 1)
  }

  /** What `&`, `|` and `^` make of two bits. */
  function BitOf(op: BinOp, x: nat, y: nat): nat {
    if op.And? then (if x == 1 && y == 1 then 1 else 0)
    else if op.Or? then (if x == 1 || y == 1 then 1 else 0)
    else (if x != y then 1 else 0)
  }

  /** The low `n` bits of two numbers, bit by bit. */
  function Bitwise(op: BinOp, a: int, b: int, n: nat): nat
    decreases n
  {
    if n == 0 then 0 else BitOf(op, a % 2, b % 2) + 2 * Bitwise(op, a / 2, b / 2, n - 1)
  }

  /** The signed number the low 32 bits of a number stand for. */
  function Signed32(v: int): int {
    var n := v % 0x1_0000_0000;
    if n < 0x8000_0000 then n else n - 0x1_0000_0000
  }

  function Low16(v: int): nat { v % 0x1_0000 }

  /** Division rounding toward zero; `%` takes the sign of the dividend. */
  function Quotient(v: int, r: int): int
    requires r != 0
  {
    if v >= 0 then v / r else -((-v) / r)
  }

  function ApplyUnary(op: UnOp, v: int): int {
    match op
    case Plus => v
    case Minus => -v
    case Not => Low16(-v - 1)
  }

  function Apply(op: BinOp, v: int, r: int): Result<int> {
    match op
    case Or => Ok(Signed32(Bitwise(Or, v, r, 32)))
    case Xor => Ok(Signed32(Bitwise(Xor, v, r, 32)))
    case And => Ok(Signed32(Bitwise(And, v, r, 32)))
    case Shl => Ok(Low16(v * Pow2(r % 32)))
    case Shr => Ok(Low16(v % 0x1_0000_0000 / Pow2(r % 32)))
    case Add => Ok(v + r)
    case Sub => Ok(v - r)
    case Mul => Ok(v * r)
    case Div => if r == 0 then Err("Division by zero") else Ok(Quotient(v, r))
    case Mod => if r == 0 then Err("Modulo by zero") else Ok(v - Quotient(v, r) * r)
  }

  function Lookup(symbols: SymbolTable, allowUndefined: bool, name: string): Result<int> {
    if name in symbols then Ok(symbols[name])
    else if allowUndefined then Ok(0)
    else Err("Undefined symbol")
  }

  /** In the first pass (`allowUndefined`) an undefined symbol is 0, and so is a stray operator,
      since it is looked up as a symbol. */
  function Numbers(symbols: SymbolTable, allowUndefined: bool): Algebra<int> {
    Algebra(
      n => n,
      s => Lookup(symbols, allowUndefined, s),
      (op, v) => ApplyUnary(op, v),
      (op, v, r) => Apply(op, v, r),
      v => v,
      t => if allowUndefined then Ok(0) else Err("Undefined symbol"))
  }

  function EvalExpr(ts: seq<Token>, symbols: SymbolTable, allowUndefined: bool): Result<int> {
    Run(Numbers(symbols, allowUndefined), ts)
  }

  function Eval(e: Expr, symbols: SymbolTable, allowUndefined: bool): Result<int> {
    Value(Numbers(symbols, allowUndefined), e)
  }

  /** Only expressions evaluate, whatever the symbol table, exactly when undefined names are refused: with
      them an operator or parenthesis in operand place passes for a name of value 0. */
  lemma FirstPassAcceptsStray(symbols: SymbolTable, allowUndefined: bool)
    ensures (forall ts :: EvalExpr(ts, symbols, allowUndefined).Ok? ==> ParseTree(ts).Ok?) <==> !allowUndefined
  {
    hide EvalExpr, ParseTree;
    if allowUndefined {
      var ts := [Num(3), Op(Add), Close];
      StrayIsZero(symbols);
      StrayIsNoTree();
      assert EvalExpr(ts, symbols, true).Ok? && ParseTree(ts).Err?;
    } else {
      forall ts | EvalExpr(ts, symbols, false).Ok? ensures ParseTree(ts).Ok? {
        StrictEvaluatesTrees(ts, symbols);
      }
    }
  }

  lemma StrictEvaluatesTrees(ts: seq<Token>, symbols: SymbolTable)
    requires EvalExpr(ts, symbols, false).Ok?
    ensures ParseTree(ts).Ok?
  {
    RunAgrees(Numbers(symbols, false), ts);
  }

  lemma StrayIsZero(symbols: SymbolTable)
    ensures EvalExpr([Num(3), Op(Add), Close], symbols, true) == Ok(3)
  {
    var ts, a := [Num(3), Op(Add), Close], Numbers(symbols, true);
    assert Level(a, 5, ts, 0) == Ok(Parsed(3, 1)) && Level(a, 5, ts, 2) == Ok(Parsed(0, 3));
    assert Level(a, 4, ts, 0) == Ok(Parsed(3, 3));
    assert Level(a, 3, ts, 0) == Ok(Parsed(3, 3));
    assert Level(a, 2, ts, 0) == Ok(Parsed(3, 3));
    assert Level(a, 1, ts, 0) == Ok(Parsed(3, 3));
  }

  lemma StrayIsNoTree()
    ensures ParseTree([Num(3), Op(Add), Close]).Err?
  {
    var ts, t := [Num(3), Op(Add), Close], TreeAlgebra();
    assert Level(t, 5, ts, 0) == Ok(Parsed(Lit(3), 1)) && Level(t, 5, ts, 2).Err?;
    assert Level(t, 3, ts, 0).Err?;
    assert Level(t, 1, ts, 0).Err?;
  }

  // ----- exactly which token lists the first pass accepts

  predicate Starter(t: Token) { t.Open? || t.Tilde? || t == Op(Add) || t == Op(Sub) }

  predicate Stray(t: Token) { t.Close? || (t.Op? && !Starter(t)) }

  /** Is an operand due before token `i`?  Told from the tokens alone. */
  predicate OperandDue(ts: seq<Token>, i: nat)
    requires i <= |ts|
  {
    i == 0 || if OperandDue(ts, i - 1) then Starter(ts[i - 1]) else ts[i - 1].Op?
  }

  /** Every operator or closing parenthesis in operand place read as 0. */
  function Repaired(ts: seq<Token>): (rs: seq<Token>)
    ensures |rs| == |ts|
  {
    seq(|ts|, i requires 0 <= i < |ts| => if OperandDue(ts, i) && Stray(ts[i]) then Num(0) else ts[i])
  }

  function Stricter<V>(a: Algebra<V>): Algebra<V> { a.(stray := (t: Token) => Err("Undefined symbol")) }

  ghost predicate StrayIsNought<V>(a: Algebra<V>) { forall t: Token :: a.stray(t) == Ok(a.num(0)) }

  /** Parsing a list is parsing the repaired list without any leniency. */
  lemma {:induction false} PrimaryRepaired<V>(a: Algebra<V>, ts: seq<Token>, i: nat)
    requires i <= |ts| && OperandDue(ts, i) && StrayIsNought(a)
    ensures var r := Primary(a, ts, i);
      r == Primary(Stricter(a), Repaired(ts), i) && (r.Ok? ==> !OperandDue(ts, r.value.next))
    decreases |ts| - i, 0
  {
    hide Unary, Level;
    if i < |ts| {
      if ts[i].Open? {
        LevelRepaired(a, 0, ts, i + 1);
      } else if Starter(ts[i]) {
        UnaryRepaired(a, if ts[i].Tilde? then Not else if ts[i] == Op(Add) then Plus else Minus, ts, i);
      }
    }
  }

  lemma {:induction false} UnaryRepaired<V>(a: Algebra<V>, op: UnOp, ts: seq<Token>, i: nat)
    requires i < |ts| && OperandDue(ts, i + 1) && StrayIsNought(a)
    ensures var r := Unary(a, op, ts, i);
      r == Unary(Stricter(a), op, Repaired(ts), i) && (r.Ok? ==> !OperandDue(ts, r.value.next))
    decreases |ts| - i - 1, 1
  {
    PrimaryRepaired(a, ts, i + 1);
  }

  lemma {:induction false} LevelRepaired<V>(a: Algebra<V>, k: nat, ts: seq<Token>, i: nat)
    requires k <= PRIMARY && i <= |ts| && OperandDue(ts, i) && StrayIsNought(a)
    ensures var r := Level(a, k, ts, i);
      r == Level(Stricter(a), k, Repaired(ts), i) && (r.Ok? ==> !OperandDue(ts, r.value.next))
    decreases |ts| - i, 8 - k
  {
    hide Primary, Chain, OperandDue, Repaired, StrayIsNought;
    if k == PRIMARY {
      PrimaryRepaired(a, ts, i);
    } else {
      LevelRepaired(a, k + 1, ts, i);
      var p := Level(a, k + 1, ts, i);
      if p.Ok? { ChainRepaired(a, k, p.value.v, ts, p.value.next); }
    }
  }

  lemma {:induction false} ChainRepaired<V>(a: Algebra<V>, k: nat, v: V, ts: seq<Token>, i: nat)
    requires k <= PRIMARY && i <= |ts| && !OperandDue(ts, i) && StrayIsNought(a)
    ensures var r := Chain(a, k, v, ts, i);
      r == Chain(Stricter(a), k, v, Repaired(ts), i) && (r.Ok? ==> !OperandDue(ts, r.value.next))
    decreases |ts| - i, 8 - k
  {
    hide Level;
    assert OpAt(ts, i, k) <==> OpAt(Repaired(ts), i, k);
    if OpAt(ts, i, k) {
      LevelRepaired(a, k + 1, ts, i + 1);
      var p := Level(a, k + 1, ts, i + 1);
      if p.Ok? && a.bin(ts[i].op, v, p.value.v).Ok? {
        ChainRepaired(a, k, a.bin(ts[i].op, v, p.value.v).value, ts, p.value.next);
      }
    }
  }

  lemma {:induction false} ValueIgnoresStray<V>(a: Algebra<V>, e: Expr)
    ensures Value(Stricter(a), e) == Value(a, e)
  {
    match e
    case Un(_, x) => ValueIgnoresStray(a, x);
    case Bin(_, l, r) => ValueIgnoresStray(a, l); ValueIgnoresStray(a, r);
    case Paren(x) => ValueIgnoresStray(a, x);
    case _ =>
  }

  /** With undefined names allowed, a list evaluates exactly when its repaired form spells a tree that has a
      value, and then to that value. */
  lemma FirstPassReadsRepaired(ts: seq<Token>, symbols: SymbolTable)
    ensures var tree, r := ParseTree(Repaired(ts)), EvalExpr(ts, symbols, true);
      (r.Ok? <==> tree.Ok? && Eval(tree.value, symbols, true).Ok?) &&
      (r.Ok? ==> r == Eval(tree.value, symbols, true))
  {
    hide Level, OperandDue;
    var a, rs := Numbers(symbols, true), Repaired(ts);
    assert OperandDue(ts, 0) by { FirstIsDue(ts); }
    LevelRepaired(a, 0, ts, 0);
    assert Run(a, ts) == Run(Stricter(a), rs);
    RunAgrees(Stricter(a), rs);
    if ParseTree(rs).Ok? { ValueIgnoresStray(a, ParseTree(rs).value); }
  }

  lemma FirstIsDue(ts: seq<Token>)
    ensures OperandDue(ts, 0)
  {
  }

  // ----- the evaluator as the source runs it

  /** One evaluation: the tokens, and the index all parse levels share. */
  class Evaluator {
    const tokens: seq<Token>
    const meaning: Algebra<int>
    var idx: nat

    constructor (tokens: seq<Token>, symbols: SymbolTable, allowUndefined: bool)
      ensures this.tokens == tokens && meaning == Numbers(symbols, allowUndefined) && idx == 0
    {
      this.tokens, meaning, idx := tokens, Numbers(symbols, allowUndefined), 0;
    }

    /** What a parse level leaves behind agrees with the parse function's answer. */
    ghost predicate Answers(r: Result<int>, spec: Result<Parsed<int>>)
      reads this
    {
      match r
      case Ok(v) => spec == Ok(Parsed(v, idx))
      case Err(m) => spec == Err(m)
    }

    method ParsePrimary() returns (r: Result<int>)
      requires idx <= |tokens|
      modifies this
      ensures idx <= |tokens|
      ensures Answers(r, Primary(meaning, tokens, old(idx)))
      decreases |tokens| - idx, 0
    {
      if idx >= |tokens| {
        return Err("Invalid expression");
      }
      var t := tokens[idx];
      idx := idx + 1;
      match t
      case Open =>
        r := ParseLevel(0);
        if r.Ok? {
          if idx >= |tokens| || tokens[idx] != Close {
            return Err("Missing ')'");
          }
          idx := idx + 1;
          r := Ok(meaning.paren(r.value));
        }
      case Op(Add) =>
        r := ParsePrimary();
        if r.Ok? { r := Ok(meaning.un(Plus, r.value)); }
      case Op(Sub) =>
        r := ParsePrimary();
        if r.Ok? { r := Ok(meaning.un(Minus, r.value)); }
      case Tilde =>
        r := ParsePrimary();
        if r.Ok? { r := Ok(meaning.un(Not, r.value)); }
      case Num(n) => r := Ok(meaning.num(n));
      case Sym(s) => r := meaning.sym(s);
      case _ => r := meaning.stray(t);
    }

    method ParseLevel(k: nat) returns (r: Result<int>)
      requires k <= PRIMARY && idx <= |tokens|
      modifies this
      ensures idx <= |tokens|
      ensures Answers(r, Level(meaning, k, tokens, old(idx)))
      decreases |tokens| - idx, 8 - k
    {
      if k == PRIMARY {
        r := ParsePrimary();
        return;
      }
      ghost var spec := Level(meaning, k, tokens, idx);
      ghost var start := idx;
      r := ParseLevel(k + 1);
      if r.Err? { return; }
      var v := r.value;
      while OpAt(tokens, idx, k)
        invariant start < idx <= |tokens|
        invariant spec == Chain(meaning, k, v, tokens, idx)
        decreases |tokens| - idx
      {
        var op := tokens[idx].op;
        idx := idx + 1;
        r := ParseLevel(k + 1);
        if r.Err? { return; }
        r := meaning.bin(op, v, r.value);
        if r.Err? { return; }
        v := r.value;
      }
      r := Ok(v);
    }

    method Evaluate() returns (r: Result<int>)
      requires idx == 0
      modifies this
      ensures r == Run(meaning, tokens)
    {
      if |tokens| == 0 {
        return Err("Empty expression");
      }
      r := ParseLevel(0);
      if r.Ok? && idx != |tokens| {
        return Err("Unexpected token");
      }
    }
  }
}
