/** What operand expressions mean: which operators bind first, and what each of them computes. */
module ExpressionLaws {
  import opened Results
  import opened Expression

  // ----- grouping

  /** How loosely an operator binds: `*`, `/` and `%` first, then `+` and `-`, the shifts, `&`, `^` and `|`. */
  function Looseness(op: BinOp): nat {
    if op.Mul? || op.Div? || op.Mod? then 1
    else if op.Add? || op.Sub? then 2
    else if op.Shl? || op.Shr? then 3
    else if op.And? then 4
    else if op.Xor? then 5
    else 6
  }

  /** A number, a name, a parenthesis, or one of these behind signs and `~`. */
  predicate Operand(e: Expr) {
    match e
    case Un(_, x) => Operand(x)
    case Bin(_, _, _) => false
    case Paren(x) => Shaped(x, 0)
    case _ => true
  }

  lemma OperandFits(e: Expr, k: nat)
    requires Operand(e)
    ensures Shaped(e, k)
  {
  }

  /** An expression spelled by its tokens evaluates as its tree. */
  lemma SpelledEvaluates(e: Expr, symbols: SymbolTable, allow: bool)
    requires Shaped(e, 0)
    ensures EvalExpr(Flatten(e), symbols, allow) == Eval(e, symbols, allow)
  {
    hide Run, Flatten, Shaped;
    ParseIffSpelled(Flatten(e), e);
    RunAgrees(Numbers(symbols, allow), Flatten(e));
  }

  /** Of two operators between three operands the tighter one is applied first, and the left one if they bind
      alike. */
  lemma Grouping(x: Expr, o: BinOp, y: Expr, p: BinOp, z: Expr, symbols: SymbolTable, allow: bool)
    requires Operand(x) && Operand(y) && Operand(z)
    ensures EvalExpr(Flatten(x) + [Op(o)] + Flatten(y) + [Op(p)] + Flatten(z), symbols, allow) ==
      Eval(if Looseness(o) <= Looseness(p) then Bin(p, Bin(o, x, y), z) else Bin(o, x, Bin(p, y, z)), symbols, allow)
  {
    hide Eval, EvalExpr;
    var ts := Flatten(x) + [Op(o)] + Flatten(y) + [Op(p)] + Flatten(z);
    var e := if Looseness(o) <= Looseness(p) then Bin(p, Bin(o, x, y), z) else Bin(o, x, Bin(p, y, z));
    OperandFits(x, LevelOf(o));
    OperandFits(y, LevelOf(o) + 1);
    OperandFits(y, LevelOf(p));
    OperandFits(z, LevelOf(p) + 1);
    OperandFits(z, LevelOf(o) + 1);
    SpelledTokens(x, o, y, p, z);
    SpelledEvaluates(e, symbols, allow);
  }

  lemma SpelledTokens(x: Expr, o: BinOp, y: Expr, p: BinOp, z: Expr)
    ensures var ts := Flatten(x) + [Op(o)] + Flatten(y) + [Op(p)] + Flatten(z);
      Flatten(Bin(p, Bin(o, x, y), z)) == ts && Flatten(Bin(o, x, Bin(p, y, z))) == ts
  {
    BinTokens(o, x, y);
    BinTokens(p, y, z);
    BinTokens(p, Bin(o, x, y), z);
    BinTokens(o, x, Bin(p, y, z));
    hide Flatten;
    Regrouped(Flatten(x), [Op(o)], Flatten(y), [Op(p)], Flatten(z));
  }

  lemma BinTokens(o: BinOp, x: Expr, y: Expr)
    ensures Flatten(Bin(o, x, y)) == Flatten(x) + [Op(o)] + Flatten(y)
  {
  }

  lemma Regrouped(a: seq<Token>, b: seq<Token>, c: seq<Token>, d: seq<Token>, e: seq<Token>)
    ensures a + b + (c + d + e) == a + b + c + d + e
  {
  }

  /** The same for plain numbers. */
  lemma NumbersGroup(a: nat, o: BinOp, b: nat, p: BinOp, c: nat, symbols: SymbolTable, allow: bool)
    ensures EvalExpr([Num(a), Op(o), Num(b), Op(p), Num(c)], symbols, allow) ==
      if Looseness(o) <= Looseness(p) then (var v :- Apply(o, a, b); Apply(p, v, c))
      else (var v :- Apply(p, b, c); Apply(o, a, v))
  {
    hide Apply, EvalExpr, Looseness;
    Grouping(Lit(a), o, Lit(b), p, Lit(c), symbols, allow);
    assert Flatten(Lit(a)) + [Op(o)] + Flatten(Lit(b)) + [Op(p)] + Flatten(Lit(c)) ==
      [Num(a), Op(o), Num(b), Op(p), Num(c)];
    BinValue(o, Lit(a), Lit(b), symbols, allow);
    BinValue(p, Lit(b), Lit(c), symbols, allow);
    BinValue(p, Bin(o, Lit(a), Lit(b)), Lit(c), symbols, allow);
    BinValue(o, Lit(a), Bin(p, Lit(b), Lit(c)), symbols, allow);
    LitValue(a, symbols, allow);
    LitValue(b, symbols, allow);
    LitValue(c, symbols, allow);
  }

  /** A name stands for its value; an undefined one is 0 where such names are allowed, and an error elsewhere. */
  lemma NamesMean(n: string, symbols: SymbolTable, allow: bool)
    ensures EvalExpr([Sym(n)], symbols, allow) ==
      if n in symbols then Ok(symbols[n]) else if allow then Ok(0) else Err("Undefined symbol")
  {
    SpelledEvaluates(Name(n), symbols, allow);
  }

  lemma LitValue(n: nat, symbols: SymbolTable, allow: bool)
    ensures Eval(Lit(n), symbols, allow) == Ok(n)
  {
  }

  lemma BinValue(o: BinOp, x: Expr, y: Expr, symbols: SymbolTable, allow: bool)
    ensures Eval(Bin(o, x, y), symbols, allow) ==
      (var v :- Eval(x, symbols, allow); var w :- Eval(y, symbols, allow); Apply(o, v, w))
  {
    hide Apply;
  }

  /** A sign or `~` applies to the operand behind it alone. */
  lemma SignsBindFirst(u: UnOp, x: Expr, o: BinOp, y: Expr, symbols: SymbolTable, allow: bool)
    requires Operand(x) && Operand(y)
    ensures var sign := if u.Plus? then Op(Add) else if u.Minus? then Op(Sub) else Tilde;
      EvalExpr([sign] + Flatten(x) + [Op(o)] + Flatten(y), symbols, allow) == Eval(Bin(o, Un(u, x), y), symbols, allow)
  {
    hide Eval, EvalExpr;
    OperandFits(x, PRIMARY);
    OperandFits(y, LevelOf(o) + 1);
    SpelledEvaluates(Bin(o, Un(u, x), y), symbols, allow);
  }

  // ----- arithmetic

  /** Addition counts up, subtraction undoes it, and multiplication adds again and again. */
  lemma Sums(v: int, r: int)
    ensures Apply(Add, v, 0) == Ok(v) && Apply(Mul, v, 0) == Ok(0)
    ensures var s := Apply(Add, v, r);
      s.Ok? && Apply(Add, v, r + 1) == Ok(s.value + 1) && Apply(Sub, s.value, r) == Ok(v)
    ensures var m := Apply(Mul, v, r); m.Ok? && Apply(Mul, v, r + 1) == Apply(Add, m.value, v)
    ensures Apply(Add, v, ApplyUnary(Minus, v)) == Ok(0) && ApplyUnary(Plus, v) == v
  {
  }

  function Abs(v: int): nat { if v < 0 then -v else v }

  /** Division fails for 0 alone.  Otherwise quotient times divisor and remainder give the dividend back, and the
      remainder is smaller than the divisor and has the dividend's sign. */
  lemma Divides(v: int, r: int)
    ensures Apply(Div, v, r).Ok? <==> r != 0
    ensures Apply(Mod, v, r).Ok? <==> r != 0
    ensures r != 0 ==>
      var q, m := Apply(Div, v, r).value, Apply(Mod, v, r).value;
      v == q * r + m && Abs(m) < Abs(r) && (m > 0 ==> v > 0) && (m < 0 ==> v < 0)
  {
    hide Quotient;
    if r != 0 {
      Leftover(v, r);
    }
  }

  /** What quotient and divisor leave of the dividend. */
  lemma Leftover(v: int, r: int)
    requires r != 0
    ensures var m := v - Quotient(v, r) * r; Abs(m) < Abs(r) && (m > 0 ==> v > 0) && (m < 0 ==> v < 0)
  {
    hide Quotient;
    var q := QuotientIs(v, r);
    LeftoverOf(v, r, q, Quotient(v, r));
  }

  lemma LeftoverOf(v: int, r: int, q: int, signed: int)
    requires r != 0 && q >= 0 && 0 <= Abs(v) - q * Abs(r) < Abs(r)
    requires signed == if (v < 0) == (r < 0) then q else -q
    ensures var m := v - signed * r; Abs(m) < Abs(r) && (m > 0 ==> v > 0) && (m < 0 ==> v < 0)
  {
    SignedProduct(v < 0, r, q);
    Remains(v, Abs(r), q * Abs(r), signed * r);
  }

  lemma Remains(v: int, d: int, p: int, x: int)
    requires p >= 0 && 0 <= Abs(v) - p < d && x == if v < 0 then -p else p
    ensures var m := v - x; Abs(m) < d && (m > 0 ==> v > 0) && (m < 0 ==> v < 0)
  {
  }

  lemma SignedProduct(negative: bool, r: int, q: int)
    requires r != 0
    ensures (if negative == (r < 0) then q else -q) * r == if negative then -(q * Abs(r)) else q * Abs(r)
  {
    Signs(q, r);
  }

  lemma QuotientIs(v: int, r: int) returns (q: int)
    requires r != 0
    ensures q >= 0 && 0 <= Abs(v) - q * Abs(r) < Abs(r)
    ensures Quotient(v, r) == if (v < 0) == (r < 0) then q else -q
  {
    Negative(Abs(v), Abs(r));
    Euclid(Abs(v), Abs(r));
    q := Abs(v) / Abs(r);
  }

  lemma Euclid(n: int, d: int)
    requires d > 0
    ensures n == n / d * d + n % d && 0 <= n % d < d
  {
  }

  lemma Negative(n: int, d: int)
    requires n >= 0 && d > 0
    ensures n / (-d) == -(n / d)
  {
  }

  lemma Signs(q: int, d: int)
    ensures (-q) * d == -(q * d) && q * (-d) == -(q * d) && (-q) * (-d) == q * d
  {
  }

  // ----- bits

  /** Bit `k` of a number in two's complement. */
  predicate Bit(v: int, k: nat)
    decreases k
  {
    if k == 0 then v % 2 == 1 else Bit(v / 2, k - 1)
  }

  lemma HalfOfMod(v: int, p: nat)
    requires p > 0
    ensures v % (2 * p) / 2 == v / 2 % p && v % (2 * p) % 2 == v % 2
  {
    var q, m := v / (2 * p), v % (2 * p);
    assert v == 2 * (p * q) + m;
    assert v / 2 == p * q + m / 2;
    Remainder(p, q, m / 2);
  }

  lemma Remainder(p: nat, q: int, m: nat)
    requires m < p
    ensures (p * q + m) % p == m && (p * q + m) / p == q
  {
    var v := p * q + m;
    Euclid(v, p);
    SmallMultiple(v / p - q, p);
  }

  lemma SmallMultiple(d: int, p: int)
    requires p > 0
    ensures d >= 1 ==> d * p >= p
    ensures d <= -1 ==> d * p <= -p
  {
  }

  /** Cutting a number to `n` bits keeps those bits and clears the others. */
  lemma {:induction false} CutBits(v: int, n: nat, k: nat)
    ensures Bit(v % Pow2(n), k) <==> k < n && Bit(v, k)
    decreases k
  {
    if n == 0 {
      NoBits(k);
    } else {
      HalfOfMod(v, Pow2(n - 1));
      if k > 0 { CutBits(v / 2, n - 1, k - 1); }
    }
  }

  lemma {:induction false} NoBits(k: nat)
    ensures !Bit(0, k)
  {
    if k > 0 { NoBits(k - 1); }
  }

  lemma {:induction false} BitwiseBits(op: BinOp, a: int, b: int, n: nat, k: nat)
    requires op.And? || op.Or? || op.Xor?
    ensures Bit(Bitwise(op, a, b, n), k) <==>
      k < n && (if op.And? then Bit(a, k) && Bit(b, k) else if op.Or? then Bit(a, k) || Bit(b, k)
                else Bit(a, k) != Bit(b, k))
    decreases n
  {
    if n == 0 {
      NoBits(k);
    } else {
      var low, rest := BitOf(op, a % 2, b % 2), Bitwise(op, a / 2, b / 2, n - 1);
      assert (low + 2 * rest) / 2 == rest && (low + 2 * rest) % 2 == low;
      if k > 0 { BitwiseBits(op, a / 2, b / 2, n - 1, k - 1); }
    }
  }

  lemma Pow2At(n: nat)
    requires n == 16 || n == 32
    ensures Pow2(n) == if n == 16 then 0x1_0000 else 0x1_0000_0000
  {
    assert Pow2(8) == 256;
    assert Pow2(12) == 4096;
    assert Pow2(16) == 0x1_0000;
    if n == 32 {
      assert Pow2(20) == 0x10_0000;
      assert Pow2(24) == 0x100_0000;
      assert Pow2(28) == 0x1000_0000;
    }
  }

  /** `&`, `|` and `^` work on the low 32 bits, one by one, and give a signed 32-bit number. */
  lemma BitByBit(op: BinOp, v: int, r: int, k: nat)
    requires (op.And? || op.Or? || op.Xor?) && k < 32
    ensures Apply(op, v, r).Ok?
    ensures var x := Apply(op, v, r).value;
      -0x8000_0000 <= x < 0x8000_0000 &&
      (Bit(x, k) <==> if op.And? then Bit(v, k) && Bit(r, k) else if op.Or? then Bit(v, k) || Bit(r, k)
                      else Bit(v, k) != Bit(r, k))
  {
    hide Bit, Bitwise;
    var n := Bitwise(op, v, r, 32);
    BitwiseBits(op, v, r, 32, k);
    Pow2At(32);
    CutBits(n, 32, k);
    CutBits(Signed32(n), 32, k);
    assert Signed32(n) % 0x1_0000_0000 == n % 0x1_0000_0000;
  }

  lemma {:induction false} ShiftedUp(v: int, s: nat, k: nat)
    ensures Bit(v * Pow2(s), k) <==> k >= s && Bit(v, k - s)
    decreases s
  {
    if s > 0 {
      var x := v * Pow2(s - 1);
      assert v * Pow2(s) == 2 * x;
      assert 2 * x / 2 == x && 2 * x % 2 == 0;
      if k > 0 { ShiftedUp(v, s - 1, k - 1); }
    }
  }

  lemma {:induction false} ShiftedDown(v: nat, s: nat, k: nat)
    ensures Bit(v / Pow2(s), k) <==> Bit(v, k + s)
    decreases s
  {
    if s > 0 {
      HalfFirst(v, Pow2(s - 1));
      ShiftedDown(v / 2, s - 1, k);
    }
  }

  lemma HalfFirst(v: nat, p: nat)
    requires p > 0
    ensures v / (2 * p) == v / 2 / p
  {
    var q, m := v / (2 * p), v % (2 * p);
    assert v == 2 * (p * q) + m;
    assert v / 2 == p * q + m / 2;
    Remainder(p, q, m / 2);
  }

  /** Shifts work on 32 bits by a count modulo 32, and give the low 16 bits of what comes out. */
  lemma ShiftsUp(v: int, r: int, k: nat)
    requires k < 16
    ensures Apply(Shl, v, r).Ok? && 0 <= Apply(Shl, v, r).value < 0x1_0000
    ensures Bit(Apply(Shl, v, r).value, k) <==> k >= r % 32 && Bit(v, k - r % 32)
  {
    hide Bit, Quotient, Bitwise, Signed32;
    Pow2At(16);
    CutBits(v * Pow2(r % 32), 16, k);
    ShiftedUp(v, r % 32, k);
  }

  lemma ShiftsDown(v: int, r: int, k: nat)
    requires k < 16
    ensures Apply(Shr, v, r).Ok? && 0 <= Apply(Shr, v, r).value < 0x1_0000
    ensures Bit(Apply(Shr, v, r).value, k) <==> k + r % 32 < 32 && Bit(v, k + r % 32)
  {
    hide Bit, Quotient, Bitwise, Signed32;
    var s, u := r % 32, v % 0x1_0000_0000;
    Pow2At(16);
    Pow2At(32);
    CutBits(u / Pow2(s), 16, k);
    ShiftedDown(u, s, k);
    CutBits(v, 32, k + s);
  }

  /** `~` turns the low 16 bits round. */
  lemma Complement(v: int, k: nat)
    requires k < 16
    ensures 0 <= ApplyUnary(Not, v) < 0x1_0000
    ensures Bit(ApplyUnary(Not, v), k) <==> !Bit(v, k)
  {
    hide Bit;
    Pow2At(16);
    CutBits(-v - 1, 16, k);
    Inverse(v, k);
  }

  lemma {:induction false} Inverse(v: int, k: nat)
    ensures Bit(-v - 1, k) <==> !Bit(v, k)
    decreases k
  {
    assert (-v - 1) / 2 == -(v / 2) - 1 && (-v - 1) % 2 == 1 - v % 2;
    if k > 0 { Inverse(v / 2, k - 1); }
  }
}
