/** The converse for the evaluator of `unifdef`: whatever it accepts is an expression of the
    grammar, so that its decisions hold in every world; and what -K changes. */
module UnifdefExprReads {
  import opened UnifdefExpr
  import opened UnifdefExprMeaning
  import opened Wrappers

  // ----- Whatever the evaluator takes is an expression of the grammar -----

  lemma ArgsAre(ts: seq<Token>)
    ensures IsArgs(ts[..ArgsLength(ts)])
  {
    var n := ArgsLength(ts);
    if n > 0 {
      assert ts[..n][1..] == ts[1..][..n - 1];
      ClosingShrinks(ts[1..], 1);
    }
  }

  lemma {:induction false} ClosingShrinks(ts: seq<Token>, level: nat)
    requires level > 0 && ClosingAt(ts, level).Some?
    ensures ClosingAt(ts[..ClosingAt(ts, level).value], level) == ClosingAt(ts, level)
    decreases |ts|
  {
    var n := ClosingAt(ts, level).value;
    if !(ts[0] == RParen && level == 1) {
      var level' := if ts[0] == LParen then level + 1 else if ts[0] == RParen then level - 1 else level;
      ClosingShrinks(ts[1..], level');
      assert ts[..n][1..] == ts[1..][..n - 1];
    }
  }

  /** The parse `r` of `ts` read the tokens of `e` and judged it. */
  predicate Reads(c: Config, level: nat, ts: seq<Token>, r: Parse, e: Expr) {
    && r.Parsed? && Grammatical(e, level) && ts == Tokens(e) + r.rest
    && r.verdict == Judge(c, e) && r.symbolic == Symbolic(e)
  }

  lemma DefinedReads(c: Config, ts: seq<Token>) returns (e: Expr)
    requires ts != [] && ts[0] == Defined && EvalDefined(c, ts[1..]).Parsed?
    ensures Reads(c, LEVELS, ts, EvalUnary(c, ts), e)
  {
    var paren := |ts| > 1 && ts[1] == LParen;
    var k := if paren then 2 else 1;
    assert paren ==> ts[1..][1..] == ts[2..];
    if SymbolLike(ts[k..]) {
      assert ts[k..][1..] == ts[k + 1..];
      if paren { assert ts[k + 1..][1..] == ts[k + 2..]; }
      e := if ts[k].Symbol? then IsDefined(ts[k].name, paren) else Odd(paren, [ts[k]]);
    } else {
      if paren { assert ts[k..][1..] == ts[k + 1..]; }
      e := Odd(paren, []);
    }
  }

  lemma SymbolReads(c: Config, ts: seq<Token>) returns (e: Expr)
    requires ts != [] && ts[0].Symbol? && EvalSymbol(c, ts[0].name, ts[1..]).Parsed?
    ensures Reads(c, LEVELS, ts, EvalUnary(c, ts), e)
  {
    var name, rest := ts[0].name, ts[1..];
    ArgsAre(rest);
    var n := if name in c.symbols && c.symbols[name].Undef? then 0 else ArgsLength(rest);
    e := Sym(name, rest[..n]);
    SplitTokens(ts, n);
    assert EvalSymbol(c, name, rest) == Parsed(Judge(c, e), rest[n..], true);
  }

  lemma SplitTokens(ts: seq<Token>, n: nat)
    requires n < |ts|
    ensures ts == [ts[0]] + ts[1..][..n] + ts[1..][n..]
  {
  }

  lemma {:induction false} UnaryReads(c: Config, ts: seq<Token>) returns (e: Expr)
    requires EvalUnary(c, ts).Parsed?
    ensures Reads(c, LEVELS, ts, EvalUnary(c, ts), e)
    decreases |ts|, 0
  {
    assert ts == [ts[0]] + ts[1..];
    match ts[0]
    case Not =>
      var e1 := UnaryReads(c, ts[1..]);
      e := Neg(e1);
    case LParen =>
      var e1 := TableReads(c, 0, ts[1..]);
      e := Paren(e1);
      var rest := EvalTable(c, 0, ts[1..]).rest;
      assert rest == [RParen] + rest[1..];
    case Number(v, unsigned) =>
      e := Num(v, unsigned);
    case Defined =>
      e := DefinedReads(c, ts);
    case Symbol(_) =>
      e := SymbolReads(c, ts);
  }

  lemma {:induction false} InnerReads(c: Config, level: nat, ts: seq<Token>) returns (e: Expr)
    requires level < LEVELS && EvalInner(c, level, ts).Parsed?
    ensures Reads(c, level + 1, ts, EvalInner(c, level, ts), e)
    decreases |ts|, 2 * (LEVELS - level) - 1
  {
    if level + 1 < LEVELS { e := TableReads(c, level + 1, ts); } else { e := UnaryReads(c, ts); }
  }

  lemma {:induction false} HigherLevel(e: Expr, level: nat)
    requires Grammatical(e, level + 1)
    ensures Grammatical(e, level)
  {
  }

  /** The evaluator reads nothing but expressions, and judges them by their structure. */
  lemma {:induction false} TableReads(c: Config, level: nat, ts: seq<Token>) returns (e: Expr)
    requires level < LEVELS && EvalTable(c, level, ts).Parsed?
    ensures Reads(c, level, ts, EvalTable(c, level, ts), e)
    decreases |ts|, 2 * (LEVELS - level)
  {
    var left := InnerReads(c, level, ts);
    HigherLevel(left, level);
    e := LoopReads(c, level, left, EvalInner(c, level, ts).rest);
  }

  lemma {:induction false} LoopReads(c: Config, level: nat, left: Expr, ts: seq<Token>) returns (e: Expr)
    requires level < LEVELS && Grammatical(left, level)
    requires EvalLoop(c, level, Judge(c, left), ts, Symbolic(left)).Parsed?
    ensures Reads(c, level, Tokens(left) + ts, EvalLoop(c, level, Judge(c, left), ts, Symbolic(left)), e)
    decreases |ts|, 0
  {
    if !StartsOp(level, ts) {
      e := left;
    } else {
      var right := InnerReads(c, level, ts[1..]);
      var left', rest := Bin(ts[0].op, left, right), EvalInner(c, level, ts[1..]).rest;
      assert Tokens(left) + ts == Tokens(left') + rest by {
        assert ts == [ts[0]] + ts[1..];
      }
      assert EvalLoop(c, level, Judge(c, left), ts, Symbolic(left)) == EvalLoop(c, level, Judge(c, left'), rest, Symbolic(left'));
      e := LoopReads(c, level, left', rest);
    }
  }

  // ----- Macro arguments are balanced -----

  /** How many more parentheses are opened than closed. */
  function Balance(ts: seq<Token>): int {
    if ts == [] then 0
    else (if ts[0] == LParen then 1 else if ts[0] == RParen then -1 else 0) + Balance(ts[1..])
  }

  /** Every shorter front leaves a parenthesis open, but not the first `n` tokens. */
  ghost predicate ClosesAt(ts: seq<Token>, level: nat, n: nat) {
    && 0 < n <= |ts| && level + Balance(ts[..n]) == 0
    && forall k: nat | k < n :: level + Balance(ts[..k]) > 0
  }

  lemma FrontBalance(ts: seq<Token>, k: nat)
    requires ts != [] && 0 < k <= |ts|
    ensures Balance(ts[..k]) == Balance(ts[..1]) + Balance(ts[1..][..k - 1])
  {
    assert ts[..k][0] == ts[0] && ts[..k][1..] == ts[1..][..k - 1];
    assert ts[..1][1..] == [];
  }

  /** `skipargs` stops at the parenthesis that closes the first one, if there is one. */
  lemma {:induction false} ClosingIs(ts: seq<Token>, level: nat, n: nat)
    requires level > 0
    ensures ClosingAt(ts, level) == Some(n) <==> ClosesAt(ts, level, n)
    decreases |ts|
  {
    if ts != [] && n > 0 && n <= |ts| {
      var one := Balance(ts[..1]);
      assert ts[..1][1..] == [] && ts[..0] == [];
      FrontBalance(ts, n);
      if level + one == 0 {
        if n > 1 { assert level + Balance(ts[..1]) == 0; }
        assert ts[1..][..0] == [];
      } else {
        ClosingIs(ts[1..], level + one, n - 1);
        if ClosesAt(ts[1..], level + one, n - 1) {
          forall k: nat | k < n ensures level + Balance(ts[..k]) > 0 { if k > 0 { FrontBalance(ts, k); } }
        }
        if ClosesAt(ts, level, n) && n > 1 {
          forall k: nat | k < n - 1 ensures level + one + Balance(ts[1..][..k]) > 0 { FrontBalance(ts, k + 1); }
        }
      }
    }
  }

  // ----- The options -K and its absence -----

  /** Same tokens taken, and every verdict of the first is one of the second. */
  predicate DecidesLess(a: Parse, b: Parse) {
    if a.ParseError? then b.ParseError?
    else b.Parsed? && a.rest == b.rest && a.symbolic == b.symbolic && (a.verdict.Value? ==> b.verdict == a.verdict)
  }

  function Strict(c: Config): Config { c.(strictlogic := true) }

  function Lenient(c: Config): Config { c.(strictlogic := false) }

  lemma {:induction false} UnaryDecidesLess(c: Config, ts: seq<Token>)
    ensures DecidesLess(EvalUnary(Strict(c), ts), EvalUnary(Lenient(c), ts))
    decreases |ts|, 0
  {
    if ts != [] {
      if ts[0].Not? { UnaryDecidesLess(c, ts[1..]); }
      if ts[0].LParen? { TableDecidesLess(c, 0, ts[1..]); }
    }
  }

  lemma {:induction false} InnerDecidesLess(c: Config, level: nat, ts: seq<Token>)
    requires level < LEVELS
    ensures DecidesLess(EvalInner(Strict(c), level, ts), EvalInner(Lenient(c), level, ts))
    decreases |ts|, 2 * (LEVELS - level) - 1
  {
    if level + 1 < LEVELS { TableDecidesLess(c, level + 1, ts); } else { UnaryDecidesLess(c, ts); }
  }

  /** Whatever -K decides, the default decides the same way, at every level. */
  lemma {:induction false} TableDecidesLess(c: Config, level: nat, ts: seq<Token>)
    requires level < LEVELS
    ensures DecidesLess(EvalTable(Strict(c), level, ts), EvalTable(Lenient(c), level, ts))
    decreases |ts|, 2 * (LEVELS - level)
  {
    InnerDecidesLess(c, level, ts);
    var a, b := EvalInner(Strict(c), level, ts), EvalInner(Lenient(c), level, ts);
    if a.Parsed? { LoopDecidesLess(c, level, a.verdict, b.verdict, a.rest, a.symbolic); }
  }

  lemma {:induction false} LoopDecidesLess(c: Config, level: nat, a: Verdict, b: Verdict, ts: seq<Token>, symbolic: bool)
    requires level < LEVELS && (a.Value? ==> b == a)
    ensures DecidesLess(EvalLoop(Strict(c), level, a, ts, symbolic), EvalLoop(Lenient(c), level, b, ts, symbolic))
    decreases |ts|, 0
  {
    if StartsOp(level, ts) {
      InnerDecidesLess(c, level, ts[1..]);
      var x, y := EvalInner(Strict(c), level, ts[1..]), EvalInner(Lenient(c), level, ts[1..]);
      if x.Parsed? {
        LoopDecidesLess(c, level, Combine(true, ts[0].op, a, x.verdict), Combine(false, ts[0].op, b, y.verdict),
                        x.rest, symbolic || x.symbolic);
      }
    }
  }

  /** What becomes of a number: nothing, if it fits; with a `long` of 32 bits the nearest `int`, with one
      of 64 bits its low 32 bits, and -1 or 0 beyond those. */
  lemma ReadIs(c: Config, v: int)
    ensures -INT_MAX - 1 <= v <= INT_MAX ==> Read(c, v) == v
    ensures !c.wideLong && v > INT_MAX ==> Read(c, v) == INT_MAX
    ensures !c.wideLong && v < -INT_MAX - 1 ==> Read(c, v) == -INT_MAX - 1
    ensures c.wideLong && -0x8000_0000_0000_0000 <= v < 0x8000_0000_0000_0000 ==>
              -INT_MAX - 1 <= Read(c, v) <= INT_MAX && (v - Read(c, v)) % B32 == 0
    ensures c.wideLong && v >= 0x8000_0000_0000_0000 ==> Read(c, v) == -1
    ensures c.wideLong && v < -0x8000_0000_0000_0000 ==> Read(c, v) == 0
  {
  }

  // ----- What two verdicts decide -----

  /** The integers an operand can be: its value if it is known, any otherwise. */
  predicate CanBe(a: Verdict, x: int) { a.Value? ==> x == a.v }

  /** Whatever the unknown operands are, the operator gives `v`. */
  ghost predicate Forced(op: BinOp, a: Verdict, b: Verdict, v: int) {
    forall x: int, y: int | CanBe(a, x) && CanBe(b, y) :: Apply(op, x, y) == v
  }

  /** Two operands, both possible, for which the results differ. */
  lemma Undecided(op: BinOp, a: Verdict, b: Verdict) returns (x: int, y: int, x': int, y': int)
    requires a.Unknown? || b.Unknown?
    requires op.OrOr? ==> (a.Unknown? || a.v == 0) && (b.Unknown? || b.v == 0)
    requires op.AndAnd? ==> a != Value(0) && b != Value(0)
    ensures CanBe(a, x) && CanBe(b, y) && CanBe(a, x') && CanBe(b, y')
    ensures Apply(op, x, y) != Apply(op, x', y')
  {
    if op.OrOr? {
      x, y := 0, 0;
      x', y' := if a.Unknown? then 1 else 0, if b.Unknown? then 1 else 0;
    } else if op.AndAnd? {
      x, y := if a.Unknown? then 1 else a.v, if b.Unknown? then 1 else b.v;
      x', y' := if a.Unknown? then 0 else a.v, if b.Unknown? then 0 else b.v;
    } else if a.Unknown? {
      y := if b.Unknown? then 0 else b.v;
      y' := y;
      x, x' := y, if op.Le? || op.Gt? then y + 1 else y - 1;
    } else {
      x, x' := a.v, a.v;
      y, y' := x, if op.Le? || op.Gt? then x - 1 else x + 1;
    }
  }

  /** By default an operator decides all that its operands force, and nothing else. */
  lemma DecidesForced(op: BinOp, a: Verdict, b: Verdict, v: int)
    ensures Combine(false, op, a, b) == Value(v) <==> Forced(op, a, b, v)
  {
    var result := Combine(false, op, a, b);
    if result.Value? {
      var x, y := if a.Value? then a.v else 0, if b.Value? then b.v else 0;
      assert CanBe(a, x) && CanBe(b, y) && Apply(op, x, y) == result.v;
    } else {
      var x, y, x', y' := Undecided(op, a, b);
    }
  }

  /** With -K it decides what is known of both operands, and nothing else. */
  lemma StrictDecidesKnown(op: BinOp, a: Verdict, b: Verdict)
    ensures Combine(true, op, a, b).Value? <==> a.Value? && b.Value?
    ensures a.Value? && b.Value? ==> forall v :: Combine(true, op, a, b) == Value(v) <==> Forced(op, a, b, v)
  {
    if a.Value? && b.Value? { DecidesForced(op, a, b, Apply(op, a.v, b.v)); }
  }

  // ----- What the command line determines -----

  /** The value of a symbol as the command line gives it, or else `open`. */
  function Given(c: Config, name: nat, open: int): CValue {
    if name !in c.symbols then Signed(open)
    else
      match c.symbols[name]
      case Undef => Signed(0)
      case Def(None) => Signed(open)
      case Def(Some(v)) => OfMacro(v)
  }

  /** A world in which every symbol left open is undefined. */
  function LeastWorld(c: Config): World {
    World(name => name in c.symbols && c.symbols[name].Def?, (name: nat, args) => Given(c, name, 0), e => Signed(0))
  }

  lemma LeastWorldPossible(c: Config)
    ensures Possible(c, LeastWorld(c))
  {
  }

  /** Another one: every symbol left open is defined, as 1. */
  function OtherWorld(c: Config): World {
    World(name => name in c.symbols ==> c.symbols[name].Def?, (name: nat, args) => Given(c, name, 1), e => Signed(1))
  }

  lemma OtherWorldPossible(c: Config)
    ensures Possible(c, OtherWorld(c))
  {
  }

  /** A symbol, or `defined` of it, is known exactly if it has one value in all worlds the command
      line allows. */
  lemma KnownIffDetermined(c: Config, e: Expr)
    requires (e.Num? || e.IsDefined? || e.Sym?) && Evaluable(c, e)
    ensures Judge(c, e).Value? <==>
            forall w, w' | Possible(c, w) && Possible(c, w') :: ValueIn(e, w) == ValueIn(e, w')
  {
    LeastWorldPossible(c);
    OtherWorldPossible(c);
    if Judge(c, e).Unknown? { assert ValueIn(e, LeastWorld(c)) != ValueIn(e, OtherWorld(c)); }
  }

  // ----- Whole lines -----

  /** A decided `#if` line whose numbers survive is an expression that has that truth value in
      every possible world. */
  lemma DecisionSound(c: Config, killconsts: bool, ts: seq<Token>) returns (e: Expr)
    requires Decide(c, killconsts, ts) != DontKnow && AllKept(c, Numerals(c, ts))
    ensures Tokens(e) == ts && Grammatical(e, 0)
    ensures forall w | Possible(c, w) :: TrueIn(e, w) == (Decide(c, killconsts, ts) == DecidedTrue)
  {
    e := TableReads(c, 0, ts);
    assert Tokens(e) + [] == Tokens(e);
    forall w | Possible(c, w) ensures TrueIn(e, w) == (Decide(c, killconsts, ts) == DecidedTrue) {
      var n := JudgeSound(c, e, w, Numerals(c, ts));
      assert Kept(c, n, ZERO);
    }
  }

  /** A line that is an expression the evaluator can take is decided exactly by its verdict, and not
      at all if it mentions no symbol, unless -k is given. */
  lemma DecisionComplete(c: Config, killconsts: bool, e: Expr)
    requires Grammatical(e, 0) && Evaluable(c, e)
    ensures Decide(c, killconsts, Tokens(e)) ==
            if Judge(c, e).Unknown? || !(Symbolic(e) || killconsts) then DontKnow
            else if Judge(c, e).v != 0 then DecidedTrue
            else DecidedFalse
  {
    TableFinds(c, 0, e, []);
    assert Tokens(e) + [] == Tokens(e);
  }

  /** Dropping -K only decides more lines, and none differently. */
  lemma StrictDecidesLess(c: Config, killconsts: bool, ts: seq<Token>)
    requires Decide(Strict(c), killconsts, ts) != DontKnow
    ensures Decide(Lenient(c), killconsts, ts) == Decide(Strict(c), killconsts, ts)
  {
    TableDecidesLess(c, 0, ts);
  }
}
