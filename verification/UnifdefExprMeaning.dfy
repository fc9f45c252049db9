/** What the expressions of `#if` lines mean in C (section 6.10.1 of ISO/IEC 9899:1999, with
    the grammar of sections 6.5.3 and 6.5.8 to 6.5.14), and the proof that the evaluator of
    `unifdef` parses them so and never answers wrongly. */
module UnifdefExprMeaning {
  import opened UnifdefExpr
  import opened Wrappers

  /** A parsed expression; parentheses are kept, so that its tokens are determined. `Odd` is
      `defined` without a name, which the evaluator lets pass as unknown. */
  datatype Expr =
    | Num(v: nat, unsigned: bool)
    | IsDefined(name: nat, paren: bool)
    | Sym(name: nat, args: seq<Token>)
    | Neg(e: Expr)
    | Paren(e: Expr)
    | Bin(op: BinOp, l: Expr, r: Expr)
    | Odd(paren: bool, junk: seq<Token>)

  function Tokens(e: Expr): (ts: seq<Token>)
    ensures ts != []
  {
    match e
    case Num(v, unsigned) => [Number(v, unsigned)]
    case IsDefined(name, paren) =>
      if paren then [Defined, LParen, Symbol(name), RParen] else [Defined, Symbol(name)]
    case Sym(name, args) => [Symbol(name)] + args
    case Neg(e1) => [Not] + Tokens(e1)
    case Paren(e1) => [LParen] + Tokens(e1) + [RParen]
    case Bin(op, l, r) => Tokens(l) + [Op(op)] + Tokens(r)
    case Odd(paren, junk) => if paren then [Defined, LParen] + junk + [RParen] else [Defined] + junk
  }

  /** The grammar by levels: `||` at 0, `&&` at 1, equality at 2, relations at 3, unary
      expressions at 4. The left operand may be of the operator's own level, the right one
      must be of the next: operators associate to the left. */
  predicate Grammatical(e: Expr, level: nat) {
    match e
    case Num(_, _) => true
    case IsDefined(_, _) => true
    case Sym(_, args) => IsArgs(args)
    case Neg(e1) => Grammatical(e1, LEVELS)
    case Paren(e1) => Grammatical(e1, 0)
    case Bin(op, l, r) =>
      level <= LevelOf(op) && Grammatical(l, LevelOf(op)) && Grammatical(r, LevelOf(op) + 1)
    case Odd(paren, junk) => junk == [] || (|junk| == 1 && (junk[0].Number? || junk[0].Defined?))
  }

  /** Does the expression mention a symbol? */
  predicate Symbolic(e: Expr) {
    match e
    case Num(_, _) => false
    case Neg(e1) => Symbolic(e1)
    case Paren(e1) => Symbolic(e1)
    case Bin(_, l, r) => Symbolic(l) || Symbolic(r)
    case _ => true
  }

  // ----- Meaning -----

  /** A value in an `#if` expression: `intmax_t` or `uintmax_t`, of 64 bits. */
  datatype CValue = CValue(v: int, unsigned: bool)

  const INTMAX := 0x7FFF_FFFF_FFFF_FFFF

  function Signed(v: int): CValue { CValue(v, false) }

  /** A constant is unsigned by its suffix, or because no signed type holds it. */
  function OfLiteral(v: nat, suffix: bool): CValue { CValue(v, suffix || v > INTMAX) }

  /** The value of a macro that stands for a number, with or without a minus sign. */
  function OfMacro(v: int): CValue {
    if v >= 0 then OfLiteral(v, false)
    else if -v > INTMAX then CValue(v % B64, true)
    else Signed(v)
  }

  /** The operand as a comparison takes it: unsigned, if either operand is. */
  function Operand(a: CValue, unsigned: bool): int { if unsigned then a.v % B64 else a.v }

  predicate Less(a: CValue, b: CValue) {
    Operand(a, a.unsigned || b.unsigned) < Operand(b, a.unsigned || b.unsigned)
  }

  predicate Equal(a: CValue, b: CValue) {
    Operand(a, a.unsigned || b.unsigned) == Operand(b, a.unsigned || b.unsigned)
  }

  function ApplyC(op: BinOp, a: CValue, b: CValue): CValue {
    Signed(AsInt(
      match op
      case OrOr => a.v != 0 || b.v != 0
      case AndAnd => a.v != 0 && b.v != 0
      case EqEq => Equal(a, b)
      case NotEq => !Equal(a, b)
      case Le => !Less(b, a)
      case Ge => !Less(a, b)
      case Lt => Less(a, b)
      case Gt => Less(b, a)))
  }

  /** One way the symbols may turn out to be defined. */
  datatype World = World(defined: nat -> bool, value: (nat, seq<Token>) -> CValue, odd: Expr -> CValue)

  /** The world agrees with the command line. */
  ghost predicate Possible(c: Config, w: World) {
    forall name | name in c.symbols ::
      && w.defined(name) == c.symbols[name].Def?
      && (c.symbols[name].Undef? ==> forall args :: w.value(name, args) == Signed(0))
      && (c.symbols[name].Def? && c.symbols[name].value.Some? ==>
            forall args :: w.value(name, args) == OfMacro(c.symbols[name].value.value))
  }

  /** The value of the expression in a world. */
  function ValueIn(e: Expr, w: World): CValue {
    match e
    case Num(v, unsigned) => OfLiteral(v, unsigned)
    case IsDefined(name, _) => Signed(AsInt(w.defined(name)))
    case Sym(name, args) => w.value(name, args)
    case Neg(e1) => Signed(AsInt(ValueIn(e1, w).v == 0))
    case Paren(e1) => ValueIn(e1, w)
    case Bin(op, l, r) => ApplyC(op, ValueIn(l, w), ValueIn(r, w))
    case Odd(_, _) => w.odd(e)
  }

  predicate TrueIn(e: Expr, w: World) { ValueIn(e, w).v != 0 }

  /** What the evaluator makes of an expression. */
  function Judge(c: Config, e: Expr): Verdict {
    match e
    case Num(v, _) => Value(Read(c, v))
    case IsDefined(name, _) =>
      if name in c.symbols then Value(AsInt(c.symbols[name].Def?)) else Unknown
    case Sym(name, _) =>
      if name !in c.symbols then Unknown
      else if c.symbols[name].Undef? then Value(0)
      else if c.symbols[name].value.None? then Unknown
      else Value(Read(c, c.symbols[name].value.value))
    case Neg(e1) => Negate(Judge(c, e1))
    case Paren(e1) => Judge(c, e1)
    case Bin(op, l, r) => Combine(c.strictlogic, op, Judge(c, l), Judge(c, r))
    case Odd(_, _) => Unknown
  }

  // ----- Numbers that survive the evaluator's `int` -----

  /** The numbers of a line: constants, and -D values of the symbols on it. */
  datatype Numeral = Literal(value: nat, unsigned: bool) | Macro(v: int) {
    function Written(): int { if Literal? then value else v }
    function Meant(): CValue { if Literal? then OfLiteral(value, unsigned) else OfMacro(v) }
  }

  const ZERO := Literal(0, false)
  const ONE := Literal(1, false)

  /** The evaluator compares the two numbers as C does. */
  predicate Kept(c: Config, a: Numeral, b: Numeral) {
    && (Read(c, a.Written()) < Read(c, b.Written()) <==> Less(a.Meant(), b.Meant()))
    && (Read(c, a.Written()) == Read(c, b.Written()) <==> Equal(a.Meant(), b.Meant()))
  }

  predicate AllKept(c: Config, ns: set<Numeral>) {
    forall a, b | a in ns && b in ns :: Kept(c, a, b)
  }

  function NumeralsAt(c: Config, t: Token): set<Numeral> {
    if t.Number? then {Literal(t.value, t.unsigned)}
    else if t.Symbol? && t.name in c.symbols && c.symbols[t.name].Def? && c.symbols[t.name].value.Some? then
      {Macro(c.symbols[t.name].value.value)}
    else {}
  }

  /** The numbers of a line, with the results of operators. */
  function Numerals(c: Config, ts: seq<Token>): (ns: set<Numeral>)
    ensures ZERO in ns && ONE in ns
  {
    if ts == [] then {ZERO, ONE} else NumeralsAt(c, ts[0]) + Numerals(c, ts[1..])
  }

  lemma {:induction false} NumeralsAppend(c: Config, a: seq<Token>, b: seq<Token>)
    ensures Numerals(c, a + b) == Numerals(c, a) + Numerals(c, b)
    decreases |a|
  {
    if a == [] {
      assert a + b == b;
    } else {
      assert (a + b)[0] == a[0] && (a + b)[1..] == a[1..] + b;
      NumeralsAppend(c, a[1..], b);
    }
  }

  function Truth01(b: bool): Numeral { if b then ONE else ZERO }

  /** The result of an operator, the operands being the numbers `m` and `n`. */
  lemma OperatorKept(c: Config, op: BinOp, m: Numeral, n: Numeral)
    requires Kept(c, m, n) && Kept(c, n, m) && Kept(c, m, ZERO) && Kept(c, n, ZERO)
    ensures ApplyC(op, m.Meant(), n.Meant()) == Signed(Apply(op, Read(c, m.Written()), Read(c, n.Written())))
  {
  }

  /** When the evaluator knows the value of an expression, that is one of the numbers of the line
      or the result of an operator, and C finds the same number in every possible world. */
  lemma {:induction false} JudgeSound(c: Config, e: Expr, w: World, ns: set<Numeral>) returns (n: Numeral)
    requires Possible(c, w) && Judge(c, e).Value? && Numerals(c, Tokens(e)) <= ns && AllKept(c, ns)
    ensures n in ns && Judge(c, e).v == Read(c, n.Written()) && ValueIn(e, w) == n.Meant()
    decreases e
  {
    match e
    case Num(v, unsigned) =>
      n := Literal(v, unsigned);
      assert Tokens(e)[0] == Number(v, unsigned);
    case IsDefined(name, _) =>
      n := Truth01(c.symbols[name].Def?);
    case Sym(name, _) =>
      n := if c.symbols[name].Undef? then ZERO else Macro(c.symbols[name].value.value);
      assert Tokens(e)[0] == Symbol(name);
    case Neg(e1) =>
      NumeralsAppend(c, [Not], Tokens(e1));
      var n1 := JudgeSound(c, e1, w, ns);
      assert Kept(c, n1, ZERO);
      n := Truth01(Judge(c, e1).v == 0);
    case Paren(e1) =>
      NumeralsAppend(c, [LParen] + Tokens(e1), [RParen]);
      NumeralsAppend(c, [LParen], Tokens(e1));
      n := JudgeSound(c, e1, w, ns);
    case Bin(op, l, r) =>
      NumeralsAppend(c, Tokens(l) + [Op(op)], Tokens(r));
      NumeralsAppend(c, Tokens(l), [Op(op)]);
      n := OperationSound(c, op, l, r, w, ns);
    case Odd(_, _) =>
      assert false;
  }

  /** What is known of an operand: the value, if known, is that of the number `n`. */
  predicate Tracks(c: Config, a: Verdict, x: CValue, n: Numeral) {
    a.Value? ==> a.v == Read(c, n.Written()) && x == n.Meant() && Kept(c, n, ZERO)
  }

  /** Only `||` and `&&` can be decided by one operand, and then C needs no other. */
  lemma ShortCircuit(c: Config, op: BinOp, a: Verdict, b: Verdict, x: CValue, y: CValue)
    requires a.Unknown? || b.Unknown?
    requires Combine(c.strictlogic, op, a, b).Value?
    requires (a.Value? ==> (a.v == 0 <==> x.v == 0)) && (b.Value? ==> (b.v == 0 <==> y.v == 0))
    ensures Combine(c.strictlogic, op, a, b).v == AsInt(op.OrOr?)
    ensures ApplyC(op, x, y) == Signed(AsInt(op.OrOr?))
  {
    assert op.OrOr? || op.AndAnd?;
  }

  lemma BothKnown(strictlogic: bool, op: BinOp, v: int, u: int)
    ensures Combine(strictlogic, op, Value(v), Value(u)) == Value(Apply(op, v, u))
    ensures Apply(op, v, u) == AsInt(Apply(op, v, u) != 0)
  {
  }

  lemma KeptTruth(c: Config, n: Numeral)
    requires Kept(c, n, ZERO)
    ensures Read(c, n.Written()) == 0 <==> n.Meant().v == 0
  {
  }

  lemma CombineSound(c: Config, op: BinOp, a: Verdict, b: Verdict, x: CValue, y: CValue, m: Numeral, n: Numeral)
    returns (t: bool)
    requires Tracks(c, a, x, m) && Tracks(c, b, y, n) && Combine(c.strictlogic, op, a, b).Value?
    requires a.Value? && b.Value? ==> Kept(c, m, n) && Kept(c, n, m)
    ensures Combine(c.strictlogic, op, a, b).v == AsInt(t) && ApplyC(op, x, y) == Signed(AsInt(t))
  {
    if a.Value? && b.Value? {
      OperatorKept(c, op, m, n);
      BothKnown(c.strictlogic, op, a.v, b.v);
      t := Apply(op, a.v, b.v) != 0;
    } else {
      if a.Value? { KeptTruth(c, m); }
      if b.Value? { KeptTruth(c, n); }
      ShortCircuit(c, op, a, b, x, y);
      t := op.OrOr?;
    }
  }

  lemma {:induction false} OperationSound(c: Config, op: BinOp, l: Expr, r: Expr, w: World, ns: set<Numeral>) returns (n: Numeral)
    requires Possible(c, w) && AllKept(c, ns) && ZERO in ns && ONE in ns
    requires Combine(c.strictlogic, op, Judge(c, l), Judge(c, r)).Value?
    requires Numerals(c, Tokens(l)) <= ns && Numerals(c, Tokens(r)) <= ns
    ensures n in ns && Combine(c.strictlogic, op, Judge(c, l), Judge(c, r)).v == Read(c, n.Written())
    ensures ApplyC(op, ValueIn(l, w), ValueIn(r, w)) == n.Meant()
    decreases Bin(op, l, r), 0
  {
    var m1, m2 := ZERO, ZERO;
    if Judge(c, l).Value? { m1 := JudgeSound(c, l, w, ns); }
    if Judge(c, r).Value? { m2 := JudgeSound(c, r, w, ns); }
    assert Kept(c, m1, ZERO) && Kept(c, m2, ZERO) && Kept(c, m1, m2) && Kept(c, m2, m1);
    var t := CombineSound(c, op, Judge(c, l), Judge(c, r), ValueIn(l, w), ValueIn(r, w), m1, m2);
    n := Truth01(t);
  }

  // ----- The evaluator finds the parse of every expression -----

  /** Expressions the evaluator can take: no -D value that is not a number, no arguments
      after a symbol given with -U, and `defined` followed by a name. */
  predicate Evaluable(c: Config, e: Expr) {
    match e
    case Num(_, _) => true
    case IsDefined(_, _) => true
    case Sym(name, args) =>
      name in c.symbols ==> if c.symbols[name].Undef? then args == [] else c.symbols[name].value.Some?
    case Neg(e1) => Evaluable(c, e1)
    case Paren(e1) => Evaluable(c, e1)
    case Bin(_, l, r) => Evaluable(c, l) && Evaluable(c, r)
    case Odd(_, _) => false
  }

  /** What may follow an expression of a level: no arguments, no operator that binds as tightly. */
  predicate Follows(rest: seq<Token>, level: nat) {
    rest == [] || (rest[0] != LParen && (rest[0].Op? ==> LevelOf(rest[0].op) < level))
  }

  lemma {:induction false} ClosingExtends(ts: seq<Token>, rest: seq<Token>, level: nat)
    requires level > 0 && ClosingAt(ts, level).Some?
    ensures ClosingAt(ts + rest, level) == ClosingAt(ts, level)
    decreases |ts|
  {
    if !(ts[0] == RParen && level == 1) {
      var level' := if ts[0] == LParen then level + 1 else if ts[0] == RParen then level - 1 else level;
      assert (ts + rest)[1..] == ts[1..] + rest;
      ClosingExtends(ts[1..], rest, level');
    }
  }

  lemma ArgsFound(args: seq<Token>, rest: seq<Token>)
    requires IsArgs(args) && (rest == [] || rest[0] != LParen)
    ensures ArgsLength(args + rest) == |args| && (args + rest)[|args|..] == rest
  {
    if args == [] {
      assert args + rest == rest;
    } else {
      assert (args + rest)[1..] == args[1..] + rest;
      ClosingExtends(args[1..], rest, 1);
    }
  }

  lemma DefinedFinds(c: Config, name: nat, paren: bool, rest: seq<Token>)
    ensures EvalDefined(c, (if paren then [LParen, Symbol(name), RParen] else [Symbol(name)]) + rest)
         == Parsed(Judge(c, IsDefined(name, paren)), rest, true)
  {
    if paren {
      var ts := [LParen, Symbol(name), RParen] + rest;
      assert ts[1..] == [Symbol(name), RParen] + rest;
      assert ts[1..][1..] == [RParen] + rest;
      assert ts[1..][1..][1..] == rest;
    } else {
      var ts := [Symbol(name)] + rest;
      assert ts[1..] == rest;
    }
  }

  lemma SymbolFinds(c: Config, name: nat, args: seq<Token>, rest: seq<Token>)
    requires IsArgs(args) && Evaluable(c, Sym(name, args)) && (rest == [] || rest[0] != LParen)
    ensures EvalSymbol(c, name, args + rest) == Parsed(Judge(c, Sym(name, args)), rest, true)
  {
    ArgsFound(args, rest);
    if args == [] { assert args + rest == rest; }
  }

  lemma TailIs(t: Token, ts: seq<Token>, rest: seq<Token>)
    ensures ([t] + ts + rest)[0] == t && ([t] + ts + rest)[1..] == ts + rest
  {
  }

  lemma LeafFinds(c: Config, e: Expr, rest: seq<Token>)
    requires e.Num? || e.IsDefined? || e.Sym?
    requires Grammatical(e, LEVELS) && Evaluable(c, e) && Follows(rest, LEVELS)
    ensures EvalUnary(c, Tokens(e) + rest) == Parsed(Judge(c, e), rest, Symbolic(e))
  {
    match e
    case Num(_, _) =>
      assert (Tokens(e) + rest)[1..] == rest;
    case IsDefined(name, paren) =>
      var ts := if paren then [LParen, Symbol(name), RParen] else [Symbol(name)];
      assert Tokens(e) == [Defined] + ts;
      TailIs(Defined, ts, rest);
      DefinedFinds(c, name, paren, rest);
    case Sym(name, args) =>
      TailIs(Symbol(name), args, rest);
      SymbolFinds(c, name, args, rest);
  }

  lemma NegationFound(c: Config, e: Expr, rest: seq<Token>)
    requires EvalUnary(c, Tokens(e) + rest) == Parsed(Judge(c, e), rest, Symbolic(e))
    ensures EvalUnary(c, Tokens(Neg(e)) + rest) == Parsed(Judge(c, Neg(e)), rest, Symbolic(Neg(e)))
  {
    TailIs(Not, Tokens(e), rest);
  }

  lemma ParensFound(c: Config, e: Expr, rest: seq<Token>)
    requires EvalTable(c, 0, Tokens(e) + ([RParen] + rest)) == Parsed(Judge(c, e), [RParen] + rest, Symbolic(e))
    ensures EvalUnary(c, Tokens(Paren(e)) + rest) == Parsed(Judge(c, Paren(e)), rest, Symbolic(Paren(e)))
  {
    TailIs(LParen, Tokens(e) + [RParen], rest);
    assert Tokens(Paren(e)) == [LParen] + (Tokens(e) + [RParen]);
    assert Tokens(e) + [RParen] + rest == Tokens(e) + ([RParen] + rest);
    assert ([RParen] + rest)[1..] == rest;
  }

  lemma {:induction false} UnaryFinds(c: Config, e: Expr, rest: seq<Token>)
    requires Grammatical(e, LEVELS) && Evaluable(c, e) && Follows(rest, LEVELS)
    ensures EvalUnary(c, Tokens(e) + rest) == Parsed(Judge(c, e), rest, Symbolic(e))
    decreases e, 0
  {
    if e.Neg? {
      UnaryFinds(c, e.e, rest);
      NegationFound(c, e.e, rest);
    } else if e.Paren? {
      TableFinds(c, 0, e.e, [RParen] + rest);
      ParensFound(c, e.e, rest);
    } else {
      LeafFinds(c, e, rest);
    }
  }

  /** Reading an expression of a level leads to the loop of that level. */
  lemma {:induction false} TableReaches(c: Config, level: nat, e: Expr, rest: seq<Token>)
    requires level < LEVELS && Grammatical(e, level) && Evaluable(c, e) && Follows(rest, level + 1)
    ensures EvalTable(c, level, Tokens(e) + rest) == EvalLoop(c, level, Judge(c, e), rest, Symbolic(e))
    decreases e, 2 * (LEVELS - level)
  {
    if e.Bin? && LevelOf(e.op) == level {
      var rest1 := [Op(e.op)] + (Tokens(e.r) + rest);
      assert Tokens(e) + rest == Tokens(e.l) + rest1;
      assert rest1[1..] == Tokens(e.r) + rest;
      TableReaches(c, level, e.l, rest1);
      InnerFinds(c, level, e.r, rest);
    } else {
      InnerFinds(c, level, e, rest);
    }
  }

  lemma {:induction false} InnerFinds(c: Config, level: nat, e: Expr, rest: seq<Token>)
    requires level < LEVELS && Grammatical(e, level + 1) && Evaluable(c, e) && Follows(rest, level + 1)
    ensures EvalInner(c, level, Tokens(e) + rest) == Parsed(Judge(c, e), rest, Symbolic(e))
    decreases e, 2 * (LEVELS - level) - 1
  {
    if level + 1 < LEVELS { TableReaches(c, level + 1, e, rest); } else { UnaryFinds(c, e, rest); }
  }

  /** Every expression of the grammar is read back with its own structure. */
  lemma {:induction false} TableFinds(c: Config, level: nat, e: Expr, rest: seq<Token>)
    requires level < LEVELS && Grammatical(e, level) && Evaluable(c, e) && Follows(rest, level)
    ensures EvalTable(c, level, Tokens(e) + rest) == Parsed(Judge(c, e), rest, Symbolic(e))
    decreases e, 2 * LEVELS + 1
  {
    TableReaches(c, level, e, rest);
  }
}
