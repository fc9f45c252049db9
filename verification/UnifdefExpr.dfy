/** The expression evaluator of `scripts/unifdef.c`: precedence climbing over a table of
    operators, with three-valued results. It works on tokens here. */
module UnifdefExpr {
  import opened Wrappers

  datatype BinOp = OrOr | AndAnd | EqEq | NotEq | Le | Ge | Lt | Gt

  /** A number is an integer constant of C: its value, and whether it has a suffix `u`. */
  datatype Token =
    | Not
    | LParen
    | RParen
    | Number(value: nat, unsigned: bool)
    | Defined
    | Symbol(name: nat)
    | Op(op: BinOp)
    | Other

  /** What the command line says of a symbol: -U, or -D with a value that is a number or not. */
  datatype Known = Undef | Def(value: Option<int>)

  /** The options: known symbols, and -K. And the host: whether its `long` has 64 bits or 32. */
  datatype Config = Config(symbols: map<nat, Known>, strictlogic: bool, wideLong: bool)

  const INT_MAX := 0x7FFF_FFFF

  /** `strtol`: values out of range become the nearest `long`. */
  function Strtol(wideLong: bool, v: int): int {
    var limit := if wideLong then 0x8000_0000_0000_0000 else 0x8000_0000;
    if v >= limit then limit - 1 else if v < -limit then -limit else v
  }

  /** A `long` assigned to an `int` keeps its low 32 bits. */
  function ToInt(v: int): (r: int)
    ensures -INT_MAX - 1 <= r <= INT_MAX && (-INT_MAX - 1 <= v <= INT_MAX ==> r == v)
  {
    (v + 0x8000_0000) % B32 - 0x8000_0000
  }

  /** The `int` the evaluator makes of a number. */
  function Read(c: Config, v: int): int { ToInt(Strtol(c.wideLong, v)) }

  /** The result of evaluating a (sub)expression: LT_IF, or the value that makes it
      LT_TRUE or LT_FALSE. */
  datatype Verdict = Unknown | Value(v: int)

  datatype Parse = Parsed(verdict: Verdict, rest: seq<Token>, symbolic: bool) | ParseError

  const LEVELS: nat := 4

  /** The row of `eval_ops` an operator stands in. */
  function LevelOf(op: BinOp): (level: nat)
    ensures level < LEVELS
  {
    match op
    case OrOr => 0
    case AndAnd => 1
    case EqEq => 2
    case NotEq => 2
    case _ => 3
  }

  function AsInt(b: bool): int { if b then 1 else 0 }

  /** The value of a binary operator on known operands. */
  function Apply(op: BinOp, a: int, b: int): int {
    match op
    case OrOr => AsInt(a != 0 || b != 0)
    case AndAnd => AsInt(a != 0 && b != 0)
    case EqEq => AsInt(a == b)
    case NotEq => AsInt(a != b)
    case Le => AsInt(a <= b)
    case Ge => AsInt(a >= b)
    case Lt => AsInt(a < b)
    case Gt => AsInt(a > b)
  }

  /** The `op_` functions. */
  function Combine(strictlogic: bool, op: BinOp, a: Verdict, b: Verdict): Verdict {
    if op.OrOr? && !strictlogic && ((a.Value? && a.v != 0) || (b.Value? && b.v != 0)) then Value(1)
    else if op.AndAnd? && !strictlogic && (a == Value(0) || b == Value(0)) then Value(0)
    else if a.Unknown? || b.Unknown? then Unknown
    else Value(Apply(op, a.v, b.v))
  }

  // ----- Macro arguments -----

  /** The number of tokens up to the one that closes `level` open parentheses, if any. */
  function ClosingAt(ts: seq<Token>, level: nat): (r: Option<nat>)
    requires level > 0
    ensures r.Some? ==> 0 < r.value <= |ts|
  {
    if ts == [] then None
    else if ts[0] == RParen && level == 1 then Some(1)
    else
      var level' := if ts[0] == LParen then level + 1 else if ts[0] == RParen then level - 1 else level;
      match ClosingAt(ts[1..], level')
      case None => None
      case Some(n) => Some(n + 1)
  }

  /** `skipargs`: how many tokens of macro arguments follow. */
  function ArgsLength(ts: seq<Token>): (n: nat)
    ensures n <= |ts|
  {
    if ts == [] || ts[0] != LParen then 0
    else
      match ClosingAt(ts[1..], 1)
      case None => 0
      case Some(n) => n + 1
  }

  predicate IsArgs(args: seq<Token>) {
    args == [] || (args[0] == LParen && ClosingAt(args[1..], 1) == Some(|args| - 1))
  }

  // ----- The evaluator as a function of the tokens -----

  /** How many tokens `findsym` and `skipsym` take as a symbol: names, and anything that
      looks like one. */
  predicate SymbolLike(ts: seq<Token>) {
    ts != [] && (ts[0].Symbol? || ts[0].Number? || ts[0].Defined?)
  }

  function DefinedVerdict(c: Config, ts: seq<Token>): Verdict {
    if ts != [] && ts[0].Symbol? && ts[0].name in c.symbols then Value(AsInt(c.symbols[ts[0].name].Def?))
    else Unknown
  }

  function EvalDefined(c: Config, ts: seq<Token>): (r: Parse)
    ensures r.Parsed? ==> |r.rest| <= |ts|
  {
    var paren := ts != [] && ts[0] == LParen;
    var ts1 := if paren then ts[1..] else ts;
    var ts2 := if SymbolLike(ts1) then ts1[1..] else ts1;
    if !paren then Parsed(DefinedVerdict(c, ts1), ts2, true)
    else if ts2 != [] && ts2[0] == RParen then Parsed(DefinedVerdict(c, ts1), ts2[1..], true)
    else ParseError
  }

  function EvalSymbol(c: Config, name: nat, ts: seq<Token>): (r: Parse)
    ensures r.Parsed? ==> |r.rest| <= |ts|
  {
    if name !in c.symbols then Parsed(Unknown, ts[ArgsLength(ts)..], true)
    else
      match c.symbols[name]
      case Undef => Parsed(Value(0), ts, true)
      case Def(None) => ParseError
      case Def(Some(v)) => Parsed(Value(Read(c, v)), ts[ArgsLength(ts)..], true)
  }

  function Negate(v: Verdict): Verdict {
    if v.Unknown? then Unknown else Value(AsInt(v.v == 0))
  }

  function EvalUnary(c: Config, ts: seq<Token>): (r: Parse)
    ensures r.Parsed? ==> |r.rest| < |ts|
    decreases |ts|, 0
  {
    if ts == [] then ParseError
    else
      match ts[0]
      case Not =>
        (match EvalUnary(c, ts[1..])
         case ParseError => ParseError
         case Parsed(v, rest, symbolic) => Parsed(Negate(v), rest, symbolic))
      case LParen =>
        (match EvalTable(c, 0, ts[1..])
         case ParseError => ParseError
         case Parsed(v, rest, symbolic) =>
           if rest != [] && rest[0] == RParen then Parsed(v, rest[1..], symbolic) else ParseError)
      case Number(v, _) => Parsed(Value(Read(c, v)), ts[1..], false)
      case Defined => EvalDefined(c, ts[1..])
      case Symbol(name) => EvalSymbol(c, name, ts[1..])
      case _ => ParseError
  }

  /** The inner function of a row of the table. */
  function EvalInner(c: Config, level: nat, ts: seq<Token>): (r: Parse)
    requires level < LEVELS
    ensures r.Parsed? ==> |r.rest| < |ts|
    decreases |ts|, 2 * (LEVELS - level) - 1
  {
    if level + 1 < LEVELS then EvalTable(c, level + 1, ts) else EvalUnary(c, ts)
  }

  function EvalTable(c: Config, level: nat, ts: seq<Token>): (r: Parse)
    requires level < LEVELS
    ensures r.Parsed? ==> |r.rest| < |ts|
    decreases |ts|, 2 * (LEVELS - level)
  {
    match EvalInner(c, level, ts)
    case ParseError => ParseError
    case Parsed(v, rest, symbolic) => EvalLoop(c, level, v, rest, symbolic)
  }

  predicate StartsOp(level: nat, ts: seq<Token>) {
    ts != [] && ts[0].Op? && LevelOf(ts[0].op) == level
  }

  /** The rest of the loop of `eval_table`, its left operand evaluated. */
  function EvalLoop(c: Config, level: nat, left: Verdict, ts: seq<Token>, symbolic: bool): (r: Parse)
    requires level < LEVELS
    ensures r.Parsed? ==> |r.rest| <= |ts|
    decreases |ts|, 0
  {
    if !StartsOp(level, ts) then Parsed(left, ts, symbolic)
    else
      match EvalInner(c, level, ts[1..])
      case ParseError => ParseError
      case Parsed(v, rest, symbolic') =>
        EvalLoop(c, level, Combine(c.strictlogic, ts[0].op, left, v), rest, symbolic || symbolic')
  }

  /** The outcome for an `#if` or `#elif` line: LT_IF, LT_TRUE or LT_FALSE. */
  datatype Decision = DontKnow | DecidedTrue | DecidedFalse

  /** `ifeval` and what `parseline` makes of its result: an expression without symbols is
      left alone unless -k is given, and anything after it makes the line unknown. */
  function Decide(c: Config, killconsts: bool, ts: seq<Token>): Decision {
    match EvalTable(c, 0, ts)
    case ParseError => DontKnow
    case Parsed(v, rest, symbolic) =>
      if v.Unknown? || rest != [] || !(symbolic || killconsts) then DontKnow
      else if v.v != 0 then DecidedTrue
      else DecidedFalse
  }

  // ----- The evaluator as written: a cursor, a value passed by reference, a flag -----

  /** The line types an evaluation function returns. */
  datatype LineVerdict = LT_IF | LT_TRUE | LT_FALSE | LT_ERROR

  function Truth(v: int): LineVerdict { if v != 0 then LT_TRUE else LT_FALSE }

  /** The returned line type and value stand for the verdict `v`; with LT_IF the value
      is whatever was there before. */
  predicate Stands(lt: LineVerdict, val: int, v: Verdict) {
    match v
    case Unknown => lt == LT_IF
    case Value(x) => lt == Truth(x) && val == x
  }

  /** What a call returns and leaves behind, against the function on tokens. */
  predicate Agrees(r: Parse, ts: seq<Token>, lt: LineVerdict, val: int, cp: nat, was: bool, constexpr: bool) {
    match r
    case ParseError => lt == LT_ERROR
    case Parsed(v, rest, symbolic) =>
      Stands(lt, val, v) && cp <= |ts| && ts[cp..] == rest && constexpr == (was && !symbolic)
  }

  method SkipArgs(ts: seq<Token>, start: nat) returns (cp: nat)
    requires start <= |ts|
    ensures cp == start + ArgsLength(ts[start..])
  {
    if start == |ts| || ts[start] != LParen { return start; }
    cp := start;
    var level: int := 0;
    ghost var goal := ClosingAt(ts[start + 1..], 1);
    var first := true;
    while first || (level != 0 && cp < |ts|)
      invariant start <= cp <= |ts| && (first <==> cp == start)
      invariant first ==> level == 0
      invariant !first && level == 0 ==> goal == Some(cp - start - 1)
      invariant !first ==> level >= 0
      invariant !first && level > 0 ==>
        goal == match ClosingAt(ts[cp..], level) { case None => None case Some(n) => Some(n + cp - start - 1) }
      decreases |ts| - cp
    {
      if !first { assert ts[cp..][1..] == ts[cp + 1..]; }
      if ts[cp] == LParen { level := level + 1; }
      if ts[cp] == RParen { level := level - 1; }
      cp := cp + 1;
      first := false;
    }
    assert ts[start..][1..] == ts[start + 1..];
    if level != 0 { cp := start; }
  }

  /** The `defined` branch of `eval_unary`, after the keyword. */
  method EvDefined(c: Config, ts: seq<Token>, start: nat, valIn: int)
    returns (lt: LineVerdict, val: int, cp: nat)
    requires start <= |ts|
    ensures Agrees(EvalDefined(c, ts[start..]), ts, lt, val, cp, true, false)
  {
    val, cp := valIn, start;
    var defparen := cp < |ts| && ts[cp] == LParen;
    if defparen {
      assert ts[start..][1..] == ts[start + 1..];
      cp := cp + 1;
    }
    lt := LT_IF;
    if cp < |ts| && ts[cp].Symbol? && ts[cp].name in c.symbols {
      val := if c.symbols[ts[cp].name].Def? then 1 else 0;
      lt := Truth(val);
    }
    if SymbolLike(ts[cp..]) {
      assert ts[cp..][1..] == ts[cp + 1..];
      cp := cp + 1;
    }
    if defparen {
      if cp == |ts| || ts[cp] != RParen { return LT_ERROR, val, cp; }
      assert ts[cp..][1..] == ts[cp + 1..];
      cp := cp + 1;
    }
  }

  /** The symbol branch of `eval_unary`, after the symbol. */
  method EvSymbol(c: Config, name: nat, ts: seq<Token>, start: nat, valIn: int)
    returns (lt: LineVerdict, val: int, cp: nat)
    requires start <= |ts|
    ensures Agrees(EvalSymbol(c, name, ts[start..]), ts, lt, val, cp, true, false)
  {
    val, cp := valIn, start;
    var args := SkipArgs(ts, start);
    if name !in c.symbols {
      lt, cp := LT_IF, args;
    } else if c.symbols[name].Undef? {
      val, lt := 0, LT_FALSE;
    } else if c.symbols[name].value.None? {
      lt := LT_ERROR;
    } else {
      val, cp := Read(c, c.symbols[name].value.value), args;
      lt := Truth(val);
    }
  }

  method EvUnary(c: Config, ts: seq<Token>, start: nat, valIn: int, was: bool)
    returns (lt: LineVerdict, val: int, cp: nat, constexpr: bool)
    requires start <= |ts|
    ensures Agrees(EvalUnary(c, ts[start..]), ts, lt, val, cp, was, constexpr)
    decreases |ts| - start, 0
  {
    val, cp, constexpr := valIn, start, was;
    if start == |ts| { return LT_ERROR, val, cp, constexpr; }
    assert ts[start..][1..] == ts[start + 1..];
    match ts[start]
    case Not =>
      lt, val, cp, constexpr := EvUnary(c, ts, start + 1, val, constexpr);
      if lt == LT_TRUE || lt == LT_FALSE {
        val := if val == 0 then 1 else 0;
        lt := Truth(val);
      }
    case LParen =>
      lt, val, cp, constexpr := EvTable(c, 0, ts, start + 1, val, constexpr);
      if lt != LT_ERROR {
        if cp < |ts| && ts[cp] == RParen {
          assert ts[cp..][1..] == ts[cp + 1..];
          cp := cp + 1;
        } else {
          lt := LT_ERROR;
        }
      }
    case Number(v, _) =>
      val, cp := Read(c, v), start + 1;
      lt := Truth(val);
    case Defined =>
      lt, val, cp := EvDefined(c, ts, start + 1, val);
      constexpr := false;
    case Symbol(name) =>
      lt, val, cp := EvSymbol(c, name, ts, start + 1, val);
      constexpr := false;
    case _ =>
      lt := LT_ERROR;
  }

  method EvInner(c: Config, level: nat, ts: seq<Token>, start: nat, valIn: int, was: bool)
    returns (lt: LineVerdict, val: int, cp: nat, constexpr: bool)
    requires start <= |ts| && level < LEVELS
    ensures Agrees(EvalInner(c, level, ts[start..]), ts, lt, val, cp, was, constexpr)
    decreases |ts| - start, 2 * (LEVELS - level) - 1
  {
    if level + 1 < LEVELS {
      lt, val, cp, constexpr := EvTable(c, level + 1, ts, start, valIn, was);
    } else {
      lt, val, cp, constexpr := EvUnary(c, ts, start, valIn, was);
    }
  }

  /** `op_or`, `op_and` and the comparisons, which all end in `op_strict`. */
  method Operate(c: Config, op: BinOp, valp: int, at: LineVerdict, bt: LineVerdict, b: int, ghost l: Verdict, ghost r: Verdict)
    returns (lt: LineVerdict, val: int)
    requires Stands(at, valp, l) && Stands(bt, b, r)
    ensures Stands(lt, val, Combine(c.strictlogic, op, l, r))
  {
    if op.OrOr? && !c.strictlogic && (at == LT_TRUE || bt == LT_TRUE) {
      lt, val := LT_TRUE, 1;
    } else if op.AndAnd? && !c.strictlogic && (at == LT_FALSE || bt == LT_FALSE) {
      lt, val := LT_FALSE, 0;
    } else if at == LT_IF || bt == LT_IF {
      lt, val := LT_IF, valp;
    } else {
      val := Apply(op, valp, b);
      lt := Truth(val);
    }
  }

  /** `eval_table`. The value of a right operand is an uninitialised variable until the
      inner function sets it. */
  method EvTable(c: Config, level: nat, ts: seq<Token>, start: nat, valIn: int, was: bool)
    returns (lt: LineVerdict, val: int, cp: nat, constexpr: bool)
    requires start <= |ts| && level < LEVELS
    ensures Agrees(EvalTable(c, level, ts[start..]), ts, lt, val, cp, was, constexpr)
    decreases |ts| - start, 2 * (LEVELS - level)
  {
    lt, val, cp, constexpr := EvInner(c, level, ts, start, valIn, was);
    if lt == LT_ERROR { return; }
    ghost var goal := EvalTable(c, level, ts[start..]);
    ghost var inner := EvalInner(c, level, ts[start..]);
    ghost var left, symbolic := inner.verdict, inner.symbolic;
    while cp < |ts| && ts[cp].Op? && LevelOf(ts[cp].op) == level
      invariant start < cp <= |ts| && Stands(lt, val, left) && constexpr == (was && !symbolic)
      invariant EvalLoop(c, level, left, ts[cp..], symbolic) == goal
      decreases |ts| - cp
    {
      var op := ts[cp].op;
      assert ts[cp..][1..] == ts[cp + 1..];
      ghost var right := EvalInner(c, level, ts[cp + 1..]);
      var stale: int := *;
      var rt, v;
      rt, v, cp, constexpr := EvInner(c, level, ts, cp + 1, stale, constexpr);
      if rt == LT_ERROR { return LT_ERROR, val, cp, constexpr; }
      lt, val := Operate(c, op, val, lt, rt, v, left, right.verdict);
      left, symbolic := Combine(c.strictlogic, op, left, right.verdict), symbolic || right.symbolic;
    }
  }

  /** `ifeval`, then the check for text after the expression. It never returns LT_ERROR. */
  method IfEval(c: Config, killconsts: bool, ts: seq<Token>) returns (lt: LineVerdict)
    ensures lt == match Decide(c, killconsts, ts) { case DontKnow => LT_IF case DecidedTrue => LT_TRUE case DecidedFalse => LT_FALSE }
  {
    assert ts[0..] == ts;
    var ret, val, cp, constexpr := EvTable(c, 0, ts, 0, 0, !killconsts);
    lt := if constexpr then LT_IF else if ret == LT_ERROR then LT_IF else ret;
    if ret != LT_ERROR && cp < |ts| { lt := LT_IF; }
  }
}
