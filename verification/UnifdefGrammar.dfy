/** The grammar of `#if` expressions is unambiguous: the tokens of an expression have no other
    parse, so that a line means one thing. */
module UnifdefGrammar {
  import opened UnifdefExpr
  import opened UnifdefExprMeaning
  import opened Wrappers

  // ----- A parser that builds the expression -----

  /** An expression, and the tokens after it. */
  datatype Tree = Tree(e: Expr, rest: seq<Token>)

  function DefinedTree(ts: seq<Token>): (r: Option<Tree>)
    ensures r.Some? ==> |r.value.rest| <= |ts|
  {
    var paren := ts != [] && ts[0] == LParen;
    var ts1 := if paren then ts[1..] else ts;
    var junk := if SymbolLike(ts1) then ts1[..1] else [];
    var e := if SymbolLike(ts1) && ts1[0].Symbol? then IsDefined(ts1[0].name, paren) else Odd(paren, junk);
    var ts2 := ts1[|junk|..];
    if !paren then Some(Tree(e, ts2))
    else if ts2 != [] && ts2[0] == RParen then Some(Tree(e, ts2[1..]))
    else None
  }

  function UnaryTree(ts: seq<Token>): (r: Option<Tree>)
    ensures r.Some? ==> |r.value.rest| < |ts|
    decreases |ts|, 0
  {
    if ts == [] then None
    else
      match ts[0]
      case Not =>
        (match UnaryTree(ts[1..])
         case None => None
         case Some(t) => Some(Tree(Neg(t.e), t.rest)))
      case LParen =>
        (match TableTree(0, ts[1..])
         case None => None
         case Some(t) =>
           if t.rest != [] && t.rest[0] == RParen then Some(Tree(Paren(t.e), t.rest[1..])) else None)
      case Number(v, unsigned) => Some(Tree(Num(v, unsigned), ts[1..]))
      case Defined => DefinedTree(ts[1..])
      case Symbol(name) =>
        var n := ArgsLength(ts[1..]);
        Some(Tree(Sym(name, ts[1..][..n]), ts[1..][n..]))
      case _ => None
  }

  function InnerTree(level: nat, ts: seq<Token>): (r: Option<Tree>)
    requires level < LEVELS
    ensures r.Some? ==> |r.value.rest| < |ts|
    decreases |ts|, 2 * (LEVELS - level) - 1
  {
    if level + 1 < LEVELS then TableTree(level + 1, ts) else UnaryTree(ts)
  }

  function TableTree(level: nat, ts: seq<Token>): (r: Option<Tree>)
    requires level < LEVELS
    ensures r.Some? ==> |r.value.rest| < |ts|
    decreases |ts|, 2 * (LEVELS - level)
  {
    match InnerTree(level, ts)
    case None => None
    case Some(t) => LoopTree(level, t.e, t.rest)
  }

  function LoopTree(level: nat, left: Expr, ts: seq<Token>): (r: Option<Tree>)
    requires level < LEVELS
    ensures r.Some? ==> |r.value.rest| <= |ts|
    decreases |ts|, 0
  {
    if !StartsOp(level, ts) then Some(Tree(left, ts))
    else
      match InnerTree(level, ts[1..])
      case None => None
      case Some(t) => LoopTree(level, Bin(ts[0].op, left, t.e), t.rest)
  }

  // ----- It finds every expression -----

  /** What may stand after an expression of a level: a closing parenthesis, or an operator that
      binds less tightly. */
  predicate Ends(rest: seq<Token>, level: nat) {
    rest == [] || rest[0] == RParen || (rest[0].Op? && LevelOf(rest[0].op) < level)
  }

  /** The tokens between `defined` and what follows, without parentheses. */
  function Named(e: Expr): seq<Token>
    requires e.IsDefined? || e.Odd?
  {
    if e.Odd? then e.junk else [Symbol(e.name)]
  }

  lemma SplitAt(a: seq<Token>, b: seq<Token>)
    ensures (a + b)[..|a|] == a && (a + b)[|a|..] == b
  {
  }

  lemma BareBuilt(e: Expr, rest: seq<Token>)
    requires (e.IsDefined? || e.Odd?) && !e.paren && Grammatical(e, LEVELS) && Ends(rest, LEVELS)
    ensures DefinedTree(Named(e) + rest) == Some(Tree(e, rest))
  {
    SplitAt(Named(e), rest);
    if Named(e) == [] { assert Named(e) + rest == rest; }
  }

  lemma ParenthesizedBuilt(e: Expr, rest: seq<Token>)
    requires (e.IsDefined? || e.Odd?) && e.paren && Grammatical(e, LEVELS)
    ensures DefinedTree([LParen] + Named(e) + ([RParen] + rest)) == Some(Tree(e, rest))
  {
    TailIs(LParen, Named(e), [RParen] + rest);
    SplitAt(Named(e), [RParen] + rest);
    assert ([RParen] + rest)[1..] == rest;
    if Named(e) == [] { assert Named(e) + ([RParen] + rest) == [RParen] + rest; }
  }

  lemma AfterDefined(ts: seq<Token>)
    ensures UnaryTree([Defined] + ts) == DefinedTree(ts)
  {
    assert ([Defined] + ts)[1..] == ts;
  }

  lemma BareTokens(e: Expr, rest: seq<Token>)
    requires (e.IsDefined? || e.Odd?) && !e.paren
    ensures Tokens(e) + rest == [Defined] + (Named(e) + rest)
  {
    assert Tokens(e) == [Defined] + Named(e);
  }

  lemma ParenthesizedTokens(e: Expr, rest: seq<Token>)
    requires (e.IsDefined? || e.Odd?) && e.paren
    ensures Tokens(e) + rest == [Defined] + ([LParen] + Named(e) + ([RParen] + rest))
  {
    assert Tokens(e) == [Defined, LParen] + Named(e) + [RParen];
  }

  lemma DefinedBuilt(e: Expr, rest: seq<Token>)
    requires (e.IsDefined? || e.Odd?) && Grammatical(e, LEVELS) && Ends(rest, LEVELS)
    ensures UnaryTree(Tokens(e) + rest) == Some(Tree(e, rest))
  {
    if e.paren {
      ParenthesizedBuilt(e, rest);
      ParenthesizedTokens(e, rest);
      AfterDefined([LParen] + Named(e) + ([RParen] + rest));
    } else {
      BareBuilt(e, rest);
      BareTokens(e, rest);
      AfterDefined(Named(e) + rest);
    }
  }

  lemma LeafBuilt(e: Expr, rest: seq<Token>)
    requires e.Num? || e.Sym?
    requires Grammatical(e, LEVELS) && Ends(rest, LEVELS)
    ensures UnaryTree(Tokens(e) + rest) == Some(Tree(e, rest))
  {
    match e
    case Num(_, _) =>
      assert (Tokens(e) + rest)[1..] == rest;
    case Sym(name, args) =>
      TailIs(Symbol(name), args, rest);
      ArgsFound(args, rest);
      assert (args + rest)[..|args|] == args;
  }

  lemma ParensBuilt(e: Expr, rest: seq<Token>)
    requires TableTree(0, Tokens(e) + ([RParen] + rest)) == Some(Tree(e, [RParen] + rest))
    ensures UnaryTree(Tokens(Paren(e)) + rest) == Some(Tree(Paren(e), rest))
  {
    TailIs(LParen, Tokens(e) + [RParen], rest);
    assert Tokens(Paren(e)) == [LParen] + (Tokens(e) + [RParen]);
    assert Tokens(e) + [RParen] + rest == Tokens(e) + ([RParen] + rest);
    assert ([RParen] + rest)[1..] == rest;
  }

  lemma {:induction false} UnaryBuilt(e: Expr, rest: seq<Token>)
    requires Grammatical(e, LEVELS) && Ends(rest, LEVELS)
    ensures UnaryTree(Tokens(e) + rest) == Some(Tree(e, rest))
    decreases e, 0
  {
    match e
    case Neg(e1) =>
      UnaryBuilt(e1, rest);
      TailIs(Not, Tokens(e1), rest);
    case Paren(e1) =>
      TableBuilt(0, e1, [RParen] + rest);
      ParensBuilt(e1, rest);
    case IsDefined(_, _) =>
      DefinedBuilt(e, rest);
    case Odd(_, _) =>
      DefinedBuilt(e, rest);
    case _ =>
      LeafBuilt(e, rest);
  }

  lemma {:induction false} TableLeads(level: nat, e: Expr, rest: seq<Token>)
    requires level < LEVELS && Grammatical(e, level) && Ends(rest, level + 1)
    ensures TableTree(level, Tokens(e) + rest) == LoopTree(level, e, rest)
    decreases e, 2 * (LEVELS - level)
  {
    if e.Bin? && LevelOf(e.op) == level {
      var rest1 := [Op(e.op)] + (Tokens(e.r) + rest);
      assert Tokens(e) + rest == Tokens(e.l) + rest1;
      assert rest1[1..] == Tokens(e.r) + rest;
      TableLeads(level, e.l, rest1);
      InnerBuilt(level, e.r, rest);
    } else {
      InnerBuilt(level, e, rest);
    }
  }

  lemma {:induction false} InnerBuilt(level: nat, e: Expr, rest: seq<Token>)
    requires level < LEVELS && Grammatical(e, level + 1) && Ends(rest, level + 1)
    ensures InnerTree(level, Tokens(e) + rest) == Some(Tree(e, rest))
    decreases e, 2 * (LEVELS - level) - 1
  {
    if level + 1 < LEVELS { TableLeads(level + 1, e, rest); } else { UnaryBuilt(e, rest); }
  }

  /** Every expression of the grammar is built again from its tokens. */
  lemma {:induction false} TableBuilt(level: nat, e: Expr, rest: seq<Token>)
    requires level < LEVELS && Grammatical(e, level) && Ends(rest, level)
    ensures TableTree(level, Tokens(e) + rest) == Some(Tree(e, rest))
    decreases e, 2 * LEVELS + 1
  {
    TableLeads(level, e, rest);
  }

  /** No tokens have two parses. */
  lemma ParseUnique(e: Expr, e': Expr)
    requires Grammatical(e, 0) && Grammatical(e', 0) && Tokens(e) == Tokens(e')
    ensures e == e'
  {
    TableBuilt(0, e, []);
    TableBuilt(0, e', []);
    assert Tokens(e) + [] == Tokens(e) && Tokens(e') + [] == Tokens(e');
  }
}
