/** The numbers the evaluator of `unifdef` can be trusted with. It keeps every number in an
    `int`, where C has `intmax_t` and `uintmax_t`: its decisions are right exactly when all
    the numbers in use compare as in C. */
module UnifdefNumbers {
  import opened Wrappers
  import opened UnifdefExpr
  import opened UnifdefExprMeaning
  import opened UnifdefExprReads

  // ----- The exact condition, for any constants a file may contain -----

  /** All constants among the tokens are from `lits`. */
  ghost predicate WrittenIn(lits: iset<Numeral>, ts: seq<Token>) {
    forall t | t in ts && t.Number? :: Literal(t.value, t.unsigned) in lits
  }

  predicate IsMacro(c: Config, n: Numeral) {
    n.Macro? && exists name | name in c.symbols :: c.symbols[name] == Def(Some(n.v))
  }

  /** The numbers that may meet in an expression: constants, -D values, results of operators. */
  ghost predicate InUse(c: Config, lits: iset<Numeral>, n: Numeral) {
    n == ZERO || n == ONE || (n.Literal? && n in lits) || IsMacro(c, n)
  }

  ghost predicate NumbersKept(c: Config, lits: iset<Numeral>) {
    forall a, b | InUse(c, lits, a) && InUse(c, lits, b) :: Kept(c, a, b)
  }

  /** If the line is decided, then as in the world `w`. */
  predicate DecidedRightly(c: Config, killconsts: bool, e: Expr, w: World) {
    Decide(c, killconsts, Tokens(e)) != DontKnow ==>
      TrueIn(e, w) == (Decide(c, killconsts, Tokens(e)) == DecidedTrue)
  }

  /** Every line over these constants is decided rightly, in every possible world. */
  ghost predicate RightOn(c: Config, lits: iset<Numeral>) {
    forall killconsts, e, w
      | Grammatical(e, 0) && Evaluable(c, e) && WrittenIn(lits, Tokens(e)) && Possible(c, w) ::
      DecidedRightly(c, killconsts, e, w)
  }

  lemma {:induction false} NumeralsInUse(c: Config, lits: iset<Numeral>, ts: seq<Token>, n: Numeral)
    requires WrittenIn(lits, ts) && n in Numerals(c, ts)
    ensures InUse(c, lits, n)
    decreases |ts|
  {
    if ts != [] && n !in NumeralsAt(c, ts[0]) { NumeralsInUse(c, lits, ts[1..], n); }
    if ts != [] && n in NumeralsAt(c, ts[0]) { assert ts[0] in ts; }
  }

  lemma LineKept(c: Config, lits: iset<Numeral>, ts: seq<Token>)
    requires NumbersKept(c, lits) && WrittenIn(lits, ts)
    ensures AllKept(c, Numerals(c, ts))
  {
    var ns := Numerals(c, ts);
    forall a, b | a in ns && b in ns ensures Kept(c, a, b) {
      NumeralsInUse(c, lits, ts, a);
      NumeralsInUse(c, lits, ts, b);
    }
  }

  lemma DecidedByVerdict(c: Config, killconsts: bool, e: Expr)
    requires Grammatical(e, 0) && Evaluable(c, e) && Decide(c, killconsts, Tokens(e)) != DontKnow
    ensures Judge(c, e).Value? && (Decide(c, killconsts, Tokens(e)) == DecidedTrue <==> Judge(c, e).v != 0)
  {
    TableFinds(c, 0, e, []);
    assert Tokens(e) + [] == Tokens(e);
  }

  lemma KeptIsRight(c: Config, lits: iset<Numeral>, killconsts: bool, e: Expr, w: World)
    requires NumbersKept(c, lits) && Grammatical(e, 0) && Evaluable(c, e)
    requires WrittenIn(lits, Tokens(e)) && Possible(c, w)
    ensures DecidedRightly(c, killconsts, e, w)
  {
    if Decide(c, killconsts, Tokens(e)) != DontKnow {
      DecidedByVerdict(c, killconsts, e);
      LineKept(c, lits, Tokens(e));
      var n := JudgeSound(c, e, w, Numerals(c, Tokens(e)));
      assert Kept(c, n, ZERO);
      KeptTruth(c, n);
    }
  }

  // ----- A line that fails, for every two numbers that are not kept -----

  /** An operand that both the evaluator and C find to be the number `n`. */
  ghost predicate Carries(c: Config, lits: iset<Numeral>, e: Expr, n: Numeral) {
    && Grammatical(e, LEVELS) && Evaluable(c, e) && WrittenIn(lits, Tokens(e))
    && Judge(c, e) == Value(Read(c, n.Written())) && ValueIn(e, LeastWorld(c)) == n.Meant()
  }

  /** A number that is not just the result of an operator. */
  ghost predicate Basic(c: Config, lits: iset<Numeral>, n: Numeral) {
    (n.Literal? && n in lits) || IsMacro(c, n)
  }

  lemma BasicCarried(c: Config, lits: iset<Numeral>, n: Numeral) returns (e: Expr)
    requires Basic(c, lits, n)
    ensures Carries(c, lits, e, n)
  {
    if n.Literal? {
      e := Num(n.value, n.unsigned);
    } else {
      var name :| name in c.symbols && c.symbols[name] == Def(Some(n.v));
      e := Sym(name, []);
      assert Tokens(e) == [Symbol(name)];
    }
  }

  /** `(g == g)` and `(g != g)` are 1 and 0 to both. */
  lemma ResultCarried(c: Config, lits: iset<Numeral>, g: Expr, number: Numeral, one: bool) returns (e: Expr)
    requires Carries(c, lits, g, number)
    ensures Carries(c, lits, e, Truth01(one))
  {
    e := Paren(Bin(if one then EqEq else NotEq, g, g));
    assert forall t | t in Tokens(e) && t.Number? :: t in Tokens(g);
    HigherLevel(g, 3);
    HigherLevel(g, 2);
  }

  lemma Carried(c: Config, lits: iset<Numeral>, g: Expr, number: Numeral, n: Numeral) returns (e: Expr)
    requires Carries(c, lits, g, number) && InUse(c, lits, n)
    ensures Carries(c, lits, e, n)
  {
    if Basic(c, lits, n) {
      e := BasicCarried(c, lits, n);
    } else {
      e := ResultCarried(c, lits, g, number, n == ONE);
    }
  }

  lemma ComparisonSeen(c: Config, lits: iset<Numeral>, op: BinOp, x: Expr, y: Expr, m: Numeral, n: Numeral)
    requires Carries(c, lits, x, m) && Carries(c, lits, y, n) && !op.OrOr? && !op.AndAnd?
    ensures var e := Bin(op, x, y);
            && Grammatical(e, 0) && Evaluable(c, e) && WrittenIn(lits, Tokens(e))
            && Judge(c, e) == Value(Apply(op, Read(c, m.Written()), Read(c, n.Written())))
            && ValueIn(e, LeastWorld(c)) == ApplyC(op, m.Meant(), n.Meant())
  {
    HigherLevel(x, 3);
    HigherLevel(x, 2);
    HigherLevel(y, 3);
    assert forall t | t in Tokens(Bin(op, x, y)) && t.Number? :: t in Tokens(x) || t in Tokens(y);
  }

  /** One comparison of two such operands is decided wrongly. */
  lemma ComparisonFails(c: Config, lits: iset<Numeral>, x: Expr, y: Expr, m: Numeral, n: Numeral)
    requires Carries(c, lits, x, m) && Carries(c, lits, y, n) && !Kept(c, m, n)
    ensures !RightOn(c, lits)
  {
    var lessDiffers := (Read(c, m.Written()) < Read(c, n.Written())) != Less(m.Meant(), n.Meant());
    var op := if lessDiffers then Lt else EqEq;
    ComparisonSeen(c, lits, op, x, y, m, n);
    LeastWorldPossible(c);
    DecisionComplete(c, true, Bin(op, x, y));
    assert !DecidedRightly(c, true, Bin(op, x, y), LeastWorld(c));
  }

  /** The evaluator is right on all lines over a set of constants if and only if all the
      numbers in use compare in `int` as they do in C. */
  lemma RightIff(c: Config, lits: iset<Numeral>)
    ensures RightOn(c, lits) <==> NumbersKept(c, lits)
  {
    if NumbersKept(c, lits) {
      forall killconsts, e, w
        | Grammatical(e, 0) && Evaluable(c, e) && WrittenIn(lits, Tokens(e)) && Possible(c, w)
        ensures DecidedRightly(c, killconsts, e, w)
      {
        KeptIsRight(c, lits, killconsts, e, w);
      }
    } else {
      var m, n :| InUse(c, lits, m) && InUse(c, lits, n) && !Kept(c, m, n);
      var basic := if Basic(c, lits, m) then m else n;
      assert Basic(c, lits, basic);
      var g := BasicCarried(c, lits, basic);
      var x := Carried(c, lits, g, basic, m);
      var y := Carried(c, lits, g, basic, n);
      ComparisonFails(c, lits, x, y, m, n);
    }
  }

  // ----- The condition in terms of the values -----

  predicate FitsInt(v: int) { -INT_MAX - 1 <= v <= INT_MAX }

  /** Two numbers that fit `int` are kept, unless one is unsigned and the other negative. */
  lemma FittingKept(c: Config, a: Numeral, b: Numeral)
    requires FitsInt(a.Written()) && FitsInt(b.Written())
    requires a.Written() < 0 ==> !b.Meant().unsigned
    requires b.Written() < 0 ==> !a.Meant().unsigned
    ensures Kept(c, a, b)
  {
    assert Read(c, a.Written()) == a.Written() == a.Meant().v;
    assert Read(c, b.Written()) == b.Written() == b.Meant().v;
  }

  /** No constant above `int` is kept next to the largest `int`. */
  lemma LargeNotKept(c: Config, n: Numeral)
    requires INT_MAX < n.Written() < B64
    ensures !Kept(c, Literal(INT_MAX, false), n)
  {
    assert n.Meant().v == n.Written();
  }

  lemma UnsignedNotKept(c: Config, n: Numeral, m: Numeral)
    requires n.Meant().unsigned && FitsInt(n.Written()) && n.Written() >= 0
    requires FitsInt(m.Written()) && m.Written() < 0
    ensures !Kept(c, m, n)
  {
    assert m.Meant() == Signed(m.Written());
    assert Operand(m.Meant(), true) == m.Written() + B64;
  }

  /** Everything in use fits `int`, and no unsigned constant can meet a negative -D value. */
  ghost predicate NumbersFit(c: Config, lits: iset<Numeral>) {
    && (forall n | n in lits && n.Literal? :: FitsInt(n.value))
    && (forall n | IsMacro(c, n) :: FitsInt(n.v))
    && ((exists n | n in lits && n.Literal? :: n.unsigned) ==> forall n | IsMacro(c, n) :: n.v >= 0)
  }

  lemma InUseFits(c: Config, lits: iset<Numeral>, n: Numeral)
    requires NumbersFit(c, lits) && InUse(c, lits, n)
    ensures FitsInt(n.Written()) && (n.Written() < 0 ==> IsMacro(c, n))
    ensures n.Meant().unsigned ==> n.Literal? && n.unsigned && n in lits
  {
    assert n == ZERO || n == ONE || (n.Literal? && n in lits) || IsMacro(c, n);
  }

  lemma FitIsKept(c: Config, lits: iset<Numeral>, a: Numeral, b: Numeral)
    requires NumbersFit(c, lits) && InUse(c, lits, a) && InUse(c, lits, b)
    ensures Kept(c, a, b)
  {
    InUseFits(c, lits, a);
    InUseFits(c, lits, b);
    FittingKept(c, a, b);
  }

  lemma KeptIsFit(c: Config, lits: iset<Numeral>)
    requires NumbersKept(c, lits)
    requires forall v: nat | v <= INT_MAX :: Literal(v, false) in lits
    requires forall n | n in lits && n.Literal? :: n.value < B64
    requires forall n | IsMacro(c, n) :: -INT_MAX - 1 <= n.v < B64
    ensures NumbersFit(c, lits)
  {
    var largest := Literal(INT_MAX, false);
    forall n | Basic(c, lits, n) ensures FitsInt(n.Written()) {
      assert Kept(c, largest, n);
      if n.Written() > INT_MAX { LargeNotKept(c, n); }
    }
    forall m, n | IsMacro(c, m) && n in lits && n.Literal? && n.unsigned ensures m.v >= 0 {
      assert Kept(c, m, n);
      assert Basic(c, lits, m) && Basic(c, lits, n);
      if m.v < 0 { UnsignedNotKept(c, n, m); }
    }
    forall n | n in lits && n.Literal? ensures FitsInt(n.value) { assert Basic(c, lits, n); }
    forall n | IsMacro(c, n) ensures FitsInt(n.v) { assert Basic(c, lits, n); }
  }

  /** Let a file use every constant of type `int`, among others, and let no -D value be below
      `int`. All its lines are decided rightly if and only if everything else fits, too. */
  lemma RightIffFit(c: Config, lits: iset<Numeral>)
    requires forall v: nat | v <= INT_MAX :: Literal(v, false) in lits
    requires forall n | n in lits && n.Literal? :: n.value < B64
    requires forall n | IsMacro(c, n) :: -INT_MAX - 1 <= n.v < B64
    ensures RightOn(c, lits) <==> NumbersFit(c, lits)
  {
    RightIff(c, lits);
    if NumbersKept(c, lits) { KeptIsFit(c, lits); }
    if NumbersFit(c, lits) {
      forall a, b | InUse(c, lits, a) && InUse(c, lits, b) ensures Kept(c, a, b) {
        FitIsKept(c, lits, a, b);
      }
    }
  }

  /** The same for one line: its own numbers fit, and those of the symbols on it. */
  predicate LineFits(c: Config, ts: seq<Token>) {
    && (forall t, n | t in ts && n in NumeralsAt(c, t) :: FitsInt(n.Written()))
    && ((exists t | t in ts :: t.Number? && t.unsigned) ==> forall t, n | t in ts && n in NumeralsAt(c, t) :: n.Written() >= 0)
  }

  lemma {:induction false} NumeralsFrom(c: Config, ts: seq<Token>, n: Numeral)
    requires n in Numerals(c, ts)
    ensures n == ZERO || n == ONE || exists t | t in ts :: n in NumeralsAt(c, t)
    decreases |ts|
  {
    if ts != [] {
      if n in NumeralsAt(c, ts[0]) {
        assert ts[0] in ts;
      } else {
        NumeralsFrom(c, ts[1..], n);
        assert forall t | t in ts[1..] :: t in ts;
      }
    }
  }

  lemma FittingLineKept(c: Config, ts: seq<Token>)
    requires LineFits(c, ts)
    ensures AllKept(c, Numerals(c, ts))
  {
    forall a, b | a in Numerals(c, ts) && b in Numerals(c, ts) ensures Kept(c, a, b) {
      NumeralsFrom(c, ts, a);
      NumeralsFrom(c, ts, b);
      FittingKept(c, a, b);
    }
  }

  // ----- Lines decided wrongly -----

  /** The line of one constant. */
  lemma ConstantDecided(c: Config, v: nat, unsigned: bool)
    ensures Decide(c, true, [Number(v, unsigned)]) == if Read(c, v) == 0 then DecidedFalse else DecidedTrue
  {
    DecisionComplete(c, true, Num(v, unsigned));
  }

  /** With a `long` of 64 bits and -k, `#if 4294967296` is taken to be false. */
  lemma TwoTo32IsFalse(c: Config, w: World)
    requires c.wideLong
    ensures Decide(c, true, [Number(0x1_0000_0000, false)]) == DecidedFalse
    ensures TrueIn(Num(0x1_0000_0000, false), w)
  {
    ConstantDecided(c, 0x1_0000_0000, false);
  }

  /** With -DX=5, `#if X < 0x80000000` is taken to be false. */
  lemma FiveNotBelowTwoTo31(c: Config, x: nat, w: World)
    requires c.wideLong && x in c.symbols && c.symbols[x] == Def(Some(5)) && Possible(c, w)
    ensures var e := Bin(Lt, Sym(x, []), Num(0x8000_0000, false));
            Decide(c, false, Tokens(e)) == DecidedFalse && TrueIn(e, w)
  {
    var e := Bin(Lt, Sym(x, []), Num(0x8000_0000, false));
    assert Read(c, 5) == 5 && Read(c, 0x8000_0000) == -0x8000_0000;
    assert Judge(c, e.l) == Value(5) && Judge(c, e.r) == Value(-0x8000_0000);
    assert Symbolic(e);
    DecisionComplete(c, false, e);
  }

  /** With -DX=-1, `#if X < 1u` is taken to be true, although it compares as unsigned. */
  lemma MinusOneBelowOneUnsigned(c: Config, x: nat, w: World)
    requires x in c.symbols && c.symbols[x] == Def(Some(-1)) && Possible(c, w)
    ensures var e := Bin(Lt, Sym(x, []), Num(1, true));
            Decide(c, false, Tokens(e)) == DecidedTrue && !TrueIn(e, w)
  {
    assert Symbolic(Bin(Lt, Sym(x, []), Num(1, true)));
    DecisionComplete(c, false, Bin(Lt, Sym(x, []), Num(1, true)));
    UnsignedNotKept(c, Literal(1, true), Macro(-1));
    assert ValueIn(Bin(Lt, Sym(x, []), Num(1, true)), w) == ApplyC(Lt, OfMacro(-1), OfLiteral(1, true));
  }
}
