/** How `parseline` of `scripts/unifdef.c` classifies a directive, and why the classification
    is what the proof of the state machine asks for. */
module UnifdefParse {
  import opened UnifdefMachine
  import opened UnifdefMeaning
  import E = UnifdefExpr
  import G = UnifdefGrammar
  import M = UnifdefExprMeaning
  import R = UnifdefExprReads

  /** A directive with the tokens after its keyword. */
  datatype Source =
    | IfDef(negated: bool, tokens: seq<E.Token>)
    | IfExpr(tokens: seq<E.Token>)
    | ElifExpr(tokens: seq<E.Token>)
    | ElseLine
    | EndifLine

  /** The command line: symbols and -K, symbols given with -i, and -k. */
  datatype Settings = Settings(config: E.Config, ignored: set<nat>, killconsts: bool)

  function ClassifyIfDef(s: Settings, negated: bool, ts: seq<E.Token>): Keyword {
    if |ts| != 1 || !ts[0].Symbol? || ts[0].name !in s.config.symbols then If
    else
      var holds := s.config.symbols[ts[0].name].Def? != negated;
      if ts[0].name in s.ignored then (if holds then TrueI else FalseI)
      else if holds then True
      else False
  }

  function Classify(s: Settings, source: Source): Keyword {
    match source
    case IfDef(negated, ts) => ClassifyIfDef(s, negated, ts)
    case IfExpr(ts) =>
      (match E.Decide(s.config, s.killconsts, ts)
       case DontKnow => If
       case DecidedTrue => True
       case DecidedFalse => False)
    case ElifExpr(ts) =>
      (match E.Decide(s.config, s.killconsts, ts)
       case DontKnow => Elif
       case DecidedTrue => ElTrue
       case DecidedFalse => ElFalse)
    case ElseLine => Else
    case EndifLine => Endif
  }

  /** `truth` is what a compiler finds for the directive in the world `w`. */
  ghost predicate HoldsIn(source: Source, w: M.World, truth: bool) {
    match source
    case IfDef(negated, ts) => |ts| == 1 && ts[0].Symbol? ==> truth == (w.defined(ts[0].name) != negated)
    case IfExpr(ts) => forall e | M.Grammatical(e, 0) && M.Tokens(e) == ts :: truth == M.TrueIn(e, w)
    case ElifExpr(ts) => forall e | M.Grammatical(e, 0) && M.Tokens(e) == ts :: truth == M.TrueIn(e, w)
    case _ => true
  }

  /** If the expression of the line is decided, its numbers survive the evaluator's `int`. */
  predicate NumbersSurvive(s: Settings, source: Source) {
    (source.IfExpr? || source.ElifExpr?) && E.Decide(s.config, s.killconsts, source.tokens) != E.DontKnow ==>
      M.AllKept(s.config, M.Numerals(s.config, source.tokens))
  }

  /** Whatever world the compiler meets, among those the command line allows, the truth
      values of the directives agree with their classification, if their numbers survive. */
  lemma ClassifiedConsistent(s: Settings, source: Source, dodgy: bool, text: nat, w: M.World, truth: Truth)
    requires M.Possible(s.config, w) && HoldsIn(source, w, truth(text)) && NumbersSurvive(s, source)
    ensures Consistent(Line(Directive(Classify(s, source), dodgy), text), truth)
  {
    if (source.IfExpr? || source.ElifExpr?) && E.Decide(s.config, s.killconsts, source.tokens) != E.DontKnow {
      var e := R.DecisionSound(s.config, s.killconsts, source.tokens);
      assert truth(text) == M.TrueIn(e, w);
    }
  }

  /** `#ifdef` and `#ifndef` of a symbol are left undecided exactly if the compiler may find either;
      and only those of a symbol given with -i mark what they control as text. */
  lemma IfDefDecidedIff(s: Settings, negated: bool, name: nat)
    ensures var ts, k := [E.Symbol(name)], ClassifyIfDef(s, negated, [E.Symbol(name)]);
            && (k.If? <==> exists w, w' :: M.Possible(s.config, w) && M.Possible(s.config, w') && w.defined(name) != w'.defined(name))
            && (k.TrueI? || k.FalseI? <==> !k.If? && name in s.ignored)
  {
    R.LeastWorldPossible(s.config);
    R.OtherWorldPossible(s.config);
    if name !in s.config.symbols {
      assert R.LeastWorld(s.config).defined(name) != R.OtherWorld(s.config).defined(name);
    }
  }

  /** `#if` and `#elif` keep what is decided of their expression. */
  lemma DecidedClassified(s: Settings, ts: seq<E.Token>)
    ensures Classify(s, IfExpr(ts)).If? <==> E.Decide(s.config, s.killconsts, ts) == E.DontKnow
    ensures Classify(s, ElifExpr(ts)).Elif? <==> E.Decide(s.config, s.killconsts, ts) == E.DontKnow
    ensures Classify(s, IfExpr(ts)) in {If, True, False} && Classify(s, ElifExpr(ts)) in {Elif, ElTrue, ElFalse}
  {
  }

  /** A source file: directives and plain lines, each with its text. */
  datatype SourceLine = Hash(source: Source, dodgy: bool, text: nat) | PlainLine(text: nat)

  function ParseLine(s: Settings, l: SourceLine): Line {
    match l
    case Hash(source, dodgy, text) => Line(Directive(Classify(s, source), dodgy), text)
    case PlainLine(text) => Line(Plain, text)
  }

  function ParseFile(s: Settings, file: seq<SourceLine>): (lines: seq<Line>)
    ensures |lines| == |file|
  {
    seq(|file|, i requires 0 <= i < |file| => ParseLine(s, file[i]))
  }

  /** From the command line to the compiler: in every world the command line allows, the
      compiler keeps the same plain lines of the output as of the file itself. */
  lemma UnifdefCorrect(s: Settings, o: Options, file: seq<SourceLine>, w: M.World, truth: Truth)
    requires M.Possible(s.config, w)
    requires forall l | l in file :: l.Hash? ==> HoldsIn(l.source, w, truth(l.text)) && NumbersSurvive(s, l.source)
    requires Run(o, INITIAL, ParseFile(s, file)).why == Done
    ensures var before := ReadAll(START, LineReadings(ParseFile(s, file)), truth);
            var after := ReadAll(START, Readings(Run(o, INITIAL, ParseFile(s, file)).state.output), truth);
            before.Pp? && before.frames.Bottom? && after == before
  {
    var lines := ParseFile(s, file);
    forall l | l in lines ensures Consistent(l, truth) && l.kind != Eof {
      var i :| 0 <= i < |lines| && lines[i] == l;
      assert file[i] in file;
      if file[i].Hash? {
        ClassifiedConsistent(s, file[i].source, file[i].dodgy, file[i].text, w, truth);
      }
    }
    MeaningPreserved(o, lines, truth);
  }

  // ----- What a compiler finds is determined by the file and the world -----

  /** The text of a directive says what it is. */
  predicate TextTells(file: seq<SourceLine>) {
    forall k, l | k in file && l in file && k.Hash? && l.Hash? && k.text == l.text :: k.source == l.source
  }

  /** The line is an expression that holds in the world. */
  ghost predicate HoldsAs(ts: seq<E.Token>, w: M.World) {
    exists e :: M.Grammatical(e, 0) && M.Tokens(e) == ts && M.TrueIn(e, w)
  }

  /** What the compiler finds for a directive; false, if it cannot read it. */
  ghost predicate FoundTrue(source: Source, w: M.World) {
    match source
    case IfDef(negated, ts) => |ts| == 1 && ts[0].Symbol? && w.defined(ts[0].name) != negated
    case IfExpr(ts) => HoldsAs(ts, w)
    case ElifExpr(ts) => HoldsAs(ts, w)
    case _ => false
  }

  lemma HoldsAsEvery(ts: seq<E.Token>, w: M.World, e: M.Expr)
    requires M.Grammatical(e, 0) && M.Tokens(e) == ts
    ensures HoldsAs(ts, w) == M.TrueIn(e, w)
  {
    if HoldsAs(ts, w) {
      var e' :| M.Grammatical(e', 0) && M.Tokens(e') == ts && M.TrueIn(e', w);
      G.ParseUnique(e, e');
    }
  }

  /** A directive has one truth value in a world: what it is found to be. */
  lemma FoundHolds(source: Source, w: M.World)
    ensures HoldsIn(source, w, FoundTrue(source, w))
  {
    if source.IfExpr? || source.ElifExpr? {
      forall e | M.Grammatical(e, 0) && M.Tokens(e) == source.tokens
        ensures FoundTrue(source, w) == M.TrueIn(e, w)
      {
        HoldsAsEvery(source.tokens, w, e);
      }
    }
  }

  ghost function TruthOf(file: seq<SourceLine>, w: M.World): Truth {
    text => exists l | l in file :: l.Hash? && l.text == text && FoundTrue(l.source, w)
  }

  /** For every file and in every world there are truth values as the main result asks for. */
  lemma TruthExists(file: seq<SourceLine>, w: M.World)
    requires TextTells(file)
    ensures forall l | l in file && l.Hash? :: HoldsIn(l.source, w, TruthOf(file, w)(l.text))
  {
    forall l | l in file && l.Hash? ensures HoldsIn(l.source, w, TruthOf(file, w)(l.text)) {
      FoundHolds(l.source, w);
      if TruthOf(file, w)(l.text) {
        var k :| k in file && k.Hash? && k.text == l.text && FoundTrue(k.source, w);
        assert k.source == l.source;
      }
      assert TruthOf(file, w)(l.text) == FoundTrue(l.source, w);
    }
  }
}
