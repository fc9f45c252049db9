/** What `unifdef` takes out: exactly the plain lines that no branch can be taken for, and every
    directive whose condition is known. */
module UnifdefRemoves {
  import opened UnifdefMachine
  import opened UnifdefMeaning
  import opened UnifdefRuns

  // ----- Reference: what can be known of a group from its directives -----

  datatype Chance = Never | Maybe | Always

  function Not(a: Chance): Chance { match a case Never => Always case Maybe => Maybe case Always => Never }

  function Both(a: Chance, b: Chance): Chance {
    if a.Never? || b.Never? then Never else if a.Always? then b else a
  }

  function Either(a: Chance, b: Chance): Chance { Not(Both(Not(a), Not(b))) }

  /** What is known of the condition of a line; nothing, if the line is dodgy. */
  function ConditionOf(k: Keyword, dodgy: bool): Chance {
    if dodgy then Maybe
    else
      match k
      case TrueI => Always
      case True => Always
      case ElTrue => Always
      case FalseI => Never
      case False => Never
      case ElFalse => Never
      case _ => Maybe
  }

  /** An open group: may a branch have been taken, and may the current one be it? */
  datatype Guess = Guess(taken: Chance, active: Chance)

  function NextGuess(g: Guess, k: Keyword, dodgy: bool): Guess {
    if k.Else? then Guess(Always, Not(g.taken))
    else Guess(Either(g.taken, ConditionOf(k, dodgy)), Both(Not(g.taken), ConditionOf(k, dodgy)))
  }

  function Follow(gs: Stack<Guess>, line: Line): Stack<Guess> {
    match line.kind
    case Directive(k, dodgy) =>
      if Opens(k) then Push(Guess(ConditionOf(k, dodgy), ConditionOf(k, dodgy)), gs)
      else if gs.Bottom? then gs
      else if k.Endif? then gs.rest
      else Push(NextGuess(gs.top, k, dodgy), gs.rest)
    case _ => gs
  }

  /** The open groups after these lines. */
  function After(lines: seq<Line>): Stack<Guess> {
    if lines == [] then Bottom else Follow(After(lines[..|lines| - 1]), lines[|lines| - 1])
  }

  /** A preprocessor may keep a plain line here. */
  predicate MayBeLive(gs: Stack<Guess>) { gs.Bottom? || (!gs.top.active.Never? && MayBeLive(gs.rest)) }

  // ----- The states say what can be known -----

  predicate Fits(here: IfState, g: Guess) {
    match here
    case Outside => false
    case FalsePrefix => g == Guess(Never, Never)
    case TruePrefix => g == Guess(Always, Always)
    case PassMiddle => g == Guess(Maybe, Maybe)
    case FalseMiddle => g == Guess(Maybe, Never)
    case TrueMiddle => g == Guess(Always, Maybe)
    case PassElse => g.active.Maybe?
    case FalseElse => g.active.Never?
    case TrueElse => g.active.Always?
    case FalseTrailer => g == Guess(Always, Never)
  }

  /** In a printed block the state says what can be known; in a dropped one all is dropped. */
  predicate Guessed(levels: Stack<IfState>, gs: Stack<Guess>) {
    match levels
    case Bottom => gs.Bottom?
    case Push(here, rest) =>
      && gs.Push? && Guessed(rest, gs.rest)
      && if TopPrints(rest) then Fits(here, gs.top) else here == FalseTrailer || here == FalseElse
  }

  /** Printing is for exactly the blocks that may be live. */
  lemma {:induction false} PrintsIfMayBeLive(levels: Stack<IfState>, gs: Stack<Guess>)
    requires Guessed(levels, gs)
    ensures TopPrints(levels) <==> MayBeLive(gs)
  {
    if levels.Push? { PrintsIfMayBeLive(levels.rest, gs.rest); }
  }

  lemma OpeningFits(o: Options, top: IfState, k: Keyword, dodgy: bool)
    requires Opens(k) && Plan(o, top, Directive(k, dodgy)).OpenGroup?
    ensures var e, c := Plan(o, top, Directive(k, dodgy)), ConditionOf(k, dodgy);
            if Printing(top) then Fits(e.here, Guess(c, c)) else e.here == FalseTrailer
  {
  }

  lemma MoveFits(o: Options, top: IfState, g: Guess, k: Keyword, dodgy: bool)
    requires !Opens(k) && Fits(top, g) && Moves(Plan(o, top, Directive(k, dodgy)))
    ensures !k.Endif? && Fits(Plan(o, top, Directive(k, dodgy)).here, NextGuess(g, k, dodgy))
  {
    match top
    case Outside =>
    case FalsePrefix =>
    case TruePrefix =>
    case PassMiddle =>
    case FalseMiddle =>
    case TrueMiddle =>
    case PassElse =>
    case FalseElse =>
    case TrueElse =>
    case FalseTrailer =>
  }

  lemma MoveStaysDropped(o: Options, top: IfState, k: Keyword, dodgy: bool)
    requires !Opens(k) && (top == FalseTrailer || top == FalseElse) && Moves(Plan(o, top, Directive(k, dodgy)))
    ensures var e := Plan(o, top, Directive(k, dodgy)); !k.Endif? && (e.here == FalseTrailer || e.here == FalseElse)
  {
  }

  lemma StepGuessed(o: Options, s: State, line: Line, gs: Stack<Guess>)
    requires Sound(s) && Proper(line) && Guessed(Levels(s), gs) && Step(o, s, line).Next?
    ensures Guessed(Levels(Step(o, s, line).state), Follow(gs, line))
  {
    TopIs(s);
    PlanAllowed(o, s, line);
    var e, s1 := Plan(o, s.Top(), line.kind), Loaded(s, line);
    assert Levels(s1) == Levels(s);
    if line.kind.Directive? {
      var k, dodgy := line.kind.keyword, line.kind.dodgy;
      if Opens(k) {
        PlanForOpening(o, s.Top(), k, dodgy);
        OpeningFits(o, s.Top(), k, dodgy);
        OpenShape(o, s1, e.keep, e.here, e.ignore);
      } else {
        PlanForContinuing(o, s.Top(), k, dodgy);
        if Moves(e) {
          MoveShape(o, s1, e.keep, e.edit, e.here);
          if TopPrints(Levels(s).rest) {
            MoveFits(o, s.Top(), gs.top, k, dodgy);
          } else {
            MoveStaysDropped(o, s.Top(), k, dodgy);
          }
        }
      }
    }
  }

  // ----- What is written -----

  /** Input line number `n` is in the output, edited or not. */
  predicate Written(items: seq<Item>, n: nat) {
    exists k | 0 <= k < |items| :: items[k].Text? && items[k].at == n
  }

  predicate Known(k: Keyword) {
    k.TrueI? || k.FalseI? || k.True? || k.False? || k.ElTrue? || k.ElFalse?
  }

  /** The line may be written so: a directive whose condition is known never as it stands; and only
      an `#elif` that is left becomes an `#if`, only a true one an `#else`, and only what follows
      such a one in its group an `#endif`. */
  predicate MayRead(edit: Edit, kind: LineType) {
    match edit
    case Unchanged => kind.Directive? && !kind.dodgy ==> !Known(kind.keyword)
    case ToIf => kind.Directive? && kind.keyword.Elif?
    case ToElse => kind.Directive? && kind.keyword.ElTrue?
    case ToEndif => kind.Directive? && (IsElif(kind.keyword) || kind.keyword.Else?)
  }

  predicate AllMayRead(items: seq<Item>) {
    forall k | 0 <= k < |items| && items[k].Text? :: MayRead(items[k].edit, items[k].line.kind)
  }

  /** Of the plain lines, exactly those that may be live are written. */
  ghost predicate PlainKept(items: seq<Item>, lines: seq<Line>) {
    forall n: nat | n < |lines| && lines[n].kind.Plain? :: Written(items, n + 1) <==> MayBeLive(After(lines[..n]))
  }

  /** All these lines are written. */
  ghost predicate AllWritten(items: seq<Item>, count: nat) {
    forall n: nat | 1 <= n <= count :: Written(items, n)
  }

  /** What holds after these lines. */
  ghost predicate Told(s: State, lines: seq<Line>) {
    && Sound(s) && s.linenum == |lines| && Guessed(Levels(s), After(lines))
    && (forall n: nat | Written(s.output, n) :: n <= s.linenum)
    && AllMayRead(s.output) && PlainKept(s.output, lines)
    && (s.exitstat == 0 || s.exitstat == 1) && (s.exitstat == 0 <==> AllWritten(s.output, |lines|))
  }

  lemma FlushWrites(o: Options, s: State, keep: bool, edit: Edit, n: nat)
    ensures Written(Flush(o, s, keep, edit).output, n) <==> Written(s.output, n) || (keep && n == s.linenum)
  {
    var out, out' := s.output, Flush(o, s, keep, edit).output;
    if Written(out, n) {
      var k :| 0 <= k < |out| && out[k].Text? && out[k].at == n;
      assert out'[k] == out[k];
    }
    if keep { assert out'[|out'| - 1] == Text(edit, s.line, s.linenum); }
  }

  lemma FlushMayRead(o: Options, s: State, keep: bool, edit: Edit)
    requires AllMayRead(s.output) && (keep ==> MayRead(edit, s.line.kind))
    ensures AllMayRead(Flush(o, s, keep, edit).output)
  {
  }

  /** The table never keeps a directive whose condition is known as it stands. */
  lemma PlanMayRead(o: Options, top: IfState, kind: LineType)
    requires kind.Directive? || kind.Plain?
    ensures var e := Plan(o, top, kind);
            !(e.Complain? || e.Finish? || e.Crash?) && e.keep ==> MayRead(EditOf(e), kind)
  {
    if kind.Directive? && !Opens(kind.keyword) { RowMayRead(o, top, kind.keyword, kind.dodgy); }
  }

  lemma RowMayRead(o: Options, top: IfState, k: Keyword, dodgy: bool)
    requires !Opens(k)
    ensures var e := Row(o.iocccok, top, k, dodgy);
            !(e.Complain? || e.Finish? || e.Crash?) && e.keep ==> MayRead(EditOf(e), Directive(k, dodgy))
  {
    match top
    case Outside =>
    case FalsePrefix =>
    case TruePrefix =>
    case PassMiddle =>
    case FalseMiddle =>
    case TrueMiddle =>
    case PassElse =>
    case FalseElse =>
    case TrueElse =>
    case FalseTrailer =>
  }

  lemma AfterNext(lines: seq<Line>, line: Line)
    ensures After(lines + [line]) == Follow(After(lines), line)
  {
    assert (lines + [line])[..|lines|] == lines;
  }

  lemma PlainKeptNext(items: seq<Item>, items': seq<Item>, lines: seq<Line>, line: Line, keep: bool)
    requires PlainKept(items, lines) && (line.kind.Plain? ==> (keep <==> MayBeLive(After(lines))))
    requires forall n: nat | Written(items, n) :: n <= |lines|
    requires forall n: nat :: Written(items', n) <==> Written(items, n) || (keep && n == |lines| + 1)
    ensures PlainKept(items', lines + [line])
  {
    forall n: nat | n < |lines| + 1 && (lines + [line])[n].kind.Plain?
      ensures Written(items', n + 1) <==> MayBeLive(After((lines + [line])[..n]))
    {
      if n < |lines| {
        assert (lines + [line])[..n] == lines[..n];
      } else {
        assert (lines + [line])[..n] == lines;
      }
    }
  }

  lemma AllWrittenNext(items: seq<Item>, items': seq<Item>, count: nat, keep: bool)
    requires forall n: nat | Written(items, n) :: n <= count
    requires forall n: nat :: Written(items', n) <==> Written(items, n) || (keep && n == count + 1)
    ensures AllWritten(items', count + 1) <==> keep && AllWritten(items, count)
  {
    if AllWritten(items', count + 1) { assert Written(items', count + 1); }
  }

  lemma StepTold(o: Options, s: State, lines: seq<Line>, line: Line)
    requires Told(s, lines) && Proper(line) && Step(o, s, line).Next?
    ensures Told(Step(o, s, line).state, lines + [line])
  {
    var e, s1, s' := Plan(o, s.Top(), line.kind), Loaded(s, line), Step(o, s, line).state;
    StepSound(o, s, line);
    StepFlushesOnce(o, s, line);
    StepGuessed(o, s, line, After(lines));
    AfterNext(lines, line);
    TopIs(s);
    PrintsIfMayBeLive(Levels(s), After(lines));
    PlanMayRead(o, s.Top(), line.kind);
    FlushMayRead(o, s1, e.keep, EditOf(e));
    forall n: nat ensures Written(s'.output, n) <==> Written(s.output, n) || (e.keep && n == |lines| + 1) {
      FlushWrites(o, s1, e.keep, EditOf(e), n);
    }
    PlainKeptNext(s.output, s'.output, lines, line, e.keep);
    AllWrittenNext(s.output, s'.output, |lines|, e.keep);
  }

  lemma RunOn(o: Options, s: State, lines: seq<Line>)
    requires s.Valid() && lines != []
    ensures Run(o, s, lines) == if Step(o, s, lines[0]).Next? then Run(o, Step(o, s, lines[0]).state, lines[1..])
                                else Report(s, Step(o, s, lines[0]).why)
  {
  }

  lemma ToldNext(o: Options, s: State, before: seq<Line>, lines: seq<Line>) returns (s': State)
    requires Told(s, before) && lines != [] && Proper(lines[0]) && Run(o, s, lines).why.Done?
    ensures Told(s', before + [lines[0]]) && Run(o, s', lines[1..]) == Run(o, s, lines)
  {
    StepSound(o, s, lines[0]);
    RunOn(o, s, lines);
    StepTold(o, s, before, lines[0]);
    s' := Step(o, s, lines[0]).state;
  }

  lemma RunEnds(o: Options, s: State)
    requires s.Valid()
    ensures Run(o, s, []).state == s
  {
    assert Step(o, s, END_OF_FILE).Stop?;
  }

  lemma Regroup(a: seq<Line>, b: seq<Line>)
    requires b != []
    ensures a + b == a + [b[0]] + b[1..]
  {
  }

  lemma {:induction false} RunTold(o: Options, s: State, before: seq<Line>, lines: seq<Line>, report: Report, all: seq<Line>)
    requires Told(s, before) && forall l | l in lines :: Proper(l)
    requires report == Run(o, s, lines) && report.why.Done? && all == before + lines
    ensures Told(report.state, all)
    decreases |lines|
  {
    if lines == [] {
      RunEnds(o, s);
      assert all == before;
    } else {
      var s' := ToldNext(o, s, before, lines);
      Regroup(before, lines);
      RunTold(o, s', before + [lines[0]], lines[1..], report, all);
    }
  }

  /** What an accepted file is turned into. No directive with a known condition is left as it stands;
      a plain line is left out exactly if what is known of the conditions rules out every branch
      it is in; and the exit status is 1 exactly if some line was left out. */
  lemma RemovesAllKnown(o: Options, lines: seq<Line>)
    requires (forall l | l in lines :: Proper(l)) && Run(o, INITIAL, lines).why.Done?
    ensures var s := Run(o, INITIAL, lines).state;
            && AllMayRead(s.output) && PlainKept(s.output, lines)
            && s.exitstat == if AllWritten(s.output, |lines|) then 0 else 1
  {
    InitialSound();
    assert Told(INITIAL, []);
    assert [] + lines == lines;
    RunTold(o, INITIAL, [], lines, Run(o, INITIAL, lines), lines);
  }

  // ----- Directives spread over several lines -----

  /** What an effect does to the line it does to what comes after it in the same place. */
  predicate Shares(e: Effect, top: IfState) {
    match e
    case EnterState(keep, _, here) => keep == Printing(here)
    case TurnState(keep, _, here) => keep == Printing(here)
    case OpenGroup(keep, here, _) => keep == Printing(here)
    case CloseGroup(keep) => keep && InOutput(top)
    case FlushOnly(_) => false
    case _ => true
  }

  lemma DodgyPlan(o: Options, top: IfState, k: Keyword)
    ensures Shares(Plan(o, top, Directive(k, true)), top)
  {
    if !Opens(k) { DodgyRow(o, top, k); }
  }

  lemma DodgyRow(o: Options, top: IfState, k: Keyword)
    requires !Opens(k)
    ensures Shares(Row(o.iocccok, top, k, true), top)
  {
    match top
    case Outside =>
    case FalsePrefix =>
    case TruePrefix =>
    case PassMiddle =>
    case FalseMiddle =>
    case TrueMiddle =>
    case PassElse =>
    case FalseElse =>
    case TrueElse =>
    case FalseTrailer =>
  }

  lemma EndsPrinted(o: Options, s: State, gs: Stack<Guess>)
    requires Sound(s) && Guessed(Levels(s), gs) && s.depth > 0 && InOutput(s.Top())
    ensures Close(o, s, true).Next? && Printing(Close(o, s, true).state.Top())
  {
    TopIs(s);
    TopIs(s.(depth := s.depth - 1));
  }

  /** Wherever a directive that goes on over several lines is accepted, the lines it goes on over
      share its fate. */
  lemma DodgyShares(o: Options, s: State, line: Line, gs: Stack<Guess>)
    requires Sound(s) && Guessed(Levels(s), gs) && line.kind.Directive? && line.kind.dodgy && Step(o, s, line).Next?
    ensures var e, s' := Plan(o, s.Top(), line.kind), Step(o, s, line).state;
            !(e.Complain? || e.Finish? || e.Crash?) && e.keep == Printing(s'.Top())
  {
    PlanAllowed(o, s, line);
    DodgyPlan(o, s.Top(), line.kind.keyword);
    var e, s1 := Plan(o, s.Top(), line.kind), Loaded(s, line);
    StepFlushesOnce(o, s, line);
    match e
    case OpenGroup(keep, here, ignore) =>
      OpenShape(o, s1, keep, here, ignore);
    case CloseGroup(_) =>
      assert Levels(s1) == Levels(s) && Sound(s1);
      EndsPrinted(o, s1, gs);
    case _ =>
  }

  /** Which directives in place are refused when they go on over several lines; with -e, not those that
      can be passed through as unknown. These are not just those by which printing and dropping
      change: an unknown `#elif` behind false branches is taken although it begins to print, and a
      false one behind false branches is refused although nothing changes. */
  predicate Refused(ok: bool, top: IfState, k: Keyword) {
    if Opens(k) then !ok && Printing(top) && !k.If?
    else if k.Elif? then top.TruePrefix? || top.FalseMiddle? || top.TrueMiddle?
    else if k.Endif? then !top.PassMiddle? && !top.TrueMiddle? && !top.PassElse?
    else
      top.FalsePrefix? || top.TruePrefix? || top.FalseMiddle? || top.TrueMiddle? || (top.PassMiddle? && !ok && !k.Else?)
  }

  /** The complaint about a directive out of place. */
  function Blamed(k: Keyword): Complaint {
    match k
    case Else => BadElse
    case Endif => BadEndif
    case _ => BadElif
  }

  /** A directive is complained about exactly if it is out of place, or dodgy and refused, and the
      complaint says which. */
  lemma ComplaintsAre(o: Options, top: IfState, k: Keyword, dodgy: bool)
    ensures var e := Plan(o, top, Directive(k, dodgy));
            var misplaced := !Opens(k) && (top.Outside? || (SawElse(top) && !k.Endif?));
            && (e.Complain? <==> misplaced || (dodgy && Refused(o.iocccok, top, k)))
            && (e.Complain? ==> e.complaint == if misplaced then Blamed(k) else Obfuscated)
  {
    if !Opens(k) { RowComplaints(o, top, k, dodgy); }
  }

  lemma RowComplaints(o: Options, top: IfState, k: Keyword, dodgy: bool)
    requires !Opens(k)
    ensures var e := Row(o.iocccok, top, k, dodgy);
            var misplaced := top.Outside? || (SawElse(top) && !k.Endif?);
            && (e.Complain? <==> misplaced || (dodgy && Refused(o.iocccok, top, k)))
            && (e.Complain? ==> e.complaint == if misplaced then Blamed(k) else Obfuscated)
  {
    match top
    case Outside =>
    case FalsePrefix =>
    case TruePrefix =>
    case PassMiddle =>
    case FalseMiddle =>
    case TrueMiddle =>
    case PassElse =>
    case FalseElse =>
    case TrueElse =>
    case FalseTrailer =>
  }

  // ----- Where comments are ignored -----

  predicate TopFlag(flags: Stack<bool>) { flags.Push? && flags.top }

  /** Reference, for directives on one line each: a group is text if the group around it is, or if it
      begins with the test of a symbol given with -i, up to its first `#elif`. */
  function Mark(flags: Stack<bool>, line: Line): Stack<bool> {
    if !line.kind.Directive? then flags
    else
      var k := line.kind.keyword;
      if Opens(k) then Push(TopFlag(flags) || k.TrueI? || k.FalseI?, flags)
      else if flags.Bottom? || k.Else? then flags
      else if k.Endif? then flags.rest
      else Push(TopFlag(flags.rest), flags.rest)
  }

  function Marks(lines: seq<Line>): Stack<bool> {
    if lines == [] then Bottom else Mark(Marks(lines[..|lines| - 1]), lines[|lines| - 1])
  }

  function FlagsOf(ignoring: seq<bool>, depth: nat): Stack<bool>
    requires depth < |ignoring|
  {
    if depth == 0 then Bottom else Push(ignoring[depth], FlagsOf(ignoring, depth - 1))
  }

  function Flags(s: State): Stack<bool>
    requires s.Valid()
  {
    FlagsOf(s.ignoring, s.depth)
  }

  lemma {:induction false} FlagsFrame(a: seq<bool>, b: seq<bool>, depth: nat)
    requires depth < |a| && depth < |b| && forall i | 1 <= i <= depth :: a[i] == b[i]
    ensures FlagsOf(a, depth) == FlagsOf(b, depth)
  {
    if depth > 0 { FlagsFrame(a, b, depth - 1); }
  }

  /** A group that is left in the output does not begin with such a test. */
  predicate Calm(levels: Stack<IfState>, flags: Stack<bool>) {
    match levels
    case Bottom => flags.Bottom?
    case Push(here, rest) =>
      flags.Push? && Calm(rest, flags.rest) && (InOutput(here) ==> flags.top == TopFlag(flags.rest))
  }

  lemma OpenFlags(o: Options, s: State, keep: bool, here: IfState, ignore: bool)
    requires Sound(s) && Open(o, s, keep, here, ignore).Next?
    ensures Flags(Open(o, s, keep, here, ignore).state) == Push(TopFlag(Flags(s)) || ignore, Flags(s))
  {
    FlagsFrame(s.ignoring, Open(o, s, keep, here, ignore).state.ignoring, s.depth);
  }

  lemma MoveFlags(o: Options, s: State, keep: bool, edit: Edit, here: IfState)
    requires Sound(s) && s.depth > 0
    ensures Enter(o, s, keep, edit, here).Next? && Turn(o, s, keep, edit, here).Next?
    ensures Flags(Enter(o, s, keep, edit, here).state) == Push(TopFlag(Flags(s).rest), Flags(s).rest)
    ensures Flags(Turn(o, s, keep, edit, here).state) == Flags(s)
  {
    FlagsFrame(s.ignoring, Enter(o, s, keep, edit, here).state.ignoring, s.depth - 1);
  }

  /** What the table does to the flag of a directive on one line. */
  predicate FlagFits(e: Effect, top: IfState, k: Keyword) {
    match e
    case OpenGroup(_, here, ignore) => Opens(k) && (ignore <==> k.TrueI? || k.FalseI?) && (InOutput(here) ==> !ignore)
    case EnterState(_, _, _) => IsElif(k)
    case TurnState(_, _, here) => if k.Else? then InOutput(here) ==> InOutput(top) else IsElif(k) && InOutput(top)
    case CloseGroup(_) => k.Endif?
    case FlushOnly(_) => false
    case _ => true
  }

  lemma PlanFlag(o: Options, top: IfState, k: Keyword)
    ensures FlagFits(Plan(o, top, Directive(k, false)), top, k)
  {
    if !Opens(k) { RowFlag(o, top, k); }
  }

  lemma RowFlag(o: Options, top: IfState, k: Keyword)
    requires !Opens(k)
    ensures FlagFits(Row(o.iocccok, top, k, false), top, k)
  {
    match top
    case Outside =>
    case FalsePrefix =>
    case TruePrefix =>
    case PassMiddle =>
    case FalseMiddle =>
    case TrueMiddle =>
    case PassElse =>
    case FalseElse =>
    case TrueElse =>
    case FalseTrailer =>
  }

  lemma StepFlags(o: Options, s: State, line: Line)
    requires Sound(s) && Proper(line) && (line.kind.Directive? ==> !line.kind.dodgy)
    requires Calm(Levels(s), Flags(s)) && Step(o, s, line).Next?
    ensures var s' := Step(o, s, line).state; Flags(s') == Mark(Flags(s), line) && Calm(Levels(s'), Flags(s'))
  {
    TopIs(s);
    PlanAllowed(o, s, line);
    var e, s1 := Plan(o, s.Top(), line.kind), Loaded(s, line);
    assert Levels(s1) == Levels(s) && Flags(s1) == Flags(s);
    if line.kind.Directive? {
      PlanFlag(o, s.Top(), line.kind.keyword);
      match e
      case OpenGroup(keep, here, ignore) =>
        OpenFlags(o, s1, keep, here, ignore);
        OpenShape(o, s1, keep, here, ignore);
      case EnterState(keep, edit, here) =>
        MoveFlags(o, s1, keep, edit, here);
        MoveShape(o, s1, keep, edit, here);
      case TurnState(keep, edit, here) =>
        MoveFlags(o, s1, keep, edit, here);
        MoveShape(o, s1, keep, edit, here);
      case _ =>
    }
  }

  ghost predicate Marked(s: State, lines: seq<Line>) {
    && Sound(s) && s.linenum == |lines|
    && Flags(s) == Marks(lines) && Calm(Levels(s), Flags(s))
  }

  lemma StepMarked(o: Options, s: State, lines: seq<Line>, line: Line)
    requires Marked(s, lines) && Proper(line) && (line.kind.Directive? ==> !line.kind.dodgy) && Step(o, s, line).Next?
    ensures Marked(Step(o, s, line).state, lines + [line])
  {
    StepSound(o, s, line);
    StepFlushesOnce(o, s, line);
    StepFlags(o, s, line);
    assert (lines + [line])[..|lines|] == lines;
  }

  lemma {:induction false} RunMarked(o: Options, s: State, before: seq<Line>, lines: seq<Line>, end: State, all: seq<Line>)
    requires Marked(s, before) && forall l | l in lines :: Proper(l) && (l.kind.Directive? ==> !l.kind.dodgy)
    requires end == Run(o, s, lines).state && end.linenum == |all| && all == before + lines
    ensures Marked(end, all)
    decreases |lines|
  {
    if lines == [] {
      RunEnds(o, s);
      assert all == before;
    } else {
      RunOn(o, s, lines);
      StepMarked(o, s, before, lines[0]);
      Regroup(before, lines);
      RunMarked(o, Step(o, s, lines[0]).state, before + [lines[0]], lines[1..], end, all);
    }
  }

  /** After any lines that the machine takes, comments are ignored exactly inside the groups that begin
      with the test of a symbol given with -i, up to the first `#elif`. */
  lemma IgnoresAsMarked(o: Options, lines: seq<Line>)
    requires forall l | l in lines :: Proper(l) && (l.kind.Directive? ==> !l.kind.dodgy)
    requires Run(o, INITIAL, lines).state.linenum == |lines|
    ensures Run(o, INITIAL, lines).state.Valid() && Flags(Run(o, INITIAL, lines).state) == Marks(lines)
  {
    InitialSound();
    assert Marked(INITIAL, []);
    assert [] + lines == lines;
    RunMarked(o, INITIAL, [], lines, Run(o, INITIAL, lines).state, lines);
  }
}
