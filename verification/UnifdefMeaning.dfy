/** What a C preprocessor makes of a file (conditional inclusion, section 6.10.1 of
    ISO/IEC 9899:1999), and the proof that the state machine of `unifdef` preserves it. */
module UnifdefMeaning {
  import opened UnifdefMachine

  // ----- Reference: conditional inclusion -----

  /** A line as the preprocessor sees it. */
  datatype Reading = HashIf(condition: nat) | HashElif(condition: nat) | HashElse | HashEndif | Words(text: nat) | Nothing

  function ReadLine(line: Line): Reading {
    match line.kind
    case Directive(k, _) =>
      if Opens(k) then HashIf(line.text)
      else if IsElif(k) then HashElif(line.text)
      else if k.Else? then HashElse
      else HashEndif
    case Plain => Words(line.text)
    case Eof => Nothing
    case Error => Nothing
  }

  function ReadItem(item: Item): Reading {
    match item
    case Text(edit, line, _) =>
      (match edit
       case Unchanged => ReadLine(line)
       case ToIf => HashIf(line.text)
       case ToElse => HashElse
       case ToEndif => HashEndif)
    case Blank => Nothing
    case LineNo(_) => Nothing
  }

  datatype Stack<T> = Bottom | Push(top: T, rest: Stack<T>)

  /** An open group: has a branch been taken, is the current one live, was there an `#else`. */
  datatype Frame = Frame(taken: bool, active: bool, sawElse: bool)

  /** The preprocessor's state: open groups, and the plain lines kept so far. */
  datatype Pp = Pp(frames: Stack<Frame>, kept: seq<nat>) | Broken

  predicate Live(frames: Stack<Frame>) {
    frames.Bottom? || (frames.top.active && Live(frames.rest))
  }

  /** A truth value for every controlling expression. */
  type Truth = nat -> bool

  /** The innermost open group after an `#elif` or `#else`. */
  function NextFrame(f: Frame, r: Reading, truth: Truth): Frame {
    if r.HashElif? then Frame(f.taken || truth(r.condition), !f.taken && truth(r.condition), false)
    else Frame(true, !f.taken, true)
  }

  function Read(pp: Pp, r: Reading, truth: Truth): Pp {
    if pp.Broken? then Broken
    else
      match r
      case HashIf(c) => pp.(frames := Push(Frame(truth(c), truth(c), false), pp.frames))
      case HashEndif =>
        if pp.frames.Bottom? then Broken else pp.(frames := pp.frames.rest)
      case Words(t) => if Live(pp.frames) then pp.(kept := pp.kept + [t]) else pp
      case Nothing => pp
      case _ =>
        if pp.frames.Bottom? || pp.frames.top.sawElse then Broken
        else pp.(frames := Push(NextFrame(pp.frames.top, r, truth), pp.frames.rest))
  }

  const START := Pp(Bottom, [])

  function ReadAll(pp: Pp, rs: seq<Reading>, truth: Truth): Pp
    decreases |rs|
  {
    if rs == [] then pp else ReadAll(Read(pp, rs[0], truth), rs[1..], truth)
  }

  function Readings(items: seq<Item>): (rs: seq<Reading>)
    ensures |rs| == |items|
  {
    seq(|items|, i requires 0 <= i < |items| => ReadItem(items[i]))
  }

  function LineReadings(lines: seq<Line>): (rs: seq<Reading>)
    ensures |rs| == |lines|
  {
    seq(|lines|, i requires 0 <= i < |lines| => ReadLine(lines[i]))
  }

  lemma {:induction false} ReadAllAppend(pp: Pp, a: seq<Reading>, b: seq<Reading>, truth: Truth)
    ensures ReadAll(pp, a + b, truth) == ReadAll(ReadAll(pp, a, truth), b, truth)
    decreases |a|
  {
    if a == [] {
      assert a + b == b;
    } else {
      assert (a + b)[1..] == a[1..] + b;
      ReadAllAppend(Read(pp, a[0], truth), a[1..], b, truth);
    }
  }

  /** A truth assignment agrees with what is known about a line's expression. */
  predicate Consistent(line: Line, truth: Truth) {
    line.kind.Directive? ==>
      (line.kind.keyword in {TrueI, True, ElTrue} ==> truth(line.text)) &&
      (line.kind.keyword in {FalseI, False, ElFalse} ==> !truth(line.text))
  }

  // ----- The simulation -----

  /** Does the output contain the group whose state this is, still open? */
  predicate InOutput(here: IfState) {
    here.PassMiddle? || here.FalseMiddle? || here.TrueMiddle? || here.PassElse?
  }

  /** How the input's frame `fi` and, for a group present in the output, its frame `fo`
      relate to the state of a group met in a printed block. */
  predicate LevelAgrees(here: IfState, fi: Frame, fo: Frame) {
    match here
    case Outside => false
    case FalsePrefix => !fi.taken && !fi.active && !fi.sawElse
    case TruePrefix => fi.taken && fi.active && !fi.sawElse
    case PassMiddle => fi == fo && !fi.sawElse
    case FalseMiddle => fi.taken == fo.taken && !fi.active && !fi.sawElse && !fo.sawElse
    case TrueMiddle => fi.taken && fi.active == fo.active && !fi.sawElse && fo.sawElse
    case PassElse => fi.active == fo.active && fi.sawElse && fo.sawElse
    case FalseElse => !fi.active && fi.sawElse
    case TrueElse => fi.active && fi.sawElse
    case FalseTrailer => fi.taken && !fi.active && !fi.sawElse
  }

  predicate TopPrints(levels: Stack<IfState>) {
    levels.Bottom? || Printing(levels.top)
  }

  /** The stack of states against the open groups of input and output. */
  predicate Agrees(levels: Stack<IfState>, fis: Stack<Frame>, fos: Stack<Frame>) {
    match levels
    case Bottom => fis.Bottom? && fos.Bottom?
    case Push(here, rest) =>
      fis.Push? &&
      if !TopPrints(rest) then
        (here == FalseTrailer || here == FalseElse) && fis.top.sawElse == (here == FalseElse) &&
        Agrees(rest, fis.rest, fos)
      else if InOutput(here) then
        fos.Push? && LevelAgrees(here, fis.top, fos.top) && Agrees(rest, fis.rest, fos.rest)
      else
        LevelAgrees(here, fis.top, fis.top) && Agrees(rest, fis.rest, fos)
  }

  /** In a printed block input and output are live together; in a dropped block the
      input is not live. */
  lemma {:induction false} LiveAgrees(levels: Stack<IfState>, fis: Stack<Frame>, fos: Stack<Frame>)
    requires Agrees(levels, fis, fos)
    ensures TopPrints(levels) ==> Live(fis) == Live(fos)
    ensures !TopPrints(levels) ==> !Live(fis)
  {
    match levels
    case Bottom =>
    case Push(here, rest) =>
      LiveAgrees(rest, fis.rest, if TopPrints(rest) && InOutput(here) then fos.rest else fos);
  }

  /** The states of the open groups, innermost first. */
  function StackOf(ifstate: seq<IfState>, depth: nat): Stack<IfState>
    requires depth < |ifstate|
  {
    if depth == 0 then Bottom else Push(ifstate[depth], StackOf(ifstate, depth - 1))
  }

  lemma {:induction false} StackFrame(a: seq<IfState>, b: seq<IfState>, depth: nat)
    requires depth < |a| && depth < |b| && forall i | 1 <= i <= depth :: a[i] == b[i]
    ensures StackOf(a, depth) == StackOf(b, depth)
  {
    if depth > 0 { StackFrame(a, b, depth - 1); }
  }

  function Levels(s: State): Stack<IfState>
    requires s.Valid()
  {
    StackOf(s.ifstate, s.depth)
  }

  function Output(s: State, truth: Truth): Pp {
    ReadAll(START, Readings(s.output), truth)
  }

  /** The invariant of a run: the machine's state mirrors both readings. */
  predicate Mirrors(s: State, input: Pp, truth: Truth) {
    && s.Valid()
    && s.ifstate[0] == Outside
    && input.Pp?
    && Output(s, truth).Pp?
    && Output(s, truth).kept == input.kept
    && Agrees(Levels(s), input.frames, Output(s, truth).frames)
  }

  lemma ReadingsAppend(a: seq<Item>, b: seq<Item>)
    ensures Readings(a + b) == Readings(a) + Readings(b)
  {
  }

  /** What the reader of the output sees of one flushed line. */
  lemma FlushReads(o: Options, s: State, keep: bool, edit: Edit, truth: Truth)
    ensures Output(Flush(o, s, keep, edit), truth) ==
            if keep then Read(Output(s, truth), ReadItem(Text(edit, s.line, s.linenum)), truth)
            else Output(s, truth)
  {
    var s' := Flush(o, s, keep, edit);
    var item := Text(edit, s.line, s.linenum);
    var extra := s'.output[|s.output|..];
    assert s'.output == s.output + extra;
    ReadingsAppend(s.output, extra);
    ReadAllAppend(START, Readings(s.output), Readings(extra), truth);
    var pp := Output(s, truth);
    if !keep {
      if extra == [Blank] { ReadOne(pp, Blank, truth); }
    } else if |extra| == 1 {
      assert extra == [item];
      ReadOne(pp, item, truth);
    } else {
      assert extra == [LineNo(s.linenum)] + [item];
      ReadingsAppend([LineNo(s.linenum)], [item]);
      ReadAllAppend(pp, Readings([LineNo(s.linenum)]), Readings([item]), truth);
      ReadOne(pp, LineNo(s.linenum), truth);
      ReadOne(pp, item, truth);
    }
  }

  lemma ReadOne(pp: Pp, item: Item, truth: Truth)
    ensures ReadAll(pp, Readings([item]), truth) == Read(pp, ReadItem(item), truth)
  {
    var rs := Readings([item]);
    assert rs == [ReadItem(item)];
    assert ReadAll(Read(pp, rs[0], truth), rs[1..], truth) == Read(pp, rs[0], truth);
  }

  // ----- What one transition does to the stack -----

  lemma OpenShape(o: Options, s: State, keep: bool, here: IfState, ignore: bool)
    requires s.Valid() && Open(o, s, keep, here, ignore).Next?
    ensures var s' := Open(o, s, keep, here, ignore).state;
            && s'.output == Flush(o, s, keep, Unchanged).output
            && Levels(s') == Push(here, Levels(s)) && s'.ifstate[0] == s.ifstate[0]
  {
    StackFrame(s.ifstate, Open(o, s, keep, here, ignore).state.ifstate, s.depth);
  }

  lemma MoveShape(o: Options, s: State, keep: bool, edit: Edit, here: IfState)
    requires s.Valid() && s.depth > 0
    ensures Enter(o, s, keep, edit, here).Next? && Turn(o, s, keep, edit, here).Next?
    ensures forall s' | s' == Enter(o, s, keep, edit, here).state || s' == Turn(o, s, keep, edit, here).state ::
              && s'.output == Flush(o, s, keep, edit).output
              && Levels(s') == Push(here, Levels(s).rest) && s'.ifstate[0] == s.ifstate[0]
  {
    StackFrame(s.ifstate, SetState(s, here).ifstate, s.depth - 1);
  }

  lemma TopIs(s: State)
    requires s.Valid() && s.ifstate[0] == Outside
    ensures TopPrints(Levels(s)) == Printing(s.Top()) && (Levels(s).Bottom? <==> s.depth == 0)
    ensures s.depth > 0 ==> Levels(s).top == s.Top()
  {
  }

  // ----- Every step preserves the invariant -----

  lemma SameStack(s: State, line: Line, truth: Truth)
    requires s.Valid()
    ensures var s1 := Loaded(s, line);
            s1.Valid() && s1.Top() == s.Top() && Levels(s1) == Levels(s) && Output(s1, truth) == Output(s, truth)
  {
  }

  // What the table plans for each kind of line.

  lemma PlanForPlain(o: Options, top: IfState)
    ensures Plan(o, top, Plain) == FlushOnly(Printing(top))
  {
  }

  /** A group opens in a printed block as unknown (printed) or as known (dropped), in a
      dropped block as dropped. */
  lemma PlanForOpening(o: Options, top: IfState, k: Keyword, dodgy: bool)
    requires Opens(k)
    ensures var e := Plan(o, top, Directive(k, dodgy));
            && (e.OpenGroup? || e == Complain(Obfuscated))
            && (e.Complain? ==> dodgy)
            && (e.OpenGroup? ==>
                  if !Printing(top) then !e.keep && e.here == FalseTrailer
                  else if e.keep then e.here == PassMiddle
                  else e.here == (if k.TrueI? || k.True? then TruePrefix else FalsePrefix) && !k.If?)
  {
  }

  /** An open group is moved, closed, or complained about. */
  lemma PlanForContinuing(o: Options, top: IfState, k: Keyword, dodgy: bool)
    requires !Opens(k)
    ensures var e := Plan(o, top, Directive(k, dodgy));
            && (e.EnterState? || e.TurnState? || e.CloseGroup? || e.Complain?)
            && (e.CloseGroup? ==> k.Endif? && e.keep == InOutput(top))
            && (e.EnterState? || e.TurnState? ==> !k.Endif?)
            && (!e.Complain? ==> !top.Outside?)
  {
    match top
    case Outside =>
    case FalsePrefix =>
    case TruePrefix =>
    case PassMiddle =>
    case FalseMiddle =>
    case TrueMiddle =>
    case PassElse =>
    case FalseElse =>
    case TrueElse =>
    case FalseTrailer =>
  }

  predicate Moves(e: Effect) { e.EnterState? || e.TurnState? }

  /** The heart of the matter, for the group alone: the line read on the input side and
      the edited line read on the output side lead to agreeing frames again. */
  lemma MoveFrames(o: Options, top: IfState, fi: Frame, fo: Frame, line: Line, truth: Truth)
    requires LevelAgrees(top, fi, fo) && (!InOutput(top) ==> fi == fo)
    requires line.kind.Directive? && !Opens(line.kind.keyword) && Consistent(line, truth)
    requires Moves(Plan(o, top, line.kind))
    ensures var e := Plan(o, top, line.kind);
            var r, r' := ReadLine(line), MovedReading(e.edit, line);
            && (r.HashElif? || r.HashElse?) && !fi.sawElse
            && var fi' := NextFrame(fi, r, truth);
               if InOutput(e.here) && InOutput(top) then
                 if e.keep then
                   (r'.HashElif? || r'.HashElse?) && !fo.sawElse && LevelAgrees(e.here, fi', NextFrame(fo, r', truth))
                 else LevelAgrees(e.here, fi', fo)
               else if InOutput(e.here) then
                 && e.keep && r' == HashIf(line.text)
                 && LevelAgrees(e.here, fi', Frame(truth(line.text), truth(line.text), false))
               else
                 LevelAgrees(e.here, fi', fi') && e.keep == InOutput(top) && (e.keep ==> r'.HashEndif?)
  {
    match top
    case Outside =>
    case FalsePrefix =>
    case TruePrefix =>
    case PassMiddle =>
    case FalseMiddle =>
    case TrueMiddle =>
    case PassElse =>
    case FalseElse =>
    case TrueElse =>
    case FalseTrailer =>
  }

  /** In a group inside a dropped block everything is dropped. */
  lemma MoveDropped(o: Options, top: IfState, fi: Frame, line: Line, truth: Truth)
    requires top == FalseTrailer || top == FalseElse
    requires fi.sawElse == (top == FalseElse)
    requires line.kind.Directive? && !Opens(line.kind.keyword) && Moves(Plan(o, top, line.kind))
    ensures var e, r := Plan(o, top, line.kind), ReadLine(line);
            && !e.keep && (e.here == FalseTrailer || e.here == FalseElse)
            && (r.HashElif? || r.HashElse?) && !fi.sawElse
            && NextFrame(fi, r, truth).sawElse == (e.here == FalseElse)
  {
  }

  /** The reading of the line a moving transition prints. */
  function MovedReading(edit: Edit, line: Line): Reading {
    ReadItem(Text(edit, line, 0))
  }

  /** The same with the groups around it. */
  lemma MoveAgrees(o: Options, levels: Stack<IfState>, input: Pp, output: Pp, line: Line, truth: Truth)
    requires input.Pp? && output.Pp? && Agrees(levels, input.frames, output.frames)
    requires levels.Push? && Consistent(line, truth) && line.kind.Directive? && !Opens(line.kind.keyword)
    requires Moves(Plan(o, levels.top, line.kind))
    ensures var e := Plan(o, levels.top, line.kind);
            var input' := Read(input, ReadLine(line), truth);
            var output' := if e.keep then Read(output, MovedReading(e.edit, line), truth) else output;
            && input'.Pp? && output'.Pp? && input'.kept == input.kept && output'.kept == output.kept
            && Agrees(Push(e.here, levels.rest), input'.frames, output'.frames)
  {
    var fi := input.frames.top;
    if TopPrints(levels.rest) {
      MoveFrames(o, levels.top, fi, if InOutput(levels.top) then output.frames.top else fi, line, truth);
    } else {
      MoveDropped(o, levels.top, fi, line, truth);
    }
  }

  /** What the effect of a line does to the two readings, given the stack before and after. */
  predicate Advances(s: State, s': State, keep: bool, r: Reading, levels': Stack<IfState>, truth: Truth) {
    && s.Valid() && s'.Valid() && s'.ifstate[0] == Outside
    && Levels(s') == levels'
    && Output(s', truth) == if keep then Read(Output(s, truth), r, truth) else Output(s, truth)
  }

  lemma PlainMirrors(o: Options, s: State, line: Line, input: Pp, truth: Truth)
    requires Mirrors(s, input, truth) && line.kind.Plain?
    ensures var r := Step(o, s, line); r.Next? && Mirrors(r.state, Read(input, ReadLine(line), truth), truth)
  {
    TopIs(s);
    LiveAgrees(Levels(s), input.frames, Output(s, truth).frames);
    PlanForPlain(o, s.Top());
    SameStack(s, line, truth);
    FlushReads(o, Loaded(s, line), Printing(s.Top()), Unchanged, truth);
  }

  lemma OpenAdvances(o: Options, s: State, e: Effect, truth: Truth)
    requires s.Valid() && s.ifstate[0] == Outside && e.OpenGroup? && Perform(o, e, s).Next?
    ensures Advances(s, Perform(o, e, s).state, e.keep, ReadLine(s.line), Push(e.here, Levels(s)), truth)
  {
    OpenShape(o, s, e.keep, e.here, e.ignore);
    FlushReads(o, s, e.keep, Unchanged, truth);
  }

  lemma OpenMirrors(o: Options, s: State, line: Line, input: Pp, truth: Truth)
    requires Mirrors(s, input, truth) && Consistent(line, truth)
    requires line.kind.Directive? && Opens(line.kind.keyword) && Step(o, s, line).Next?
    ensures Mirrors(Step(o, s, line).state, Read(input, ReadLine(line), truth), truth)
  {
    TopIs(s);
    SameStack(s, line, truth);
    PlanForOpening(o, s.Top(), line.kind.keyword, line.kind.dodgy);
    OpenAdvances(o, Loaded(s, line), Plan(o, s.Top(), line.kind), truth);
  }

  lemma MoveAdvances(o: Options, s: State, e: Effect, truth: Truth)
    requires s.Valid() && s.ifstate[0] == Outside && s.depth > 0 && Moves(e) && Perform(o, e, s).Next?
    ensures Advances(s, Perform(o, e, s).state, e.keep, MovedReading(e.edit, s.line), Push(e.here, Levels(s).rest), truth)
  {
    MoveShape(o, s, e.keep, e.edit, e.here);
    FlushReads(o, s, e.keep, e.edit, truth);
  }

  lemma MoveMirrors(o: Options, s: State, line: Line, input: Pp, truth: Truth)
    requires Mirrors(s, input, truth) && Consistent(line, truth) && Step(o, s, line).Next?
    requires line.kind.Directive? && !Opens(line.kind.keyword) && Moves(Plan(o, s.Top(), line.kind))
    ensures Mirrors(Step(o, s, line).state, Read(input, ReadLine(line), truth), truth)
  {
    TopIs(s);
    SameStack(s, line, truth);
    PlanForContinuing(o, s.Top(), line.kind.keyword, line.kind.dodgy);
    MoveAdvances(o, Loaded(s, line), Plan(o, s.Top(), line.kind), truth);
    MoveAgrees(o, Levels(s), input, Output(s, truth), line, truth);
  }

  lemma CloseAdvances(o: Options, s: State, e: Effect, truth: Truth)
    requires s.Valid() && s.ifstate[0] == Outside && s.depth > 0 && e.CloseGroup? && Perform(o, e, s).Next?
    ensures Advances(s, Perform(o, e, s).state, e.keep, ReadLine(s.line), Levels(s).rest, truth)
  {
    FlushReads(o, s, e.keep, Unchanged, truth);
  }

  lemma CloseMirrors(o: Options, s: State, line: Line, input: Pp, truth: Truth)
    requires Mirrors(s, input, truth) && Step(o, s, line).Next?
    requires line.kind.Directive? && !Opens(line.kind.keyword) && Plan(o, s.Top(), line.kind).CloseGroup?
    ensures Mirrors(Step(o, s, line).state, Read(input, ReadLine(line), truth), truth)
  {
    TopIs(s);
    SameStack(s, line, truth);
    PlanForContinuing(o, s.Top(), line.kind.keyword, line.kind.dodgy);
    CloseAdvances(o, Loaded(s, line), Plan(o, s.Top(), line.kind), truth);
  }

  lemma StepMirrors(o: Options, s: State, line: Line, input: Pp, truth: Truth)
    requires Mirrors(s, input, truth) && Consistent(line, truth) && Step(o, s, line).Next?
    ensures Mirrors(Step(o, s, line).state, Read(input, ReadLine(line), truth), truth)
  {
    if line.kind.Plain? {
      PlainMirrors(o, s, line, input, truth);
    } else if Opens(line.kind.keyword) {
      OpenMirrors(o, s, line, input, truth);
    } else {
      PlanForContinuing(o, s.Top(), line.kind.keyword, line.kind.dodgy);
      if Moves(Plan(o, s.Top(), line.kind)) {
        MoveMirrors(o, s, line, input, truth);
      } else {
        CloseMirrors(o, s, line, input, truth);
      }
    }
  }

  lemma NeverDone(o: Options, s: State, line: Line)
    requires s.Valid() && line.kind != Eof
    ensures Step(o, s, line).Stop? ==> Step(o, s, line).why != Done
  {
  }

  /** A run that goes on is a step and a run of what follows. */
  lemma RunUnrolled(o: Options, s: State, lines: seq<Line>)
    requires s.Valid() && lines != [] && Run(o, s, lines).why == Done && lines[0].kind != Eof
    ensures Step(o, s, lines[0]).Next?
    ensures Run(o, s, lines) == Run(o, Step(o, s, lines[0]).state, lines[1..])
  {
    NeverDone(o, s, lines[0]);
  }

  lemma RunEnds(o: Options, s: State)
    requires s.Valid() && Run(o, s, []).why == Done
    ensures s.Top() == Outside && Run(o, s, []).state == s
  {
  }

  /** The lines of a file: no line but the last reading is the end of the file. */
  predicate IsFile(lines: seq<Line>) {
    forall l | l in lines :: l.kind != Eof
  }

  lemma {:induction false} RunMirrors(o: Options, s: State, lines: seq<Line>, input: Pp, truth: Truth)
    requires Mirrors(s, input, truth) && IsFile(lines) && forall l | l in lines :: Consistent(l, truth)
    requires Run(o, s, lines).why == Done
    ensures Mirrors(Run(o, s, lines).state, ReadAll(input, LineReadings(lines), truth), truth)
    ensures Run(o, s, lines).state.Top() == Outside
    decreases |lines|
  {
    if lines == [] {
      RunEnds(o, s);
      assert LineReadings(lines) == [];
    } else {
      RunUnrolled(o, s, lines);
      StepMirrors(o, s, lines[0], input, truth);
      assert LineReadings(lines)[1..] == LineReadings(lines[1..]);
      RunMirrors(o, Step(o, s, lines[0]).state, lines[1..], Read(input, ReadLine(lines[0]), truth), truth);
    }
  }

  lemma AtBottom(s: State, input: Pp, truth: Truth)
    requires Mirrors(s, input, truth) && s.Top() == Outside
    ensures input.frames.Bottom? && Output(s, truth) == input
  {
    TopIs(s);
  }

  /** Meaning is preserved: whatever the unknown symbols turn out to be, a preprocessor
      keeps the same plain lines of the output as of the input, and finds both well nested. */
  lemma MeaningPreserved(o: Options, lines: seq<Line>, truth: Truth)
    requires IsFile(lines) && Run(o, INITIAL, lines).why == Done
    requires forall l | l in lines :: Consistent(l, truth)
    ensures var before := ReadAll(START, LineReadings(lines), truth);
            var after := ReadAll(START, Readings(Run(o, INITIAL, lines).state.output), truth);
            before.Pp? && before.frames.Bottom? && after == before
  {
    assert Readings(INITIAL.output) == [];
    assert Mirrors(INITIAL, START, truth);
    RunMirrors(o, INITIAL, lines, START, truth);
    AtBottom(Run(o, INITIAL, lines).state, ReadAll(START, LineReadings(lines), truth), truth);
  }
}
