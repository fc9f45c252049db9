/** Which files `unifdef` accepts, and where the lines of its output come from. */
module UnifdefRuns {
  import opened UnifdefMachine
  import opened UnifdefMeaning

  // ----- Acceptance -----

  /** Well-nested conditionals, at most 63 deep: `open` says of each open group whether
      its `#else` has been seen. */
  predicate WellNested(open: Stack<bool>, depth: nat, lines: seq<Line>)
    decreases |lines|
  {
    if lines == [] then open.Bottom?
    else
      match ReadLine(lines[0])
      case HashIf(_) => depth < 63 && WellNested(Push(false, open), depth + 1, lines[1..])
      case HashElif(_) => open.Push? && !open.top && WellNested(open, depth, lines[1..])
      case HashElse => open.Push? && !open.top && WellNested(Push(true, open.rest), depth, lines[1..])
      case HashEndif => open.Push? && depth > 0 && WellNested(open.rest, depth - 1, lines[1..])
      case Words(_) => WellNested(open, depth, lines[1..])
      case Nothing => WellNested(open, depth, lines[1..])
  }

  predicate SawElse(here: IfState) {
    here.PassElse? || here.FalseElse? || here.TrueElse?
  }

  function ElseSeen(levels: Stack<IfState>): Stack<bool> {
    if levels.Bottom? then Bottom else Push(SawElse(levels.top), ElseSeen(levels.rest))
  }

  /** The bottom of the stack, and nothing else, is outside all groups; ignoring comments
      is off there and stays on in every group inside one that ignores them. */
  predicate Sound(s: State) {
    && s.Valid()
    && s.ifstate[0] == Outside && !s.ignoring[0]
    && (forall i | 1 <= i <= s.depth :: s.ifstate[i] != Outside)
    && (forall i, j | 0 <= i < j <= s.depth :: s.ignoring[i] ==> s.ignoring[j])
  }

  /** A line the parser can hand over: a directive or a plain line. */
  predicate Proper(line: Line) {
    line.kind.Directive? || line.kind.Plain?
  }

  lemma MoveSound(o: Options, e: Effect, s: State)
    requires Sound(s) && Moves(e) && e.here != Outside && s.depth > 0
    ensures Perform(o, e, s).Next? && Sound(Perform(o, e, s).state)
  {
  }

  lemma OpenSound(o: Options, e: Effect, s: State)
    requires Sound(s) && e.OpenGroup? && e.here != Outside
    ensures if s.depth == MAXDEPTH - 1 then Perform(o, e, s) == Stop(Failed(TooManyLevels))
            else Perform(o, e, s).Next? && Sound(Perform(o, e, s).state)
  {
  }

  lemma PerformSound(o: Options, e: Effect, s: State)
    requires Sound(s) && (e.OpenGroup? || Moves(e) ==> e.here != Outside)
    requires Moves(e) || e.CloseGroup? ==> s.depth > 0
    ensures var r := Perform(o, e, s);
            if e.Complain? || e.Finish? || e.Crash? then r.Stop?
            else if e.OpenGroup? && s.depth == MAXDEPTH - 1 then r == Stop(Failed(TooManyLevels))
            else r.Next? && Sound(r.state)
  {
    if Moves(e) { MoveSound(o, e, s); }
    if e.OpenGroup? { OpenSound(o, e, s); }
  }

  /** The plan for a proper line is one the state allows. */
  lemma PlanAllowed(o: Options, s: State, line: Line)
    requires Sound(s) && Proper(line)
    ensures var e := Plan(o, s.Top(), line.kind);
            && (e.OpenGroup? || Moves(e) ==> e.here != Outside)
            && (Moves(e) || e.CloseGroup? ==> s.depth > 0)
            && !e.Finish? && !e.Crash?
  {
    if line.kind.Directive? {
      if Opens(line.kind.keyword) {
        PlanForOpening(o, s.Top(), line.kind.keyword, line.kind.dodgy);
      } else {
        PlanForContinuing(o, s.Top(), line.kind.keyword, line.kind.dodgy);
      }
    }
  }

  lemma StepSound(o: Options, s: State, line: Line)
    requires Sound(s) && Proper(line)
    ensures Step(o, s, line).Next? ==> Sound(Step(o, s, line).state)
    ensures Step(o, s, line).Stop? ==> Step(o, s, line).why.Failed?
  {
    PlanAllowed(o, s, line);
    PerformSound(o, Plan(o, s.Top(), line.kind), Loaded(s, line));
  }

  /** The aborts in the table and in `ignoreoff`, `nest` and `unnest` are unreachable: a
      run ends at the end of the file, or with a complaint. */
  lemma {:induction false} NoAbort(o: Options, s: State, lines: seq<Line>)
    requires Sound(s) && forall l | l in lines :: Proper(l)
    ensures Run(o, s, lines).why.Done? || Run(o, s, lines).why.Failed?
    ensures Sound(Run(o, s, lines).state)
    decreases |lines|
  {
    if lines != [] {
      StepSound(o, s, lines[0]);
      if Step(o, s, lines[0]).Next? { NoAbort(o, Step(o, s, lines[0]).state, lines[1..]); }
    }
  }

  lemma InitialSound()
    ensures Sound(INITIAL)
  {
  }

  /** Which readings the machine takes in a given stack, when the directive is on one line. */
  predicate Takes(levels: Stack<IfState>, depth: nat, r: Reading) {
    match r
    case HashIf(_) => depth < 63
    case HashElif(_) => levels.Push? && !SawElse(levels.top)
    case HashElse => levels.Push? && !SawElse(levels.top)
    case HashEndif => levels.Push?
    case _ => true
  }

  /** On one line, a directive is complained about exactly when it is out of place. */
  lemma PlanTakes(o: Options, top: IfState, k: Keyword)
    ensures var e := Plan(o, top, Directive(k, false));
            if Opens(k) then e.OpenGroup?
            else if k.Endif? then e.Complain? <==> top.Outside?
            else e.Complain? <==> top.Outside? || SawElse(top)
  {
    match top
    case Outside =>
    case FalsePrefix =>
    case TruePrefix =>
    case PassMiddle =>
    case FalseMiddle =>
    case TrueMiddle =>
    case PassElse =>
    case FalseElse =>
    case TrueElse =>
    case FalseTrailer =>
  }

  lemma StepTakes(o: Options, s: State, line: Line)
    requires Sound(s) && Proper(line) && (line.kind.Directive? ==> !line.kind.dodgy)
    ensures Step(o, s, line).Next? <==> Takes(Levels(s), s.depth, ReadLine(line))
  {
    TopIs(s);
    PlanAllowed(o, s, line);
    PerformSound(o, Plan(o, s.Top(), line.kind), Loaded(s, line));
    if line.kind.Directive? {
      PlanTakes(o, s.Top(), line.kind.keyword);
    }
  }

  /** The `#else` marks after an effect that goes on. */
  lemma PerformElses(o: Options, e: Effect, s: State)
    requires Sound(s) && Perform(o, e, s).Next? && (Moves(e) || e.CloseGroup? ==> s.depth > 0)
    ensures var s', open := Perform(o, e, s).state, ElseSeen(Levels(s));
            if e.FlushOnly? then s'.depth == s.depth && ElseSeen(Levels(s')) == open
            else if e.OpenGroup? then s'.depth == s.depth + 1 && ElseSeen(Levels(s')) == Push(SawElse(e.here), open)
            else if Moves(e) then s'.depth == s.depth && ElseSeen(Levels(s')) == Push(SawElse(e.here), open.rest)
            else s'.depth == s.depth - 1 && ElseSeen(Levels(s')) == open.rest
  {
    if e.OpenGroup? { OpenShape(o, s, e.keep, e.here, e.ignore); }
    if Moves(e) { MoveShape(o, s, e.keep, e.edit, e.here); }
  }

  /** How a plan for the directive `k` may change the `#else` marks. */
  predicate PlanMarks(e: Effect, top: IfState, k: Keyword) {
    && (e.OpenGroup? ==> Opens(k) && !SawElse(e.here))
    && (e.CloseGroup? ==> k.Endif?)
    && (Moves(e) ==> if k.Else? then SawElse(e.here) else IsElif(k) && !SawElse(e.here) && !SawElse(top))
    && !e.FlushOnly?
  }

  lemma RowMarks(o: Options, top: IfState, k: Keyword, dodgy: bool)
    requires !Opens(k)
    ensures PlanMarks(Row(o.iocccok, top, k, dodgy), top, k)
  {
    match top
    case Outside =>
    case FalsePrefix =>
    case TruePrefix =>
    case PassMiddle =>
    case FalseMiddle =>
    case TrueMiddle =>
    case PassElse =>
    case FalseElse =>
    case TrueElse =>
    case FalseTrailer =>
  }

  lemma PlanElses(o: Options, top: IfState, k: Keyword, dodgy: bool)
    ensures PlanMarks(Plan(o, top, Directive(k, dodgy)), top, k)
  {
    if !Opens(k) { RowMarks(o, top, k, dodgy); }
  }

  lemma StepElses(o: Options, s: State, line: Line)
    requires Sound(s) && Proper(line) && Step(o, s, line).Next?
    ensures var s' := Step(o, s, line).state;
            var open, open' := ElseSeen(Levels(s)), ElseSeen(Levels(s'));
            match ReadLine(line)
            case HashIf(_) => s'.depth == s.depth + 1 && open' == Push(false, open)
            case HashElif(_) => s'.depth == s.depth > 0 && open.Push? && open' == open
            case HashElse => s'.depth == s.depth > 0 && open.Push? && open' == Push(true, open.rest)
            case HashEndif => s'.depth == s.depth - 1 && open.Push? && open' == open.rest
            case _ => s'.depth == s.depth && open' == open
  {
    TopIs(s);
    PlanAllowed(o, s, line);
    PerformElses(o, Plan(o, s.Top(), line.kind), Loaded(s, line));
    if line.kind.Directive? { PlanElses(o, s.Top(), line.kind.keyword, line.kind.dodgy); }
  }

  lemma {:induction false} RunAccepts(o: Options, s: State, lines: seq<Line>)
    requires Sound(s) && forall l | l in lines :: Proper(l) && (l.kind.Directive? ==> !l.kind.dodgy)
    ensures Run(o, s, lines).why.Done? <==> WellNested(ElseSeen(Levels(s)), s.depth, lines)
    decreases |lines|
  {
    TopIs(s);
    if lines != [] {
      var line := lines[0];
      StepTakes(o, s, line);
      StepSound(o, s, line);
      if Step(o, s, line).Next? {
        StepElses(o, s, line);
        RunAccepts(o, Step(o, s, line).state, lines[1..]);
      }
    }
  }

  /** Of files whose directives are each on one line, exactly the well-nested ones are
      accepted, whatever is known about their conditions. */
  lemma AcceptsExactlyWellNested(o: Options, lines: seq<Line>)
    requires forall l | l in lines :: Proper(l) && (l.kind.Directive? ==> !l.kind.dodgy)
    ensures Run(o, INITIAL, lines).why.Done? <==> WellNested(Bottom, 0, lines)
  {
    InitialSound();
    RunAccepts(o, INITIAL, lines);
  }

  // ----- Where the output lines come from -----

  /** How an effect that goes on edits the line. */
  function EditOf(e: Effect): Edit {
    if Moves(e) then e.edit else Unchanged
  }

  predicate SameOutput(a: State, b: State) {
    a.output == b.output && a.delcount == b.delcount && a.linenum == b.linenum && a.exitstat == b.exitstat
  }

  /** Every step that goes on flushes the current line exactly once. */
  lemma StepFlushesOnce(o: Options, s: State, line: Line)
    requires s.Valid() && Step(o, s, line).Next?
    ensures var e := Plan(o, s.Top(), line.kind);
            && !e.Complain? && !e.Finish? && !e.Crash?
            && SameOutput(Step(o, s, line).state, Flush(o, Loaded(s, line), e.keep, EditOf(e)))
  {
  }

  /** The number a compiler gives the line after these, heeding `#line` directives. */
  function LineAfter(items: seq<Item>): nat {
    if items == [] then 1
    else
      var last := items[|items| - 1];
      if last.LineNo? then last.number else LineAfter(items[..|items| - 1]) + 1
  }

  /** A compiler reading the output gives every kept line the number it had in the input. */
  predicate NumbersRight(items: seq<Item>) {
    forall k | 0 <= k < |items| && items[k].Text? :: LineAfter(items[..k]) == items[k].at
  }

  /** Kept lines are lines of the input, in their order. */
  predicate Selects(items: seq<Item>, lines: seq<Line>) {
    && (forall k | 0 <= k < |items| && items[k].Text? ::
          1 <= items[k].at <= |lines| && items[k].line == lines[items[k].at - 1])
    && (forall j, k | 0 <= j < k < |items| && items[j].Text? && items[k].Text? :: items[j].at < items[k].at)
  }

  predicate LinesWritten(o: Options) { o.lnnum && o.toStdout }

  /** The invariant behind the line numbers. */
  predicate Numbered(o: Options, s: State) {
    if o.lnblank then NumbersRight(s.output) && LineAfter(s.output) == s.linenum + 1
    else if LinesWritten(o) then NumbersRight(s.output) && (s.delcount == 0 ==> LineAfter(s.output) == s.linenum + 1)
    else forall k | 0 <= k < |s.output| :: s.output[k].Text?
  }

  lemma {:induction false} PlainNumbers(items: seq<Item>)
    requires forall k | 0 <= k < |items| :: items[k].Text?
    ensures LineAfter(items) == |items| + 1
  {
    if items != [] { PlainNumbers(items[..|items| - 1]); }
  }

  lemma NumbersAppend(items: seq<Item>, item: Item)
    requires NumbersRight(items) && (item.Text? ==> LineAfter(items) == item.at)
    ensures NumbersRight(items + [item])
    ensures LineAfter(items + [item]) == if item.LineNo? then item.number else LineAfter(items) + 1
  {
    var items' := items + [item];
    assert items'[..|items|] == items;
    forall k | 0 <= k < |items'| && items'[k].Text? ensures LineAfter(items'[..k]) == items'[k].at {
      if k < |items| { assert items'[..k] == items[..k]; }
    }
  }

  lemma FlushNumbered(o: Options, s: State, keep: bool, edit: Edit)
    requires s.linenum > 0 && Numbered(o, s.(linenum := s.linenum - 1))
    ensures Numbered(o, Flush(o, s, keep, edit))
  {
    var item := Text(edit, s.line, s.linenum);
    if o.lnblank || LinesWritten(o) {
      if keep {
        if LinesWritten(o) && s.delcount > 0 {
          NumbersAppend(s.output, LineNo(s.linenum));
          NumbersAppend(s.output + [LineNo(s.linenum)], item);
          assert s.output + [LineNo(s.linenum)] + [item] == s.output + ([LineNo(s.linenum)] + [item]);
        } else {
          NumbersAppend(s.output, item);
          assert s.output + [] + [item] == s.output + [item];
        }
      } else if o.lnblank {
        NumbersAppend(s.output, Blank);
      } else {
        assert s.output + [] == s.output;
      }
    }
  }

  lemma FlushSelects(o: Options, s: State, keep: bool, edit: Edit, lines: seq<Line>)
    requires s.linenum == |lines| + 1 && Selects(s.output, lines)
    ensures Selects(Flush(o, s, keep, edit).output, lines + [s.line])
  {
  }

  lemma StepNumbered(o: Options, s: State, before: seq<Line>, line: Line)
    requires Sound(s) && Proper(line) && Step(o, s, line).Next?
    requires s.linenum == |before| && Numbered(o, s) && Selects(s.output, before)
    ensures var s' := Step(o, s, line).state;
            && Sound(s') && s'.linenum == |before + [line]| && Numbered(o, s') && Selects(s'.output, before + [line])
  {
    var e := Plan(o, s.Top(), line.kind);
    StepFlushesOnce(o, s, line);
    FlushNumbered(o, Loaded(s, line), e.keep, EditOf(e));
    FlushSelects(o, Loaded(s, line), e.keep, EditOf(e), before);
    StepSound(o, s, line);
  }

  lemma {:induction false} RunNumbered(o: Options, s: State, before: seq<Line>, lines: seq<Line>)
    requires Sound(s) && (forall l | l in lines :: Proper(l))
    requires s.linenum == |before| && Numbered(o, s) && Selects(s.output, before)
    ensures Numbered(o, Run(o, s, lines).state) && Selects(Run(o, s, lines).state.output, before + lines)
    decreases |lines|
  {
    if lines == [] {
      assert before + lines == before;
    } else if Step(o, s, lines[0]).Stop? {
      assert Selects(s.output, before + lines);
    } else {
      StepNumbered(o, s, before, lines[0]);
      RunNumbered(o, Step(o, s, lines[0]).state, before + [lines[0]], lines[1..]);
      assert before + lines == before + [lines[0]] + lines[1..];
    }
  }

  /** What is planned for each line the run takes: is it kept or deleted? */
  function Keeps(o: Options, s: State, lines: seq<Line>): (keeps: seq<bool>)
    requires s.Valid()
    decreases |lines|
  {
    if lines == [] || Step(o, s, lines[0]).Stop? then []
    else
      var e := Plan(o, s.Top(), lines[0].kind);
      [!(e.Complain? || e.Finish? || e.Crash?) && e.keep] + Keeps(o, Step(o, s, lines[0]).state, lines[1..])
  }

  /** No kept line follows a deleted one. */
  predicate KeptFirst(keeps: seq<bool>) {
    forall i, j | 0 <= i < j < |keeps| && keeps[j] :: keeps[i]
  }

  /** The numbers of the kept lines. */
  function KeptAt(keeps: seq<bool>): (numbers: seq<nat>)
    ensures |numbers| <= |keeps|
  {
    if keeps == [] then []
    else
      var n := |keeps|;
      KeptAt(keeps[..n - 1]) + if keeps[n - 1] then [n] else []
  }

  lemma {:induction false} NoneDeleted(keeps: seq<bool>)
    ensures |KeptAt(keeps)| == |keeps| <==> forall i | 0 <= i < |keeps| :: keeps[i]
    decreases |keeps|
  {
    if keeps != [] { NoneDeleted(keeps[..|keeps| - 1]); }
  }

  /** Kept lines take the first places exactly if they come first. */
  lemma {:induction false} KeptLead(keeps: seq<bool>)
    ensures KeptFirst(keeps) <==> forall k | 0 <= k < |KeptAt(keeps)| :: KeptAt(keeps)[k] == k + 1
    decreases |keeps|
  {
    if keeps != [] {
      var n := |keeps| - 1;
      var init := keeps[..n];
      KeptLead(init);
      NoneDeleted(init);
      if keeps[n] {
        assert KeptFirst(keeps) <==> forall i | 0 <= i < n :: init[i];
        assert KeptAt(keeps) == KeptAt(init) + [n + 1];
        assert KeptAt(keeps)[|KeptAt(init)|] == n + 1;
        assert forall k | 0 <= k < |KeptAt(init)| :: KeptAt(keeps)[k] == KeptAt(init)[k];
      } else {
        assert KeptAt(keeps) == KeptAt(init);
        assert KeptFirst(keeps) <==> KeptFirst(init);
      }
    }
  }

  /** The output consists of the kept lines alone. */
  predicate JustKept(items: seq<Item>, keeps: seq<bool>) {
    |items| == |KeptAt(keeps)| && forall k | 0 <= k < |items| :: items[k].Text? && items[k].at == KeptAt(keeps)[k]
  }

  lemma StepJustKept(o: Options, s: State, line: Line, before: seq<bool>)
    requires s.Valid() && Step(o, s, line).Next? && !o.lnblank && !LinesWritten(o)
    requires s.linenum == |before| && JustKept(s.output, before)
    ensures var e, s' := Plan(o, s.Top(), line.kind), Step(o, s, line).state;
            && !(e.Complain? || e.Finish? || e.Crash?)
            && s'.linenum == |before| + 1 && JustKept(s'.output, before + [e.keep])
  {
    var e := Plan(o, s.Top(), line.kind);
    StepFlushesOnce(o, s, line);
    assert (before + [e.keep])[..|before|] == before;
  }

  lemma RunGoesOn(o: Options, s: State, before: seq<bool>, lines: seq<Line>) returns (keep: bool, s': State)
    requires s.Valid() && lines != [] && Step(o, s, lines[0]).Next? && !o.lnblank && !LinesWritten(o)
    requires s.linenum == |before| && JustKept(s.output, before)
    ensures s'.Valid() && s'.linenum == |before| + 1 && JustKept(s'.output, before + [keep])
    ensures Run(o, s, lines) == Run(o, s', lines[1..])
    ensures before + Keeps(o, s, lines) == before + [keep] + Keeps(o, s', lines[1..])
  {
    keep, s' := Plan(o, s.Top(), lines[0].kind).keep, Step(o, s, lines[0]).state;
    StepJustKept(o, s, lines[0], before);
    assert Keeps(o, s, lines) == [keep] + Keeps(o, s', lines[1..]);
  }

  lemma {:induction false} RunJustKept(o: Options, s: State, before: seq<bool>, lines: seq<Line>)
    requires s.Valid() && !o.lnblank && !LinesWritten(o)
    requires s.linenum == |before| && JustKept(s.output, before)
    ensures JustKept(Run(o, s, lines).state.output, before + Keeps(o, s, lines))
    decreases |lines|
  {
    if lines == [] || Step(o, s, lines[0]).Stop? {
      assert before + [] == before;
    } else {
      var keep, s' := RunGoesOn(o, s, before, lines);
      RunJustKept(o, s', before + [keep], lines[1..]);
    }
  }

  lemma PlainNumbersRight(items: seq<Item>, keeps: seq<bool>)
    requires JustKept(items, keeps)
    ensures NumbersRight(items) <==> KeptFirst(keeps)
  {
    KeptLead(keeps);
    forall k | 0 <= k < |items| ensures LineAfter(items[..k]) == k + 1 {
      PlainNumbers(items[..k]);
    }
  }

  /** The output selects lines of the input in order. A compiler sees their original
      numbers exactly when deleted lines are blanked (-b), or `#line` directives (-n) reach
      the output, or the plan deletes no line before one it keeps. */
  lemma LineNumbers(o: Options, lines: seq<Line>)
    requires forall l | l in lines :: Proper(l)
    ensures var out := Run(o, INITIAL, lines).state.output;
            && Selects(out, lines)
            && (NumbersRight(out) <==> o.lnblank || LinesWritten(o) || KeptFirst(Keeps(o, INITIAL, lines)))
  {
    InitialSound();
    RunNumbered(o, INITIAL, [], lines);
    var out := Run(o, INITIAL, lines).state.output;
    assert [] + lines == lines;
    if !o.lnblank && !LinesWritten(o) {
      RunJustKept(o, INITIAL, [], lines);
      assert [] + Keeps(o, INITIAL, lines) == Keeps(o, INITIAL, lines);
      PlainNumbersRight(out, Keeps(o, INITIAL, lines));
    }
  }

  /** The file `#if 0`, `#endif`, text. */
  const DELETED_FIRST := [Line(Directive(False, false), 0), Line(Directive(Endif, false), 1), Line(Plain, 2)]

  lemma DeletedFirstOpens(o: Options, s: State)
    requires s.Valid() && s.depth == 0 && s.Top() == Outside && !o.lnblank
    ensures var r := Step(o, s, DELETED_FIRST[0]);
            && r.Next? && r.state.depth == 1 && r.state.Top() == FalsePrefix && r.state.ifstate[0] == Outside
            && r.state.output == s.output && r.state.linenum == s.linenum + 1
  {
    assert Plan(o, Outside, Directive(False, false)) == F_FALSE;
  }

  lemma DeletedFirstCloses(o: Options, s: State)
    requires s.Valid() && s.depth == 1 && s.Top() == FalsePrefix && s.ifstate[0] == Outside && !o.lnblank
    ensures var r := Step(o, s, DELETED_FIRST[1]);
            && r.Next? && r.state.depth == 0 && r.state.Top() == Outside
            && r.state.output == s.output && r.state.linenum == s.linenum + 1
  {
    assert Plan(o, FalsePrefix, Directive(Endif, false)) == D_ENDIF;
  }

  lemma PlainLineKept(o: Options, s: State, line: Line)
    requires s.Valid() && s.depth == 0 && s.Top() == Outside && !LinesWritten(o) && line.kind == Plain
    ensures Run(o, s, [line]).why == Done
    ensures Run(o, s, [line]).state.output == s.output + [Text(Unchanged, line, s.linenum + 1)]
  {
    assert Plan(o, Outside, Plain) == PRINT;
    var s' := Step(o, s, line).state;
    assert s'.output == s.output + [] + [Text(Unchanged, line, s.linenum + 1)];
    assert [line][1..] == [];
    assert Run(o, s', []) == Report(s', Done);
  }

  /** With any options but -b, or -n to standard output, that file gets a wrong number: the text is
      left as line 1. With -n and -o together the directives go to standard output instead. */
  lemma NumberingFails(o: Options)
    requires !o.lnblank && !LinesWritten(o)
    ensures var r := Run(o, INITIAL, DELETED_FIRST);
            r.why == Done && r.state.output == [Text(Unchanged, DELETED_FIRST[2], 3)] && !NumbersRight(r.state.output)
  {
    var lines := DELETED_FIRST;
    DeletedFirstOpens(o, INITIAL);
    var s1 := Step(o, INITIAL, lines[0]).state;
    DeletedFirstCloses(o, s1);
    var s2 := Step(o, s1, lines[1]).state;
    PlainLineKept(o, s2, lines[2]);
    assert lines[1..][0] == lines[1] && lines[1..][1..] == [lines[2]];
    assert Run(o, s1, lines[1..]) == Run(o, s2, [lines[2]]);
    var out := [Text(Unchanged, lines[2], 3)];
    assert out[0].Text? && out[..0] == [];
  }

  /** Every file keeps its line numbers if and only if the options say -b, or -n without -o. */
  lemma NumbersKeptIff(o: Options)
    ensures (forall lines | (forall l | l in lines :: Proper(l)) :: NumbersRight(Run(o, INITIAL, lines).state.output))
       <==> o.lnblank || LinesWritten(o)
  {
    if o.lnblank || LinesWritten(o) {
      forall lines | (forall l | l in lines :: Proper(l)) ensures NumbersRight(Run(o, INITIAL, lines).state.output) {
        LineNumbers(o, lines);
      }
    } else {
      NumberingFails(o);
      assert forall l | l in DELETED_FIRST :: Proper(l);
    }
  }
}
