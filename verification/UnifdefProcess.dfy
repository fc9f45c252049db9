/** `process` of `scripts/unifdef.c` with its global variables: the stacks are arrays of
    MAXDEPTH entries indexed by `depth`, updated in place. */
module UnifdefProcess {
  import opened UnifdefMachine
  import opened UnifdefMeaning
  import opened UnifdefRuns

  class Unifdef {
    const options: Options
    var tline: Line
    var linenum: nat
    var depth: nat
    const ifstate: array<IfState>
    const ignoring: array<bool>
    var delcount: nat
    var output: seq<Item>
    var exitstat: nat

    ghost predicate Valid()
      reads this, ifstate, ignoring
    {
      ifstate.Length == MAXDEPTH && ignoring.Length == MAXDEPTH && depth < MAXDEPTH
    }

    ghost function Abs(): (s: State)
      requires Valid()
      reads this, ifstate, ignoring
      ensures s.Valid()
    {
      State(tline, linenum, depth, ifstate[..], ignoring[..], delcount, output, exitstat)
    }

    constructor (options: Options)
      ensures Valid() && this.options == options && Abs() == INITIAL
      ensures fresh(ifstate) && fresh(ignoring)
    {
      this.options := options;
      tline, linenum, depth, delcount, output, exitstat := END_OF_FILE, 0, 0, 0, [], 0;
      ifstate := new IfState[MAXDEPTH](_ => Outside);
      ignoring := new bool[MAXDEPTH](_ => false);
      new;
      assert ifstate[..] == INITIAL.ifstate && ignoring[..] == INITIAL.ignoring;
    }

    method FlushLine(keep: bool, edit: Edit)
      requires Valid()
      modifies this`output, this`delcount, this`exitstat
      ensures Valid() && Abs() == Flush(options, old(Abs()), keep, edit)
    {
      if keep {
        if options.lnnum && delcount > 0 {
          if options.toStdout { output := output + [LineNo(linenum)]; }
        }
        output := output + [Text(edit, tline, linenum)];
        delcount := 0;
      } else {
        if options.lnblank { output := output + [Blank]; }
        exitstat := 1;
        delcount := delcount + 1;
      }
    }

    method TurnIgnoreOff() returns (r: Signal)
      requires Valid()
      modifies ignoring
      ensures Valid()
      ensures match IgnoreOff(old(Abs()))
              case Next(s) => r == Continue && Abs() == s
              case Stop(why) => r == why && Abs() == old(Abs())
    {
      if depth == 0 { return Abort; }
      ignoring[depth] := ignoring[depth - 1];
      r := Continue;
    }

    method TurnIgnoreOn()
      requires Valid()
      modifies ignoring
      ensures Valid() && Abs() == IgnoreOn(old(Abs()))
    {
      ignoring[depth] := true;
    }

    method NestGroup() returns (r: Signal)
      requires Valid()
      modifies this`depth
      ensures Valid()
      ensures match Nest(old(Abs()))
              case Next(s) => r == Continue && Abs() == s
              case Stop(why) => r == why && Abs() == old(Abs())
    {
      if depth > MAXDEPTH - 1 { return Abort; }
      if depth == MAXDEPTH - 1 { return Failed(TooManyLevels); }
      depth := depth + 1;
      r := Continue;
    }

    method UnnestGroup() returns (r: Signal)
      requires Valid()
      modifies this`depth
      ensures Valid()
      ensures match Unnest(old(Abs()))
              case Next(s) => r == Continue && Abs() == s
              case Stop(why) => r == why && Abs() == old(Abs())
    {
      if depth == 0 { return Abort; }
      depth := depth - 1;
      r := Continue;
    }

    method Become(here: IfState)
      requires Valid()
      modifies ifstate
      ensures Valid() && Abs() == SetState(old(Abs()), here)
    {
      ifstate[depth] := here;
    }

    /** The body of the functions that print or drop, reset the ignore flag and change state. */
    method FlushAndEnter(keep: bool, edit: Edit, here: IfState) returns (r: Signal)
      requires Valid() && depth > 0
      modifies this`output, this`delcount, this`exitstat, ifstate, ignoring
      ensures Valid() && r == Continue && Next(Abs()) == Enter(options, old(Abs()), keep, edit, here)
    {
      FlushLine(keep, edit);
      r := TurnIgnoreOff();
      Become(here);
    }

    /** Calls the transition function `e`. */
    method Transition(e: Effect) returns (r: Signal)
      requires Valid() && (Moves(e) || e.CloseGroup? ==> depth > 0)
      modifies this`output, this`delcount, this`exitstat, this`depth, ifstate, ignoring
      ensures Valid()
      ensures match Perform(options, e, old(Abs()))
              case Next(s) => r == Continue && Abs() == s
              case Stop(why) => r == why && Abs() == old(Abs())
    {
      match e
      case FlushOnly(keep) =>
        FlushLine(keep, Unchanged);
        r := Continue;
      case EnterState(keep, edit, here) =>
        r := FlushAndEnter(keep, edit, here);
      case TurnState(keep, edit, here) =>
        FlushLine(keep, edit);
        Become(here);
        r := Continue;
      case OpenGroup(keep, here, ignore) =>
        r := NestGroup();
        if r.Continue? {
          r := FlushAndEnter(keep, Unchanged, here);
          if ignore { TurnIgnoreOn(); }
        }
      case CloseGroup(keep) =>
        FlushLine(keep, Unchanged);
        r := UnnestGroup();
      case Complain(complaint) =>
        r := Failed(complaint);
      case Finish =>
        r := Done;
      case Crash =>
        r := Abort;
    }

    /** One turn of the loop: the line is read, then the table's function called. */
    method ProcessLine(line: Line) returns (r: Signal)
      requires Valid() && (line == END_OF_FILE || (Sound(Abs()) && Proper(line)))
      modifies this, ifstate, ignoring
      ensures Valid()
      ensures match Step(options, old(Abs()), line)
              case Next(s) => r == Continue && Abs() == s
              case Stop(why) => r == why && Abs() == Loaded(old(Abs()), line)
    {
      ghost var s := Abs();
      if line != END_OF_FILE { PlanAllowed(options, s, line); }
      tline := line;
      linenum := linenum + 1;
      assert Abs() == Loaded(s, line);
      r := Transition(TransTable(options.iocccok, ifstate[depth], tline.kind));
    }

    /** The line read when `k` lines have been taken. */
    static function LineAt(lines: seq<Line>, k: int): Line {
      if 0 <= k < |lines| then lines[k] else END_OF_FILE
    }

    /** In state `s`, after `i` of the lines, the run is to end as reported. */
    static ghost predicate Awaits(o: Options, s: State, lines: seq<Line>, i: int, report: Report) {
      0 <= i <= |lines| && Sound(s) && Run(o, s, lines[i..]) == report
    }

    static lemma TurnAwaits(o: Options, s: State, lines: seq<Line>, i: int, report: Report)
      requires Awaits(o, s, lines, i, report) && forall l | l in lines :: Proper(l)
      requires s.linenum >= i
      ensures match Step(o, s, LineAt(lines, i))
              case Next(s') => i < |lines| && Awaits(o, s', lines, i + 1, report) && s'.linenum == s.linenum + 1
              case Stop(why) => why == report.why != Continue && EndedIn(report, lines, s.linenum - i, Loaded(s, LineAt(lines, i)))
      ensures LineAt(lines, i) == END_OF_FILE || Proper(LineAt(lines, i))
    {
      if i < |lines| {
        StepSound(o, s, lines[i]);
        assert lines[i..][0] == lines[i] && lines[i..][1..] == lines[i + 1..];
        if Step(o, s, lines[i]).Next? { StepFlushesOnce(o, s, lines[i]); }
      }
    }

    /** The state `s` is the one the run ended in, with the line that ended it read and counted. */
    static ghost predicate EndedIn(report: Report, lines: seq<Line>, start: nat, s: State) {
      s == Loaded(report.state, LineAt(lines, report.state.linenum - start))
    }

    /** The loop of the driver: reads the lines one by one, and after them the end of the file. */
    method ProcessLines(lines: seq<Line>, ghost report: Report) returns (r: Signal)
      requires Valid() && Awaits(options, Abs(), lines, 0, report) && forall l | l in lines :: Proper(l)
      modifies this, ifstate, ignoring
      ensures Valid() && r == report.why && EndedIn(report, lines, old(linenum), Abs())
    {
      var i := 0;
      r := Continue;
      while r == Continue
        invariant i <= |lines| + 1 && Valid()
        invariant r == Continue ==> linenum == old(linenum) + i && Awaits(options, Abs(), lines, i, report)
        invariant r != Continue ==> r == report.why && EndedIn(report, lines, old(linenum), Abs())
        decreases |lines| + 1 - i, r == Continue
      {
        TurnAwaits(options, Abs(), lines, i, report);
        r := ProcessLine(LineAt(lines, i));
        i := i + 1;
      }
    }

    /** The driver ends as the specified run does, and leaves all its variables as that run. */
    method Process(lines: seq<Line>) returns (r: Signal)
      requires Valid() && Sound(Abs()) && forall l | l in lines :: Proper(l)
      modifies this, ifstate, ignoring
      ensures Valid() && r == Run(options, old(Abs()), lines).why
      ensures EndedIn(Run(options, old(Abs()), lines), lines, old(linenum), Abs())
    {
      ghost var report := Run(options, Abs(), lines);
      assert lines[0..] == lines;
      r := ProcessLines(lines, report);
    }
  }
}
