/** The line-level state machine of `scripts/unifdef.c`: it removes the branches of
    `#if` groups whose controlling expressions are known, editing `#elif` lines where
    that is needed to keep the remaining directives well nested. */
module UnifdefMachine {
  // ----- Lines, states and the transition table -----

  datatype Keyword = TrueI | FalseI | If | True | False | Elif | ElTrue | ElFalse | Else | Endif

  /** `Linetype`: a directive with its dodgy flag, or one of the other line types. */
  datatype LineType = Directive(keyword: Keyword, dodgy: bool) | Plain | Eof | Error

  /** An input line; `text` stands for its words: the text of a plain line, the
      expression of an `#if` or `#elif`. */
  datatype Line = Line(kind: LineType, text: nat)

  datatype IfState =
    | Outside
    | FalsePrefix
    | TruePrefix
    | PassMiddle
    | FalseMiddle
    | TrueMiddle
    | PassElse
    | FalseElse
    | TrueElse
    | FalseTrailer

  const MAXDEPTH: nat := 64

  datatype Edit = Unchanged | ToIf | ToElse | ToEndif

  datatype Complaint = BadElif | BadElse | BadEndif | PrematureEof | Obfuscated | TooManyLevels

  /** What a transition function does: the line is printed (`keep`) or dropped, edited or
      not, and the stack of states moves. */
  datatype Effect =
    | FlushOnly(keep: bool)
    | EnterState(keep: bool, edit: Edit, here: IfState)
    | TurnState(keep: bool, edit: Edit, here: IfState)
    | OpenGroup(keep: bool, here: IfState, ignore: bool)
    | CloseGroup(keep: bool)
    | Complain(complaint: Complaint)
    | Finish
    | Crash

  // The transition functions. Input that is refused, each with its complaint:
  const E_ELIF := Complain(BadElif)
  const E_ELSE := Complain(BadElse)
  const E_ENDIF := Complain(BadEndif)
  const E_EOF := Complain(PrematureEof)
  const E_IOCCC := Complain(Obfuscated)
  // the stack stays as it is, and the line is kept or left out:
  const PRINT := FlushOnly(true)
  const DROP := FlushOnly(false)
  // no directive of the group has been written so far, and this one is not either:
  const S_TRUE := EnterState(false, Unchanged, TruePrefix)
  const S_FALSE := EnterState(false, Unchanged, FalsePrefix)
  const S_ELSE := TurnState(false, Unchanged, TrueElse)
  // the directive is kept as it stands:
  const P_ELIF := EnterState(true, Unchanged, PassMiddle)
  const P_ELSE := TurnState(true, Unchanged, PassElse)
  const P_ENDIF := CloseGroup(true)
  // the directive is left out, and so is the block it begins, if any:
  const D_FALSE := EnterState(false, Unchanged, FalseTrailer)
  const D_ELIF := EnterState(false, Unchanged, FalseMiddle)
  const D_ELSE := TurnState(false, Unchanged, FalseElse)
  const D_ENDIF := CloseGroup(false)
  // one level deeper:
  const F_DROP := OpenGroup(false, FalseTrailer, false)
  const F_PASS := OpenGroup(true, PassMiddle, false)
  const F_TRUE := OpenGroup(false, TruePrefix, false)
  const F_FALSE := OpenGroup(false, FalsePrefix, false)
  // one level deeper, where comments and literals are not tracked:
  const I_DROP := OpenGroup(false, FalseTrailer, true)
  const I_TRUE := OpenGroup(false, TruePrefix, true)
  const I_FALSE := OpenGroup(false, FalsePrefix, true)
  // the directive is kept under another keyword, so that the output nests:
  const M_PASS := EnterState(true, ToIf, PassMiddle)
  const M_TRUE := TurnState(true, ToElse, TrueMiddle)
  const M_ELIF := TurnState(true, ToEndif, FalseTrailer)
  const M_ELSE := TurnState(true, ToEndif, FalseElse)

  // and directives spread over several lines, kept or refused as `-e` says.
  function Oiffy(iocccok: bool): Effect { if iocccok then OpenGroup(true, PassMiddle, true) else E_IOCCC }

  function Oif(iocccok: bool): Effect { if iocccok then F_PASS else E_IOCCC }

  function Oelif(iocccok: bool): Effect { if iocccok then P_ELIF else E_IOCCC }

  /** The first directive of a group, met in a block that is printed. */
  function OpenPrinted(ok: bool, k: Keyword, dodgy: bool): Effect
    requires k.TrueI? || k.FalseI? || k.If? || k.True? || k.False?
  {
    match k
    case TrueI => if dodgy then Oiffy(ok) else I_TRUE
    case FalseI => if dodgy then Oiffy(ok) else I_FALSE
    case If => F_PASS
    case True => if dodgy then Oif(ok) else F_TRUE
    case False => if dodgy then Oif(ok) else F_FALSE
  }

  /** The first directive of a group, met in a block that is dropped. */
  function OpenDropped(k: Keyword): Effect {
    if k.TrueI? || k.FalseI? then I_DROP else F_DROP
  }

  predicate Opens(k: Keyword) {
    k.TrueI? || k.FalseI? || k.If? || k.True? || k.False?
  }

  predicate IsElif(k: Keyword) {
    k.Elif? || k.ElTrue? || k.ElFalse?
  }

  /** The states in which a plain line is printed. */
  predicate Printing(here: IfState) {
    here.Outside? || here.TruePrefix? || here.PassMiddle? || here.TrueMiddle? || here.PassElse? || here.TrueElse?
  }

  /** The rows of `trans_table`, for the directives that continue or close a group. */
  function RowFalsePrefix(k: Keyword, dodgy: bool): Effect {
    if k.Elif? then M_PASS
    else if dodgy then E_IOCCC
    else if k.ElTrue? then S_TRUE
    else if k.ElFalse? then S_FALSE
    else if k.Else? then S_ELSE
    else D_ENDIF
  }

  function RowTruePrefix(k: Keyword, dodgy: bool): Effect {
    if dodgy then E_IOCCC else if k.Endif? then D_ENDIF else if k.Else? then D_ELSE else D_FALSE
  }

  function RowPassMiddle(ok: bool, k: Keyword, dodgy: bool): Effect {
    if k.Elif? then P_ELIF
    else if k.ElTrue? then (if dodgy then Oelif(ok) else M_TRUE)
    else if k.ElFalse? then (if dodgy then Oelif(ok) else D_ELIF)
    else if k.Else? then P_ELSE
    else P_ENDIF
  }

  function RowFalseMiddle(k: Keyword, dodgy: bool): Effect {
    if dodgy then E_IOCCC
    else if k.Elif? then P_ELIF
    else if k.ElTrue? then M_TRUE
    else if k.ElFalse? then D_ELIF
    else if k.Else? then P_ELSE
    else P_ENDIF
  }

  function RowTrueMiddle(k: Keyword, dodgy: bool): Effect {
    if k.Endif? then P_ENDIF else if dodgy then E_IOCCC else if k.Else? then M_ELSE else M_ELIF
  }

  function RowPassElse(k: Keyword): Effect {
    if k.Endif? then P_ENDIF else Misplaced(k)
  }

  function RowKnownElse(k: Keyword, dodgy: bool): Effect {
    if !k.Endif? then Misplaced(k) else if dodgy then E_IOCCC else D_ENDIF
  }

  function RowFalseTrailer(k: Keyword, dodgy: bool): Effect {
    if k.Else? then D_ELSE else if !k.Endif? then D_FALSE else if dodgy then E_IOCCC else D_ENDIF
  }

  function Row(ok: bool, here: IfState, k: Keyword, dodgy: bool): Effect {
    match here
    case Outside => Misplaced(k)
    case FalsePrefix => RowFalsePrefix(k, dodgy)
    case TruePrefix => RowTruePrefix(k, dodgy)
    case PassMiddle => RowPassMiddle(ok, k, dodgy)
    case FalseMiddle => RowFalseMiddle(k, dodgy)
    case TrueMiddle => RowTrueMiddle(k, dodgy)
    case PassElse => RowPassElse(k)
    case FalseElse => RowKnownElse(k, dodgy)
    case TrueElse => RowKnownElse(k, dodgy)
    case FalseTrailer => RowFalseTrailer(k, dodgy)
  }

  /** `trans_table`; `ok` is the option -e, which some of its functions consult. */
  function TransTable(ok: bool, here: IfState, lt: LineType): Effect {
    match lt
    case Plain => if Printing(here) then PRINT else DROP
    case Eof => if here.Outside? then Finish else E_EOF
    case Error => Crash
    case Directive(k, dodgy) =>
      if !Opens(k) then Row(ok, here, k, dodgy)
      else if Printing(here) then OpenPrinted(ok, k, dodgy)
      else OpenDropped(k)
  }

  function Misplaced(k: Keyword): Effect {
    if k.Else? then E_ELSE else if k.Endif? then E_ENDIF else E_ELIF
  }

  // ----- The state and what each transition function does to it -----

  /** An item of the output: a line (possibly edited) that was input line number `at`,
      the empty line standing for a deleted one, or a `#line` directive. */
  datatype Item = Text(edit: Edit, line: Line, at: nat) | Blank | LineNo(number: nat)

  /** Options: -b (or -l), -n, -e, and whether the output goes to standard output (no -o). */
  datatype Options = Options(lnblank: bool, lnnum: bool, iocccok: bool, toStdout: bool)

  datatype State = State(
    line: Line,
    linenum: nat,
    depth: nat,
    ifstate: seq<IfState>,
    ignoring: seq<bool>,
    delcount: nat,
    output: seq<Item>,
    exitstat: nat)
  {
    predicate Valid() {
      |ifstate| == MAXDEPTH && |ignoring| == MAXDEPTH && depth < MAXDEPTH
    }

    function Top(): IfState
      requires Valid()
    {
      ifstate[depth]
    }
  }

  datatype Signal = Continue | Done | Failed(complaint: Complaint) | Abort
  {
    predicate IsFailure() { !Continue? }
    function PropagateFailure(): Signal requires IsFailure() { this }
  }

  datatype Outcome = Next(state: State) | Stop(why: Signal)
  {
    predicate IsFailure() { Stop? }
    function PropagateFailure(): Outcome requires Stop? { this }
    function Extract(): State requires Next? { state }
  }

  /** `flushline`, without the options -B, -c and -s. The `#line` directive is written to
      standard output even when the output is a file. */
  function Flush(o: Options, s: State, keep: bool, edit: Edit): State {
    if keep then
      var number := if o.lnnum && o.toStdout && s.delcount > 0 then [LineNo(s.linenum)] else [];
      s.(output := s.output + number + [Text(edit, s.line, s.linenum)], delcount := 0)
    else
      s.(output := s.output + (if o.lnblank then [Blank] else []),
         delcount := s.delcount + 1, exitstat := 1)
  }

  function IgnoreOff(s: State): Outcome
    requires s.Valid()
  {
    if s.depth == 0 then Stop(Abort)
    else Next(s.(ignoring := s.ignoring[s.depth := s.ignoring[s.depth - 1]]))
  }

  function IgnoreOn(s: State): State
    requires s.Valid()
  {
    s.(ignoring := s.ignoring[s.depth := true])
  }

  function Nest(s: State): Outcome
    requires s.Valid()
  {
    if s.depth == MAXDEPTH - 1 then Stop(Failed(TooManyLevels))
    else Next(s.(depth := s.depth + 1))
  }

  function Unnest(s: State): Outcome {
    if s.depth == 0 then Stop(Abort) else Next(s.(depth := s.depth - 1))
  }

  function SetState(s: State, here: IfState): State
    requires s.Valid()
  {
    s.(ifstate := s.ifstate[s.depth := here])
  }

  /** Print or drop the line, reset the ignore flag, enter state `here`. */
  function Enter(o: Options, s: State, keep: bool, edit: Edit, here: IfState): (r: Outcome)
    requires s.Valid()
    ensures r.Next? ==> r.state.Valid()
  {
    var s1 :- IgnoreOff(Flush(o, s, keep, edit));
    Next(SetState(s1, here))
  }

  /** Print or drop the line and enter state `here`, leaving the ignore flag. */
  function Turn(o: Options, s: State, keep: bool, edit: Edit, here: IfState): (r: Outcome)
    requires s.Valid()
    ensures r.Next? ==> r.state.Valid()
  {
    Next(SetState(Flush(o, s, keep, edit), here))
  }

  function Open(o: Options, s: State, keep: bool, here: IfState, ignore: bool): (r: Outcome)
    requires s.Valid()
    ensures r.Next? ==> r.state.Valid()
  {
    var s1 :- Nest(s);
    var s2 :- Enter(o, s1, keep, Unchanged, here);
    Next(if ignore then IgnoreOn(s2) else s2)
  }

  function Close(o: Options, s: State, keep: bool): (r: Outcome)
    requires s.Valid()
    ensures r.Next? ==> r.state.Valid()
  {
    Unnest(Flush(o, s, keep, Unchanged))
  }

  function Perform(o: Options, e: Effect, s: State): (r: Outcome)
    requires s.Valid()
    ensures r.Next? ==> r.state.Valid()
  {
    match e
    case FlushOnly(keep) => Next(Flush(o, s, keep, Unchanged))
    case EnterState(keep, edit, here) => Enter(o, s, keep, edit, here)
    case TurnState(keep, edit, here) => Turn(o, s, keep, edit, here)
    case OpenGroup(keep, here, ignore) => Open(o, s, keep, here, ignore)
    case CloseGroup(keep) => Close(o, s, keep)
    case Complain(complaint) => Stop(Failed(complaint))
    case Finish => Stop(Done)
    case Crash => Stop(Abort)
  }

  /** The state with the line just read. */
  function Loaded(s: State, line: Line): State {
    s.(line := line, linenum := s.linenum + 1)
  }

  /** The table entry for a state and a line. */
  function Plan(o: Options, top: IfState, kind: LineType): Effect {
    TransTable(o.iocccok, top, kind)
  }

  /** One turn of the loop in `process`. */
  function Step(o: Options, s: State, line: Line): (r: Outcome)
    requires s.Valid()
    ensures r.Next? ==> r.state.Valid()
  {
    Perform(o, Plan(o, s.Top(), line.kind), Loaded(s, line))
  }

  const END_OF_FILE := Line(Eof, 0)

  const INITIAL := State(END_OF_FILE, 0, 0, seq(MAXDEPTH, _ => Outside), seq(MAXDEPTH, _ => false), 0, [], 0)

  datatype Report = Report(state: State, why: Signal)

  /** The whole run over the lines of a file, ending with the end-of-file line. */
  function Run(o: Options, s: State, lines: seq<Line>): (r: Report)
    requires s.Valid()
    decreases |lines|
  {
    if lines == [] then
      match Step(o, s, END_OF_FILE)
      case Next(s') => Report(s', Continue)
      case Stop(why) => Report(s, why)
    else
      match Step(o, s, lines[0])
      case Next(s') =>
        Run(o, s', lines[1..])
      case Stop(why) => Report(s, why)
  }
}
