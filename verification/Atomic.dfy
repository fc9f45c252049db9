/** The operations of `include/asm-generic/atomic.h` built from cmpxchg, with any number of
    threads whose reads and cmpxchg steps interleave in any way. */
module Atomic {
  import opened Words
  import opened Wrappers

  type Word = u32

  datatype Op = Add | Sub | And | Or | Xor

  function Apply(op: Op, c: Word, i: Word): Word {
    Pow2Words();
    AndBelow(c, i);
    OrBelow(c, i, 32);
    XorBelow(c, i, 32);
    match op
    case Add => Wrap32(c + i)
    case Sub => Wrap32(c - i)
    case And => BitAnd(c, i)
    case Or => BitOr(c, i)
    case Xor => BitXor(c, i)
  }

  /** `atomic_op`, `atomic_op_return`, `atomic_fetch_op`, `atomic_read`, `atomic_set`. */
  datatype Call = Do(op: Op, i: Word) | DoReturn(op: Op, i: Word) | DoFetch(op: Op, i: Word) | Get | Put(i: Word)

  datatype Reply = Nothing | Value(w: Word)

  // ----- The object the calls are to implement: one call at a time -----

  function NewValue(call: Call, c: Word): Word {
    match call
    case Get => c
    case Put(i) => i
    case _ => Apply(call.op, c, call.i)
  }

  /** Just the value after the operation, or just the one before. */
  function ReplyTo(call: Call, c: Word): Reply {
    match call
    case Do(_, _) => Nothing
    case DoReturn(op, i) => Value(Apply(op, c, i))
    case DoFetch(_, _) => Value(c)
    case Get => Value(c)
    case Put(_) => Nothing
  }

  // ----- Threads and their steps -----

  /** `Trying`: the local `c`, read when `since` calls had taken effect, in a call begun when
      `began` had, after `fails` cmpxchg steps that failed. */
  datatype Phase = Idle | Trying(c: Word, since: nat, began: nat, fails: nat)

  datatype Thread = Thread(program: seq<Call>, replies: seq<Reply>, phase: Phase)

  /** A call taking effect. */
  datatype Event = Event(thread: nat, call: Call, began: nat)

  datatype State = State(counter: Word, threads: seq<Thread>, log: seq<Event>)

  predicate Busy(th: Thread) { |th.replies| < |th.program| }

  function Current(th: Thread): Call
    requires Busy(th)
  {
    th.program[|th.replies|]
  }

  /** cmpxchg: the value found, and the one left. */
  function CmpXchg(counter: Word, expected: Word, replacement: Word): (r: (Word, Word))
    ensures r.0 == counter && r.1 == if r.0 == expected then replacement else r.0
  {
    (counter, if counter == expected then replacement else counter)
  }

  /** The call of thread `t` takes effect and returns. */
  function Return(s: State, t: nat, counter: Word, reply: Reply, began: nat): State
    requires t < |s.threads| && Busy(s.threads[t])
  {
    var th := s.threads[t];
    State(counter,
          s.threads[t := th.(replies := th.replies + [reply], phase := Idle)],
          s.log + [Event(t, Current(th), began)])
  }

  function Phased(s: State, t: nat, counter: Word, p: Phase): State
    requires t < |s.threads|
  {
    s.(counter := counter, threads := s.threads[t := s.threads[t].(phase := p)])
  }

  /** The next step of thread `t`. Only reads, writes and cmpxchg touch the counter; a new value
      and a reply are computed from the local `c`. */
  function Step(s: State, t: nat): State {
    if t >= |s.threads| || !Busy(s.threads[t]) then s
    else
      var call := Current(s.threads[t]);
      match s.threads[t].phase
      case Idle =>
        (match call
         case Get => Return(s, t, s.counter, Value(s.counter), |s.log|)
         case Put(i) => Return(s, t, i, Nothing, |s.log|)
         case _ => Phased(s, t, s.counter, Trying(s.counter, |s.log|, |s.log|, 0)))
      case Trying(c, _, began, fails) =>
        var (found, left) := CmpXchg(s.counter, c, NewValue(call, c));
        if found != c then Phased(s, t, left, Trying(found, |s.log|, began, fails + 1))
        else Return(s, t, left, ReplyTo(call, c), began)
  }

  function Run(s: State, schedule: seq<nat>): State {
    if schedule == [] then s else Step(Run(s, schedule[..|schedule| - 1]), schedule[|schedule| - 1])
  }

  predicate Initial(s: State) {
    s.log == [] && forall t | 0 <= t < |s.threads| :: s.threads[t].replies == [] && s.threads[t].phase.Idle?
  }

  // ----- The log as a sequential run -----

  function Replay(c: Word, log: seq<Event>): Word {
    if log == [] then c else NewValue(log[|log| - 1].call, Replay(c, log[..|log| - 1]))
  }

  function CallsBy(log: seq<Event>, t: nat): seq<Call> {
    if log == [] then []
    else CallsBy(log[..|log| - 1], t) + (if log[|log| - 1].thread == t then [log[|log| - 1].call] else [])
  }

  /** The replies thread `t` gets when the log is run one call at a time. */
  function RepliesTo(c: Word, log: seq<Event>, t: nat): seq<Reply> {
    if log == [] then []
    else
      var front, last := log[..|log| - 1], log[|log| - 1];
      RepliesTo(c, front, t) + (if last.thread == t then [ReplyTo(last.call, Replay(c, front))] else [])
  }

  predicate Without(log: seq<Event>, from: nat, t: nat) {
    forall i | from <= i < |log| :: log[i].thread != t
  }

  ghost predicate RepliesFit(c: Word, log: seq<Event>, t: nat, th: Thread) {
    && |th.replies| <= |th.program|
    && CallsBy(log, t) == th.program[..|th.replies|]
    && RepliesTo(c, log, t) == th.replies
  }

  ghost predicate PhaseFits(c: Word, log: seq<Event>, t: nat, th: Thread) {
    th.phase.Trying? ==>
      && Busy(th) && !Current(th).Get? && !Current(th).Put?
      && th.phase.began + th.phase.fails <= th.phase.since <= |log|
      && th.phase.c == Replay(c, log[..th.phase.since])
      && Without(log, th.phase.began, t)
  }

  ghost predicate ThreadFits(c: Word, log: seq<Event>, t: nat, th: Thread) {
    RepliesFit(c, log, t, th) && PhaseFits(c, log, t, th)
  }

  /** The calls took effect one at a time, each between its begin and its return, in the order of
      the log; the counter and all replies are those of that sequential run. */
  ghost predicate Linearized(c: Word, s: State) {
    && s.counter == Replay(c, s.log)
    && (forall i | 0 <= i < |s.log| :: s.log[i].thread < |s.threads| && s.log[i].began <= i)
    && (forall t: nat | t < |s.threads| :: ThreadFits(c, s.log, t, s.threads[t]))
  }

  lemma LogGrows(c: Word, log: seq<Event>, e: Event, t: nat)
    ensures var longer := log + [e];
            && Replay(c, longer) == NewValue(e.call, Replay(c, log))
            && CallsBy(longer, t) == CallsBy(log, t) + (if e.thread == t then [e.call] else [])
            && RepliesTo(c, longer, t) == RepliesTo(c, log, t) + (if e.thread == t then [ReplyTo(e.call, Replay(c, log))] else [])
  {
    assert (log + [e])[..|log|] == log;
  }

  lemma PrefixKept(log: seq<Event>, e: Event, n: nat)
    requires n <= |log|
    ensures (log + [e])[..n] == log[..n]
  {
  }

  lemma OthersFit(c: Word, log: seq<Event>, e: Event, t: nat, th: Thread)
    requires ThreadFits(c, log, t, th) && e.thread != t
    ensures ThreadFits(c, log + [e], t, th)
  {
    assert RepliesFit(c, log + [e], t, th) by { LogGrows(c, log, e, t); }
    if th.phase.Trying? { PrefixKept(log, e, th.phase.since); }
  }

  /** What a call that takes effect must leave and reply. */
  lemma ReturnFits(c: Word, s: State, t: nat, counter: Word, reply: Reply, began: nat)
    requires Linearized(c, s) && t < |s.threads| && Busy(s.threads[t]) && began <= |s.log|
    requires counter == NewValue(Current(s.threads[t]), s.counter) && reply == ReplyTo(Current(s.threads[t]), s.counter)
    ensures Linearized(c, Return(s, t, counter, reply, began))
  {
    var th, e := s.threads[t], Event(t, Current(s.threads[t]), began);
    var next := Return(s, t, counter, reply, began);
    LogGrows(c, s.log, e, t);
    forall u: nat | u < |s.threads| ensures ThreadFits(c, next.log, u, next.threads[u]) {
      if u != t {
        OthersFit(c, s.log, e, u, s.threads[u]);
      } else {
        assert th.program[..|th.replies| + 1] == th.program[..|th.replies|] + [Current(th)];
      }
    }
  }

  /** A thread reads the counter, at the start of a call or in a cmpxchg that fails. */
  lemma ReadFits(c: Word, s: State, t: nat, began: nat, fails: nat)
    requires Linearized(c, s) && t < |s.threads| && Busy(s.threads[t])
    requires !Current(s.threads[t]).Get? && !Current(s.threads[t]).Put?
    requires began + fails <= |s.log| && Without(s.log, began, t)
    ensures Linearized(c, Phased(s, t, s.counter, Trying(s.counter, |s.log|, began, fails)))
  {
    assert s.log[..|s.log|] == s.log;
    assert ThreadFits(c, s.log, t, s.threads[t]);
  }

  lemma StepFits(c: Word, s: State, t: nat)
    requires Linearized(c, s)
    ensures Linearized(c, Step(s, t))
  {
    if t < |s.threads| && Busy(s.threads[t]) {
      var th := s.threads[t];
      var call := Current(th);
      assert ThreadFits(c, s.log, t, th);
      if th.phase.Trying? {
        if s.counter == th.phase.c {
          ReturnFits(c, s, t, NewValue(call, th.phase.c), ReplyTo(call, th.phase.c), th.phase.began);
        } else {
          FailureMeansProgress(c, s, t);
          ReadFits(c, s, t, th.phase.began, th.phase.fails + 1);
        }
      } else if call.Get? || call.Put? {
        ReturnFits(c, s, t, NewValue(call, s.counter), ReplyTo(call, s.counter), |s.log|);
      } else {
        ReadFits(c, s, t, |s.log|, 0);
      }
    }
  }

  /** A cmpxchg fails only if a call of another thread took effect since the value was read. */
  lemma FailureMeansProgress(c: Word, s: State, t: nat)
    requires Linearized(c, s) && t < |s.threads| && s.threads[t].phase.Trying? && s.counter != s.threads[t].phase.c
    ensures var since := s.threads[t].phase.since;
            since < |s.log| && s.log[since].thread != t
  {
    var p := s.threads[t].phase;
    assert ThreadFits(c, s.log, t, s.threads[t]);
    assert s.log[..|s.log|] == s.log;
  }

  /** For every number of threads, every program and every interleaving. */
  lemma {:induction false} Linearizable(s: State, schedule: seq<nat>)
    requires Initial(s)
    ensures Linearized(s.counter, Run(s, schedule))
    decreases |schedule|
  {
    if schedule != [] {
      Linearizable(s, schedule[..|schedule| - 1]);
      StepFits(s.counter, Run(s, schedule[..|schedule| - 1]), schedule[|schedule| - 1]);
    }
  }

  // ----- What the operations add up to -----

  /** What the variants reply: the value the counter is left with, or the one it had, or nothing. */
  lemma RepliesAre(call: Call, c: Word)
    ensures call.DoReturn? ==> ReplyTo(call, c) == Value(NewValue(call, c))
    ensures call.DoFetch? || call.Get? ==> ReplyTo(call, c) == Value(c)
    ensures call.Do? || call.Put? ==> ReplyTo(call, c) == Nothing
    ensures call.Get? ==> NewValue(call, c) == c
    ensures call.Put? ==> NewValue(call, c) == call.i
  {
  }

  /** Bit by bit. */
  lemma BitsOf(c: Word, i: Word, k: nat)
    ensures Bit(Apply(And, c, i), k) <==> Bit(c, k) && Bit(i, k)
    ensures Bit(Apply(Or, c, i), k) <==> Bit(c, k) || Bit(i, k)
    ensures Bit(Apply(Xor, c, i), k) <==> Bit(c, k) != Bit(i, k)
  {
    AndBits(c, i, k);
    OrBits(c, i, k);
    XorBits(c, i, k);
  }

  /** What a call adds to the counter. */
  function Adds(call: Call): int {
    match call
    case Get => 0
    case Put(_) => 0
    case _ =>
      var i: int := call.i;
      if call.op.Add? then i else if call.op.Sub? then -i else 0
  }

  predicate Counts(call: Call) { call.Get? || (!call.Put? && (call.op.Add? || call.op.Sub?)) }

  /** The sum of what the calls of a program add. */
  function SumOf(calls: seq<Call>): int {
    if calls == [] then 0 else SumOf(calls[..|calls| - 1]) + Adds(calls[|calls| - 1])
  }

  /** The same over the first `n` threads, of the calls they have completed. */
  function SumDone(threads: seq<Thread>, n: nat): int
    requires n <= |threads|
  {
    if n == 0 then 0
    else
      var th := threads[n - 1];
      SumDone(threads, n - 1) + SumOf(th.program[..if |th.replies| <= |th.program| then |th.replies| else 0])
  }

  /** The sum over the log, thread by thread. */
  function SumByThread(log: seq<Event>, n: nat): int {
    if n == 0 then 0 else SumByThread(log, n - 1) + SumOf(CallsBy(log, n - 1))
  }

  lemma SumNext(calls: seq<Call>, call: Call)
    ensures SumOf(calls + [call]) == SumOf(calls) + Adds(call)
  {
    assert (calls + [call])[..|calls|] == calls;
  }

  lemma {:induction false} EventAdds(log: seq<Event>, e: Event, n: nat)
    ensures SumByThread(log + [e], n) == SumByThread(log, n) + if e.thread < n then Adds(e.call) else 0
  {
    if n > 0 {
      EventAdds(log, e, n - 1);
      assert (log + [e])[..|log|] == log;
      if e.thread == n - 1 {
        SumNext(CallsBy(log, n - 1), e.call);
      } else {
        assert CallsBy(log + [e], n - 1) == CallsBy(log, n - 1);
      }
    }
  }

  predicate AllLogged(log: seq<Event>, n: nat) {
    forall i | 0 <= i < |log| :: log[i].thread < n && Counts(log[i].call)
  }

  lemma AddNext(c: Word, front: seq<Event>, last: Event, n: nat, log: seq<Event>)
    requires log == front + [last] && last.thread < n && Counts(last.call)
    requires Replay(c, front) == Wrap32(c + SumByThread(front, n))
    ensures Replay(c, log) == Wrap32(c + SumByThread(log, n))
  {
    EventAdds(front, last, n);
    LogGrows(c, front, last, 0);
    CountMoves(last.call, Replay(c, front), c + SumByThread(front, n));
  }

  lemma {:induction false} ReplayAdds(c: Word, log: seq<Event>, n: nat)
    requires AllLogged(log, n)
    ensures Replay(c, log) == Wrap32(c + SumByThread(log, n))
    decreases |log|
  {
    if log == [] {
      NothingLogged(n);
    } else {
      var front, last := log[..|log| - 1], log[|log| - 1];
      ReplayAdds(c, front, n);
      AddNext(c, front, last, n, log);
    }
  }

  lemma CountMoves(call: Call, c: Word, sum: int)
    requires Counts(call) && c == Wrap32(sum)
    ensures NewValue(call, c) == Wrap32(sum + Adds(call))
  {
    assert sum == B32 * (sum / B32) + c;
    assert sum + Adds(call) == B32 * (sum / B32) + (c + Adds(call));
  }

  lemma {:induction false} NothingLogged(n: nat)
    ensures SumByThread([], n) == 0
  {
    if n > 0 { NothingLogged(n - 1); }
  }

  lemma {:induction false} DoneByThread(c: Word, s: State, n: nat)
    requires Linearized(c, s) && n <= |s.threads|
    ensures SumByThread(s.log, n) == SumDone(s.threads, n)
  {
    if n > 0 {
      DoneByThread(c, s, n - 1);
      assert ThreadFits(c, s.log, n - 1, s.threads[n - 1]);
    }
  }

  /** A call in the log is one its thread has made. */
  lemma {:induction false} LoggedIsCalled(log: seq<Event>, i: nat)
    requires i < |log|
    ensures log[i].call in CallsBy(log, log[i].thread)
  {
    if i < |log| - 1 { LoggedIsCalled(log[..|log| - 1], i); }
  }

  /** All programs only add, subtract and read. */
  predicate OnlyCount(s: State) {
    forall t | 0 <= t < |s.threads| :: AllCount(s.threads[t].program)
  }

  predicate AllCount(calls: seq<Call>) { forall k | 0 <= k < |calls| :: Counts(calls[k]) }

  lemma LoggedCounts(c: Word, s: State, i: nat)
    requires Linearized(c, s) && OnlyCount(s) && i < |s.log|
    ensures s.log[i].thread < |s.threads| && Counts(s.log[i].call)
  {
    var t := s.log[i].thread;
    LoggedIsCalled(s.log, i);
    assert ThreadFits(c, s.log, t, s.threads[t]);
    CalledCounts(s.threads[t].program, |s.threads[t].replies|, s.log[i].call);
  }

  lemma CalledCounts(program: seq<Call>, n: nat, call: Call)
    requires AllCount(program) && n <= |program| && call in program[..n]
    ensures Counts(call)
  {
    var k :| 0 <= k < n && program[..n][k] == call;
    assert program[k] == call;
  }

  lemma LogCounts(c: Word, s: State)
    requires Linearized(c, s) && OnlyCount(s)
    ensures AllLogged(s.log, |s.threads|) && s.counter == Replay(c, s.log)
  {
    forall i | 0 <= i < |s.log| ensures s.log[i].thread < |s.threads| && Counts(s.log[i].call) { LoggedCounts(c, s, i); }
  }

  lemma SumsAre(c: Word, s: State)
    requires Linearized(c, s) && OnlyCount(s)
    ensures s.counter == Wrap32(c + SumDone(s.threads, |s.threads|))
  {
    LogCounts(c, s);
    DoneByThread(c, s, |s.threads|);
    ReplayAdds(c, s.log, |s.threads|);
  }

  lemma OnlyCountKept(s: State, s': State)
    requires OnlyCount(s) && SamePrograms(s, s')
    ensures OnlyCount(s')
  {
    forall t | 0 <= t < |s'.threads| ensures AllCount(s'.threads[t].program) {
      assert s.threads[t].program == s'.threads[t].program;
    }
  }

  /** If all programs only add, subtract and read, then at any time, whatever the interleaving, the
      counter is what it was at first plus what the completed calls of all threads add, modulo 2^32. */
  lemma Conserved(s: State, schedule: seq<nat>)
    requires Initial(s) && OnlyCount(s)
    ensures var s' := Run(s, schedule); s'.counter == Wrap32(s.counter + SumDone(s'.threads, |s'.threads|))
  {
    Linearizable(s, schedule);
    SameProgramsRun(s, schedule);
    OnlyCountKept(s, Run(s, schedule));
    SumsAre(s.counter, Run(s, schedule));
  }

  predicate SamePrograms(s: State, s': State) {
    |s.threads| == |s'.threads| && forall t | 0 <= t < |s.threads| :: s.threads[t].program == s'.threads[t].program
  }

  lemma {:induction false} SameProgramsRun(s: State, schedule: seq<nat>)
    ensures SamePrograms(s, Run(s, schedule))
    decreases |schedule|
  {
    if schedule != [] { SameProgramsRun(s, schedule[..|schedule| - 1]); }
  }
}
