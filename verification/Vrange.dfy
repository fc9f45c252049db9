/** The clocked model `lab1/obj_dir/Vrange.cpp`: on `go` it latches `start` and fills a memory of
    sixteen words with the lengths of the Collatz sequences of the sixteen numbers from there. */
module Vrange {
  import opened Wrappers

  type u4 = x: nat | x < 16
  type u16 = x: nat | x < 0x1_0000
  type Memory = m: seq<u16> | |m| == 16 witness seq(16, _ => 0)

  // ----- The sequences -----

  /** One Collatz step in 32 bits. */
  function Next(x: u32): u32 {
    if x % 2 == 1 then Wrap32(1 + 3 * x) else x / 2
  }

  function Iter(x: u32, k: nat): u32 {
    if k == 0 then x else Next(Iter(x, k - 1))
  }

  /** The sequence of `x` has exactly `len` terms up to its first 1. */
  ghost predicate Reaches(x: u32, len: nat) {
    len >= 1 && Iter(x, len - 1) == 1 && forall k: nat {:trigger Iter(x, k)} | k + 1 < len :: Iter(x, k) != 1
  }

  /** One step halves an even number and takes an odd one to three times itself and one, in 32 bits. */
  lemma StepIs(x: u32)
    ensures x % 2 == 0 ==> Next(x) + Next(x) == x
    ensures x % 2 == 1 ==> exists wraps: nat :: Next(x) + B32 * wraps == 3 * x + 1
  {
    if x % 2 == 1 { assert Next(x) + B32 * ((3 * x + 1) / B32) == 3 * x + 1; }
  }

  /** 3, 10, 5, 16, 8, 4, 2, 1. */
  lemma ThreeTakesEight()
    ensures Reaches(3, 8)
  {
    assert Iter(3, 1) == 10 && Iter(3, 2) == 5 && Iter(3, 3) == 16;
    assert Iter(3, 4) == 8 && Iter(3, 5) == 4 && Iter(3, 6) == 2 && Iter(3, 7) == 1;
    forall k: nat | k + 1 < 8 ensures Iter(3, k) != 1 {
      assert k in {0, 1, 2, 3, 4, 5, 6};
    }
  }

  lemma LengthUnique(x: u32, a: nat, b: nat)
    requires Reaches(x, a) && Reaches(x, b)
    ensures a == b
  {
    NoSooner(x, a, b);
    NoSooner(x, b, a);
  }

  lemma NoSooner(x: u32, a: nat, b: nat)
    requires Reaches(x, a) && Reaches(x, b)
    ensures a >= b
  {
    var k: nat := a - 1;
    assert Iter(x, k) == 1;
  }

  lemma {:induction false} ZeroStays(k: nat)
    ensures Iter(0, k) == 0
  {
    if k > 0 { ZeroStays(k - 1); }
  }

  // ----- The state and its transitions -----

  datatype Input = Input(clk: bool, go: bool, start: u32)

  /** The registers of the control part. */
  datatype Control = Control(running: bool, done: bool, cgo: bool, we: bool, num: u4, din: u16, n: u32)

  /** The Collatz unit: its registers and the combinational next term. */
  datatype Unit = Unit(dout: u32, cdone: bool, doutNext: u32)

  datatype State = State(didInit: bool, clkLast: bool, c: Control, unit: Unit, addr: u4, count: u16, mem: Memory)

  function Address(we: bool, num: u4, start: u32): u4 {
    if we then num else start % 16
  }

  function Bump(x: u16): u16 { (x + 1) % 0x1_0000 }

  function UnitEdge(u: Unit, cgo: bool, n: u32): Unit {
    if cgo then Unit(n, n == 1, Next(n))
    else if !u.cdone then Unit(u.doutNext, u.doutNext == 1, Next(u.doutNext))
    else Unit(u.dout, u.cdone, Next(u.dout))
  }

  function ControlEdge(c: Control, cdone: bool, go: bool, start: u32): Control {
    if go && !c.running then Control(true, false, true, false, 0, 1, start)
    else if !c.running then c.(done := false)
    else if c.cgo then c.(cgo := false)
    else if c.we then
      if c.num == 15 then c.(we := false, running := false, done := true)
      else c.(we := false, num := c.num + 1, n := Wrap32(c.n + 1), din := 1, cgo := true)
    else if cdone then c.(we := true)
    else c.(din := Bump(c.din))
  }

  /** A rising edge: everything reads the state before it. */
  function Edge(st: State, go: bool, start: u32): State {
    st.(c := ControlEdge(st.c, st.unit.cdone, go, start),
        unit := UnitEdge(st.unit, st.c.cgo, st.c.n),
        count := st.mem[st.addr],
        mem := if st.c.we then st.mem[st.addr := st.c.din] else st.mem)
  }

  predicate IsEdge(st: State, i: Input) { st.didInit && i.clk && !st.clkLast }

  function Settle(st: State, i: Input): State {
    st.(addr := Address(st.c.we, st.c.num, i.start), clkLast := i.clk)
  }

  function Initial(st: State, i: Input): State {
    Settle(st.(didInit := true, c := st.c.(running := false), unit := st.unit.(doutNext := Next(st.unit.dout))), i)
  }

  /** One call of `eval`. */
  function Eval(st: State, i: Input): State {
    if !st.didInit then Initial(st, i)
    else Settle(if IsEdge(st, i) then Edge(st, i.go, i.start) else st, i)
  }

  function Run(st: State, t: seq<Input>): State {
    if t == [] then st else Eval(Run(st, t[..|t| - 1]), t[|t| - 1])
  }

  /** How many rising edges a trace has. */
  function Edges(st: State, t: seq<Input>): nat {
    if t == [] then 0
    else
      var front := t[..|t| - 1];
      Edges(st, front) + if IsEdge(Run(st, front), t[|t| - 1]) then 1 else 0
  }

  /** The value of `start` at the last edge that took `go`. */
  function Latched(st: State, t: seq<Input>): Latch {
    if t == [] then Nothing
    else
      var before, i := Run(st, t[..|t| - 1]), t[|t| - 1];
      if IsEdge(before, i) && i.go && !before.c.running then Start(i.start) else Latched(st, t[..|t| - 1])
  }

  datatype Latch = Nothing | Start(base: u32)

  // ----- The model itself -----

  /** Registers are grouped as in the design: the control part, the Collatz unit `c1`, the memory. */
  class Vrange {
    var clk: bool
    var go: bool
    var start: u32
    var c: Control
    var c1: Unit
    var addr: u4
    var count: u16
    const mem: array<u16>
    var clkLast: bool
    var didInit: bool

    ghost predicate Valid() {
      mem.Length == 16
    }

    ghost function Now(): State
      reads this, mem
      requires Valid()
    {
      State(didInit, clkLast, c, c1, addr, count, mem[..])
    }

    /** The registers of a new model hold arbitrary values, as after a random reset. */
    constructor (clk: bool, go: bool, start: u32, st: State)
      ensures Valid() && fresh(mem) && Now() == st.(didInit := false)
      ensures this.clk == clk && this.go == go && this.start == start
    {
      this.clk, this.go, this.start := clk, go, start;
      c, c1, addr, count, clkLast, didInit := st.c, st.unit, st.addr, st.count, st.clkLast, false;
      mem := new u16[16](i requires 0 <= i < 16 => st.mem[i]);
      new;
      assert mem[..] == st.mem;
    }

    /** The delayed copies of the control registers. */
    method Delayed() returns (d: Control)
      ensures d == ControlEdge(c, c1.cdone, go, start)
    {
      d := c;
      if go && !c.running {
        d := d.(running := true, num := 0, din := 1, cgo := true, n := start, done := false, we := false);
      } else if c.running {
        if c.cgo {
          d := d.(cgo := false);
        } else if c.we {
          d := d.(we := false);
          if c.num == 15 {
            d := d.(running := false, done := true);
          } else {
            d := d.(num := (1 + c.num) % 16, n := Wrap32(1 + c.n), din := 1, cgo := true);
          }
        } else if c1.cdone {
          d := d.(we := true);
        } else {
          d := d.(din := Bump(c.din));
        }
      } else if c.done {
        d := d.(done := false);
      }
    }

    /** `_sequent__TOP__1`: registers read by others are assigned at the end, through their copies. */
    method Sequent()
      requires Valid()
      modifies this`c, this`c1, this`count, mem
      ensures Now() == Edge(old(Now()), go, start)
    {
      ghost var before := mem[..];
      var d := Delayed();
      var cdone := c1.cdone;
      count := mem[addr];
      if c.cgo {
        c1 := c1.(dout := c.n);
        cdone := c.n == 1;
      } else if !c1.cdone {
        c1 := c1.(dout := c1.doutNext);
        cdone := c1.doutNext == 1;
      }
      if c.we { mem[addr] := c.din; }
      assert mem[..] == if c.we then before[addr := c.din] else before;
      c := d;
      c1 := c1.(cdone := cdone, doutNext := Next(c1.dout));
    }

    /** `_combo__TOP__4`. */
    method Combo()
      modifies this`addr
      ensures addr == Address(c.we, c.num, start)
    {
      addr := (if c.we then c.num else start) % 16;
    }

    /** `_eval`. */
    method EvalOnce()
      requires Valid() && didInit
      modifies this`c, this`c1, this`count, this`addr, this`clkLast, mem
      ensures Now() == Eval(old(Now()), Input(clk, go, start))
    {
      if clk && !clkLast { Sequent(); }
      Combo();
      clkLast := clk;
    }

    /** `eval`, with the initialization of the first call. */
    method EvalModel()
      requires Valid()
      modifies this`c, this`c1, this`count, this`addr, this`clkLast, this`didInit, mem
      ensures Now() == Eval(old(Now()), Input(clk, go, start))
    {
      if !didInit {
        didInit := true;
        clkLast := clk;
        c := c.(running := false);
        c1 := c1.(doutNext := Next(c1.dout));
        Combo();
      }
      EvalOnce();
    }
  }

  // ----- What a run does -----

  /** The number for word `i` of a run from `base`. */
  function Number(base: u32, i: nat): u32 { Wrap32(base + i) }

  /** The first `i` words hold the lengths of their sequences, modulo 2^16. */
  ghost predicate Filled(mem: Memory, base: u32, i: nat)
    requires i <= 16
  {
    forall j: nat | j < i :: IsLength(mem[j], Number(base, j))
  }

  ghost predicate IsLength(w: u16, x: u32) {
    exists len: nat :: Reaches(x, len) && w == len % 0x1_0000
  }

  ghost predicate NotYet(x: u32, e: nat) {
    forall k: nat {:trigger Iter(x, k)} | k + 1 < e :: Iter(x, k) != 1
  }

  /** Word `i` is being computed, `e` edges after its number was set. */
  ghost predicate Busy(st: State, base: u32, i: nat, e: nat) {
    && st.didInit && st.c.running && !st.c.done && i < 16 && st.c.num == i && st.c.n == Number(base, i) && Filled(st.mem, base, i)
    && (if e == 0 then st.c.cgo && !st.c.we && st.c.din == 1
        else if st.c.we then Writing(st, e)
        else Counting(st, e))
  }

  /** The unit is at term `e - 1`. */
  ghost predicate Counting(st: State, e: nat)
    requires e > 0
  {
    && !st.c.cgo && NotYet(st.c.n, e) && st.unit.dout == Iter(st.c.n, e - 1) && st.unit.doutNext == Next(st.unit.dout)
    && st.unit.cdone == (st.unit.dout == 1) && st.c.din == e % 0x1_0000
  }

  ghost predicate Writing(st: State, e: nat)
    requires e > 0
  {
    !st.c.cgo && st.addr == st.c.num && Reaches(st.c.n, e - 1) && st.c.din == (e - 1) % 0x1_0000
  }

  ghost predicate Finished(st: State, base: u32) {
    st.didInit && !st.c.running && st.c.done && !st.c.we && Filled(st.mem, base, 16)
  }

  lemma FilledNext(mem: Memory, base: u32, i: nat, len: nat, w: u16)
    requires i < 16 && Filled(mem, base, i) && Reaches(Number(base, i), len) && w == len % 0x1_0000
    ensures Filled(mem[i := w], base, i + 1)
  {
    var next: Memory := mem[i := w];
    forall j: nat | j < i + 1 ensures IsLength(next[j], Number(base, j)) {
      if j < i { assert next[j] == mem[j]; }
    }
  }

  lemma NumberNext(base: u32, i: nat)
    ensures Wrap32(Number(base, i) + 1) == Number(base, i + 1)
  {
  }

  /** Between edges nothing moves. */
  lemma BusyStays(st: State, i: Input, base: u32, word: nat, e: nat)
    requires Busy(st, base, word, e) && !IsEdge(st, i)
    ensures Busy(Eval(st, i), base, word, e)
  {
  }

  /** One edge of a run: on to the next edge of the word, to the next word, or to the end. */
  lemma BusyEdge(st: State, i: Input, base: u32, word: nat, e: nat)
    requires Busy(st, base, word, e) && IsEdge(st, i)
    ensures var next := Eval(st, i);
            if e == 0 || !st.c.we then Busy(next, base, word, e + 1)
            else if word < 15 then Busy(next, base, word + 1, 0)
            else Finished(next, base)
  {
    if e > 0 && st.c.we {
      FilledNext(st.mem, base, word, e - 1, st.c.din);
      NumberNext(base, word);
    } else {
      BusyWithin(st, i, base, word, e);
    }
  }

  lemma BumpIs(e: nat)
    ensures Bump(e % 0x1_0000) == (e + 1) % 0x1_0000
  {
  }

  lemma BusyWithin(st: State, i: Input, base: u32, word: nat, e: nat)
    requires Busy(st, base, word, e) && IsEdge(st, i) && (e == 0 || !st.c.we)
    ensures Busy(Eval(st, i), base, word, e + 1)
  {
    var next := Eval(st, i);
    if e == 0 {
      assert Counting(next, 1);
    } else if st.unit.cdone {
      assert Reaches(st.c.n, e);
      assert Writing(next, e + 1);
    } else {
      CountingOn(st, i, e);
    }
  }

  lemma CountingOn(st: State, i: Input, e: nat)
    requires e > 0 && st.c.running && !st.c.we && Counting(st, e) && !st.unit.cdone && IsEdge(st, i)
    ensures Counting(Eval(st, i), e + 1)
  {
    BumpIs(e);
    assert NotYet(st.c.n, e + 1);
    assert Iter(st.c.n, e) == Next(Iter(st.c.n, e - 1));
  }

  // ----- Whole runs -----

  /** A run is under way. */
  ghost predicate UnderWay(st: State, base: u32) {
    exists word: nat, e: nat :: Busy(st, base, word, e)
  }

  lemma UnderWayNext(st: State, i: Input, base: u32)
    requires UnderWay(st, base)
    ensures UnderWay(Eval(st, i), base) || (!st.c.done && Finished(Eval(st, i), base))
  {
    var word: nat, e: nat :| Busy(st, base, word, e);
    if IsEdge(st, i) { BusyEdge(st, i, base, word, e); } else { BusyStays(st, i, base, word, e); }
  }

  lemma Started(st: State, i: Input)
    requires IsEdge(st, i) && i.go && !st.c.running
    ensures Busy(Eval(st, i), i.start, 0, 0)
  {
  }

  /** At any time after the first call, the model is idle or on a run from the number latched last. */
  lemma {:induction false} AlwaysTracked(st: State, t: seq<Input>)
    requires !st.didInit && t != []
    ensures Run(st, t).didInit
    ensures Run(st, t).c.running ==> Latched(st, t).Start? && UnderWay(Run(st, t), Latched(st, t).base)
    decreases |t|
  {
    var front, i := t[..|t| - 1], t[|t| - 1];
    var before := Run(st, front);
    if front != [] {
      AlwaysTracked(st, front);
      if before.c.running {
        UnderWayNext(before, i, Latched(st, front).base);
      } else if IsEdge(before, i) && i.go {
        Started(before, i);
      }
    }
  }

  /** Whatever `go` and `start` do: when `done` rises, the sixteen words hold the lengths of the
      sequences from the number latched when the run was taken. */
  lemma WhenDoneRises(st: State, t: seq<Input>, i: Input)
    requires !st.didInit
    requires !Run(st, t).c.done && Run(st, t + [i]).c.done
    ensures Latched(st, t + [i]).Start? && Latched(st, t + [i]) == Latched(st, t)
    ensures Finished(Run(st, t + [i]), Latched(st, t).base)
  {
    var before := Run(st, t);
    assert (t + [i])[..|t|] == t;
    assert Run(st, t + [i]) == Eval(before, i);
    assert before.didInit && before.c.running;
    AlwaysTracked(st, t);
    UnderWayNext(before, i, Latched(st, t).base);
    assert !UnderWay(Eval(before, i), Latched(st, t).base);
  }

  /** The edges of the first `i` words. */
  function Total(lens: seq<nat>, i: nat): nat
    requires i <= |lens|
  {
    if i == 0 then 0 else Total(lens, i - 1) + lens[i - 1] + 2
  }

  lemma {:induction false} TotalGrows(lens: seq<nat>, i: nat, j: nat)
    requires i <= j <= |lens|
    ensures Total(lens, i) <= Total(lens, j)
    decreases j
  {
    if i < j { TotalGrows(lens, i, j - 1); }
  }

  /** All sixteen sequences from `base` reach 1, with these lengths. */
  ghost predicate Lengths(base: u32, lens: seq<nat>) {
    |lens| == 16 && forall i: nat | i < 16 :: Reaches(Number(base, i), lens[i])
  }

  /** `p` edges after the one that took `go`. */
  ghost predicate At(st: State, base: u32, lens: seq<nat>, p: nat)
    requires |lens| == 16
  {
    exists word: nat, e: nat :: Busy(st, base, word, e) && Total(lens, word) + e == p
  }

  lemma AtNext(st: State, i: Input, base: u32, lens: seq<nat>, p: nat)
    requires Lengths(base, lens) && At(st, base, lens, p) && IsEdge(st, i) && p < Total(lens, 16)
    ensures if p + 1 == Total(lens, 16) then Finished(Eval(st, i), base) else At(Eval(st, i), base, lens, p + 1)
  {
    var word: nat, e: nat :| Busy(st, base, word, e) && Total(lens, word) + e == p;
    BusyEdge(st, i, base, word, e);
    if e > 0 && st.c.we {
      LengthUnique(st.c.n, e - 1, lens[word]);
      if word < 15 {
        assert Total(lens, word + 1) + 0 == p + 1;
        TotalGrows(lens, word + 2, 16);
      }
    } else {
      BelowTotal(Eval(st, i), base, lens, word, e + 1);
    }
  }

  lemma NotPast(x: u32, e: nat, len: nat)
    requires NotYet(x, e) && Reaches(x, len)
    ensures e <= len
  {
    var k: nat := len - 1;
    assert Iter(x, k) == 1;
  }

  lemma BelowTotal(st: State, base: u32, lens: seq<nat>, word: nat, e: nat)
    requires Lengths(base, lens) && Busy(st, base, word, e)
    ensures e <= lens[word] + 1 && Total(lens, word) + e < Total(lens, 16)
  {
    if e > 0 && st.c.we {
      LengthUnique(st.c.n, e - 1, lens[word]);
    } else if e > 0 {
      NotPast(st.c.n, e, lens[word]);
    }
    TotalGrows(lens, word + 1, 16);
  }

  lemma {:induction false} AfterEdges(st: State, t: seq<Input>, base: u32, lens: seq<nat>)
    requires Lengths(base, lens) && At(st, base, lens, 0) && Edges(st, t) <= Total(lens, 16)
    ensures Edges(st, t) < Total(lens, 16) ==> At(Run(st, t), base, lens, Edges(st, t))
    ensures Edges(st, t) == Total(lens, 16) ==> Finished(Run(st, t), base)
    decreases |t|
  {
    var word: nat, e: nat :| Busy(st, base, word, e) && Total(lens, word) + e == 0;
    BelowTotal(st, base, lens, word, e);
    if t != [] {
      var front, i := t[..|t| - 1], t[|t| - 1];
      AfterEdges(st, front, base, lens);
      var before := Run(st, front);
      if IsEdge(before, i) {
        AtNext(before, i, base, lens, Edges(st, front));
      } else if Edges(st, t) < Total(lens, 16) {
        var word: nat, e: nat :| Busy(before, base, word, e) && Total(lens, word) + e == Edges(st, front);
        BusyStays(before, i, base, word, e);
      }
    }
  }

  lemma FinishedWord(st: State, base: u32, lens: seq<nat>, i: nat)
    requires Finished(st, base) && Lengths(base, lens) && i < 16
    ensures st.mem[i] == lens[i] % 0x1_0000
  {
    assert IsLength(st.mem[i], Number(base, i));
    var len: nat :| Reaches(Number(base, i), len) && st.mem[i] == len % 0x1_0000;
    LengthUnique(Number(base, i), len, lens[i]);
  }

  /** Exact timing: if all sixteen sequences reach 1, `done` rises with edge number
      `Total(lens, 16)` after the one that took `go`, and with it the words are the lengths. */
  lemma DoneExactly(st: State, go: Input, t: seq<Input>, lens: seq<nat>)
    requires IsEdge(st, go) && go.go && !st.c.running && Lengths(go.start, lens)
    requires Edges(Eval(st, go), t) <= Total(lens, 16)
    ensures var end := Run(Eval(st, go), t);
            if Edges(Eval(st, go), t) < Total(lens, 16) then end.c.running && !end.c.done
            else !end.c.running && end.c.done && forall i: nat | i < 16 :: end.mem[i] == lens[i] % 0x1_0000
  {
    Started(st, go);
    var first, end := Eval(st, go), Run(Eval(st, go), t);
    assert Total(lens, 0) + 0 == 0;
    assert At(first, go.start, lens, 0);
    AfterEdges(first, t, go.start, lens);
    if Edges(first, t) == Total(lens, 16) {
      forall i: nat | i < 16 ensures end.mem[i] == lens[i] % 0x1_0000 {
        FinishedWord(end, go.start, lens, i);
      }
    }
  }

  lemma FinishedReaches(st: State, base: u32, word: nat)
    requires word < 16
    ensures Finished(st, base) ==> exists len: nat :: Reaches(Number(base, word), len)
  {
    if Finished(st, base) { assert IsLength(st.mem[word], Number(base, word)); }
  }

  /** If one of the sequences never reaches 1, the run never ends. */
  lemma {:induction false} NeverDone(st: State, go: Input, t: seq<Input>, word: nat)
    requires IsEdge(st, go) && go.go && !st.c.running
    requires word < 16 && forall len: nat :: !Reaches(Number(go.start, word), len)
    ensures UnderWay(Run(Eval(st, go), t), go.start)
    ensures Run(Eval(st, go), t).c.running && !Run(Eval(st, go), t).c.done
    decreases |t|
  {
    if t == [] {
      Started(st, go);
    } else {
      var front, i := t[..|t| - 1], t[|t| - 1];
      NeverDone(st, go, front, word);
      var before := Run(Eval(st, go), front);
      UnderWayNext(before, i, go.start);
      FinishedReaches(Eval(before, i), go.start, word);
    }
  }

  /** 0 is such a number: a run over it, or past the largest 32-bit number, never ends. */
  lemma ZeroNeverReaches(base: u32) returns (word: nat)
    requires base == 0 || base > 0xFFFF_FFF0
    ensures word < 16 && Number(base, word) == 0 && forall len: nat :: !Reaches(Number(base, word), len)
  {
    word := if base == 0 then 0 else 0x1_0000_0000 - base;
    forall len: nat ensures !Reaches(0, len) {
      if len >= 1 { ZeroStays(len - 1); }
    }
  }

  /** Between runs the memory is fixed: only an edge that takes `go` ends this. */
  lemma {:induction false} MemoryFixed(st: State, t: seq<Input>)
    requires st.didInit && !st.c.running && !st.c.we && Latched(st, t) == Nothing
    ensures Run(st, t).mem == st.mem && Run(st, t).didInit && !Run(st, t).c.running && !Run(st, t).c.we
    decreases |t|
  {
    if t != [] { MemoryFixed(st, t[..|t| - 1]); }
  }

  /** Between runs a word is read by setting `start` and waiting for an edge. */
  lemma ReadBack(st: State, low: Input, high: Input)
    requires st.didInit && !st.c.running && !st.c.we && !low.clk && high.clk
    ensures Run(st, [low, high]).count == st.mem[low.start % 16]
  {
    assert [low, high][..1] == [low] && [low][..0] == [];
    assert Run(st, [low]) == Eval(Run(st, []), low);
  }
}
