/** `scripts/kallsyms.c`: the symbol table, compressed in place. */
module Kallsyms {
  import opened Tokens

  const PAIRS: nat := 0x10000

  /** `struct sym_entry`: the buffer holds `len` codes and is zero from there on. */
  class SymEntry {
    var len: nat
    const sym: array<Code>

    ghost predicate Valid()
      reads this, sym
    {
      len < sym.Length && forall j | len <= j < sym.Length :: sym[j] == 0
    }

    ghost function Content(): seq<Code>
      reads this, sym
    {
      if len <= sym.Length then sym[..len] else []
    }

    constructor (text: seq<Code>)
      ensures Valid() && Content() == text && fresh(sym)
    {
      len := |text|;
      sym := new Code[|text| + 1](i requires 0 <= i => if i < |text| then text[i] else 0);
      new;
      assert sym[..len] == text;
    }
  }

  /** `find_token`: the first position in a window of `len` bytes where the pair stands. */
  method FindToken(str: array<Code>, start: nat, len: nat, a: Code, b: Code) returns (found: bool, at: nat)
    requires start + len <= str.Length
    ensures found ==> start <= at && FirstPair(str[start..start + len], at - start, a, b)
    ensures !found ==> NoPair(str[start..start + len], a, b)
  {
    ghost var window := str[start..start + len];
    found, at := false, start;
    while at + 1 < start + len
      invariant start <= at
      invariant forall j | 0 <= j < at - start :: !PairAt(window, j, a, b)
    {
      assert str[at] == window[at - start] && str[at + 1] == window[at + 1 - start];
      if str[at] == a && str[at + 1] == b { found := true; return; }
      at := at + 1;
    }
  }

  /** `memmove(&str[dst], &str[dst + 1], n)`. */
  method MoveDown(str: array<Code>, dst: nat, n: nat)
    requires dst + n < str.Length
    modifies str
    ensures str[..] == old(str[..dst] + str[dst + 1..dst + 1 + n] + str[dst + n..])
  {
    var j := 0;
    while j < n
      invariant j <= n
      invariant forall i | 0 <= i < str.Length :: str[i] == if dst <= i < dst + j then old(str[i + 1]) else old(str[i])
    {
      str[dst + j] := str[dst + j + 1];
      j := j + 1;
    }
  }

  /** A window that runs into the zero bytes behind the symbol matches as the symbol does:
      the pair contains no zero. */
  lemma WindowMatches(window: seq<Code>, n: nat, a: Code, b: Code)
    requires n <= |window| && a != 0 && b != 0 && forall j | n <= j < |window| :: window[j] == 0
    ensures NoPair(window, a, b) ==> NoPair(window[..n], a, b)
    ensures forall i :: FirstPair(window, i, a, b) ==> FirstPair(window[..n], i, a, b)
  {
    forall j | 0 <= j < |window| ensures PairAt(window, j, a, b) <==> PairAt(window[..n], j, a, b) {
    }
  }

  predicate ZeroFrom(s: seq<Code>, n: nat) {
    forall j | n <= j < |s| :: s[j] == 0
  }

  lemma MovedDown(was: seq<Code>, now: seq<Code>, at: nat, size: nat, len: nat, idx: Code)
    requires at + 2 <= len <= at + 1 + size < |was| && ZeroFrom(was, len)
    requires var s := was[at := idx]; now == s[..at + 1] + s[at + 2..at + 2 + size] + s[at + 1 + size..]
    ensures |now| == |was| && now[..at + 1] == was[..at] + [idx] && now[at + 1..len - 1] == was[at + 2..len]
    ensures ZeroFrom(now, len - 1)
  {
    var s := was[at := idx];
    forall j | 0 <= j < |now| ensures now[j] == if at + 1 <= j < at + 1 + size then s[j + 1] else s[j] {
    }
    var moved, tail := now[at + 1..len - 1], was[at + 2..len];
    forall k | 0 <= k < |tail| ensures moved[k] == tail[k] {
      assert now[at + 1 + k] == s[at + 2 + k];
    }
  }

  /** One replacement: the code goes into the pair's first byte, and the `size` bytes behind
      the second, which reach to the symbol's end `len` or beyond, move down over it. */
  method ReplaceAt(sym: array<Code>, at: nat, size: nat, ghost len: nat, idx: Code)
    requires at + 2 <= len <= at + 1 + size < sym.Length && ZeroFrom(sym[..], len)
    modifies sym
    ensures sym[..at + 1] == old(sym[..at]) + [idx] && sym[at + 1..len - 1] == old(sym[at + 2..len])
    ensures ZeroFrom(sym[..], len - 1)
  {
    ghost var was := sym[..];
    sym[at] := idx;
    assert sym[..] == was[at := idx];
    MoveDown(sym, at + 1, size);
    MovedDown(was, sym[..], at, size, len, idx);
    assert sym[..at + 1] == sym[..][..at + 1] && sym[at + 1..len - 1] == sym[..][at + 1..len - 1];
  }

  /** Look for the next pair behind the last replacement. */
  method NextToken(sym: array<Code>, start: nat, size: nat, ghost len: nat, a: Code, b: Code) returns (found: bool, at: nat)
    requires start <= len <= start + size <= sym.Length && ZeroFrom(sym[..], len) && a != 0 && b != 0
    ensures found ==> NextPair(sym[..], start, len, at, a, b)
    ensures !found ==> NoPair(sym[..][start..len], a, b)
  {
    if size < 2 { return false, start; }
    found, at := FindToken(sym, start, size, a, b);
    WindowMatches(sym[start..start + size], len - start, a, b);
    assert sym[start..start + size][..len - start] == sym[..][start..len];
  }

  lemma ReplaceSplit(s: seq<Code>, start: nat, at: nat, a: Code, b: Code, idx: Code)
    requires start <= at && at + 2 <= |s| && FirstPair(s[start..], at - start, a, b)
    ensures s[..at] + [idx] + Replace(s[at + 2..], a, b, idx) == s[..start] + Replace(s[start..], a, b, idx)
  {
    var rest, k := s[start..], at - start;
    ReplaceFirst(rest, k, a, b, idx);
    Regroup(s[..start], rest[..k], [idx], Replace(rest[k + 2..], a, b, idx));
    assert s[..at] == s[..start] + rest[..k] && s[at + 2..] == rest[k + 2..];
  }

  lemma Regroup(w: seq<Code>, x: seq<Code>, y: seq<Code>, z: seq<Code>)
    ensures w + (x + y + z) == w + x + y + z
  {
  }

  /** The pair at `at` is the first one behind `start`. */
  ghost predicate NextPair(s: seq<Code>, start: nat, len: nat, at: int, a: Code, b: Code) {
    start <= len <= |s| && start <= at && FirstPair(s[start..len], at - start, a, b)
  }

  /** What is done before `start` and what remains to do up to `len` add up to `goal`. */
  ghost predicate Progress(s: seq<Code>, start: nat, len: nat, a: Code, b: Code, idx: Code, goal: seq<Code>) {
    start <= len <= |s| && s[..start] + Replace(s[start..len], a, b, idx) == goal
  }

  /** The same replacement, seen from the window that starts at `start`: what is done and
      what remains to do add up to the same. */
  method ReplaceToken(sym: array<Code>, ghost start: nat, at: nat, size: nat, ghost len: nat,
                      ghost a: Code, ghost b: Code, idx: Code, ghost goal: seq<Code>)
    requires at + 2 <= len <= at + 1 + size < sym.Length && ZeroFrom(sym[..], len)
    requires NextPair(sym[..], start, len, at, a, b) && Progress(sym[..], start, len, a, b, idx, goal)
    modifies sym
    ensures ZeroFrom(sym[..], len - 1) && Progress(sym[..], at + 1, len - 1, a, b, idx, goal)
  {
    ghost var s := sym[..len];
    assert sym[..][start..len] == s[start..] && sym[at + 2..len] == s[at + 2..] && sym[..][..start] == s[..start] && sym[..at] == s[..at];
    ReplaceSplit(s, start, at, a, b, idx);
    ReplaceAt(sym, at, size, len, idx);
    assert sym[..][at + 1..len - 1] == sym[at + 1..len - 1] && sym[..][..at + 1] == sym[..at + 1];
  }

  /** The loop of `compress_symbols` that rewrites one symbol. The search window `size` is
      never shortened by the bytes deleted, so it reaches beyond the symbol's end. */
  method ReplaceLoop(sym: array<Code>, full: nat, a: Code, b: Code, idx: Code, first: nat) returns (len: nat)
    requires full < sym.Length && ZeroFrom(sym[..], full) && a != 0 && b != 0
    requires NextPair(sym[..], 0, full, first, a, b)
    modifies sym
    ensures len <= full && ZeroFrom(sym[..], len)
    ensures sym[..][..len] == Replace(old(sym[..][..full]), a, b, idx)
  {
    len := full;
    var p1, p2, size := 0, first, full;
    ghost var goal := Replace(sym[..][..full], a, b, idx);
    assert sym[..][0..full] == sym[..][..full];
    var searching := true;
    while searching
      invariant p1 + size == full && p1 <= len <= full && ZeroFrom(sym[..], len)
      invariant Progress(sym[..], p1, len, a, b, idx, goal)
      invariant searching ==> NextPair(sym[..], p1, len, p2, a, b)
      invariant !searching ==> NoPair(sym[..][p1..len], a, b)
      decreases full - p1, searching
    {
      size := size - (p2 + 1 - p1);
      ReplaceToken(sym, p1, p2, size, len, a, b, idx, goal);
      p2 := p2 + 1;
      p1 := p2;
      len := len - 1;
      searching, p2 := NextToken(sym, p1, size, len, a, b);
    }
    ProgressDone(sym[..], p1, len, a, b, idx, goal);
  }

  lemma ProgressDone(s: seq<Code>, start: nat, len: nat, a: Code, b: Code, idx: Code, goal: seq<Code>)
    requires Progress(s, start, len, a, b, idx, goal) && NoPair(s[start..len], a, b)
    ensures s[..len] == goal
  {
    ReplaceNone(s[start..len], a, b, idx);
    Joined(s, start, len);
  }

  lemma Joined(s: seq<Code>, start: nat, len: nat)
    requires start <= len <= |s|
    ensures s[..start] + s[start..len] == s[..len]
  {
  }

  /** The pair is replaced in the first `i` symbols. */
  ghost predicate ReplacedTo(cur: seq<seq<Code>>, ss: seq<seq<Code>>, a: Code, b: Code, idx: Code, i: nat) {
    |cur| == |ss| && forall j | 0 <= j < |ss| :: cur[j] == if j < i then Replace(ss[j], a, b, idx) else ss[j]
  }

  lemma ReplacedNext(cur: seq<seq<Code>>, ss: seq<seq<Code>>, a: Code, b: Code, idx: Code, i: nat)
    requires ReplacedTo(cur, ss, a, b, idx, i) && i < |ss|
    ensures ReplacedTo(cur[i := Replace(cur[i], a, b, idx)], ss, a, b, idx, i + 1)
  {
  }

  lemma ReplacedAll(cur: seq<seq<Code>>, ss: seq<seq<Code>>, a: Code, b: Code, idx: Code)
    requires ReplacedTo(cur, ss, a, b, idx, |ss|)
    ensures cur == ReplaceAll(ss, a, b, idx)
  {
  }

  method ReplaceInPlace(e: SymEntry, a: Code, b: Code, idx: Code, first: nat)
    requires e.Valid() && a != 0 && b != 0 && FirstPair(e.Content(), first, a, b)
    modifies e, e.sym
    ensures e.Valid() && e.Content() == Replace(old(e.Content()), a, b, idx)
  {
    assert e.sym[..][0..e.len] == e.sym[..e.len] == e.sym[..][..e.len];
    var len := ReplaceLoop(e.sym, e.len, a, b, idx, first);
    e.len := len;
    assert e.sym[..e.len] == e.sym[..][..e.len];
  }

  // ----- The pair counters -----

  predicate Counts(profit: seq<int>, ss: seq<seq<Code>>) {
    |profit| == PAIRS && forall k | 0 <= k < PAIRS :: profit[k] == CountAll(ss, k)
  }

  /** The counters after `sign` times the pairs of `s` are added. */
  predicate Adjusted(profit: seq<int>, was: seq<int>, s: seq<Code>, sign: int) {
    |profit| == |was| == PAIRS && forall k | 0 <= k < PAIRS :: profit[k] == was[k] + sign * Count(s, k)
  }

  lemma {:induction false} CountSplit(s: seq<Code>, i: nat, k: nat)
    requires i + 1 < |s|
    ensures Count(s[..i + 2], k) == Count(s[..i + 1], k) + (if Key(s[i], s[i + 1]) == k then 1 else 0)
  {
    if i == 0 {
      assert s[..2][1..] == [s[1]];
    } else {
      assert s[..i + 2][1..] == s[1..][..i + 1] && s[..i + 1][1..] == s[1..][..i];
      CountSplit(s[1..], i - 1, k);
    }
  }

  /** One round of `learn_symbol` (sign 1) or `forget_symbol` (sign -1). */
  lemma CountStep(profit: seq<int>, profit': seq<int>, was: seq<int>, s: seq<Code>, i: nat, sign: int)
    requires sign == 1 || sign == -1
    requires i + 1 < |s| && Adjusted(profit, was, s[..i + 1], sign)
    requires profit' == profit[Key(s[i], s[i + 1]) := profit[Key(s[i], s[i + 1])] + sign]
    ensures Adjusted(profit', was, s[..i + 2], sign)
  {
    forall k | 0 <= k < PAIRS ensures profit'[k] == was[k] + sign * Count(s[..i + 2], k) {
      CountSplit(s, i, k);
    }
  }

  lemma CountShort(profit: seq<int>, s: seq<Code>)
    requires |profit| == PAIRS && |s| < 2
    ensures Adjusted(profit, profit, s, 1) && Adjusted(profit, profit, s, -1)
  {
  }

  /** Forgetting the old form of one symbol and learning the new one keeps the counters exact. */
  lemma Recounted(was: seq<int>, forgot: seq<int>, learned: seq<int>, ss: seq<seq<Code>>, i: nat, s: seq<Code>)
    requires i < |ss| && Counts(was, ss) && Adjusted(forgot, was, ss[i], -1) && Adjusted(learned, forgot, s, 1)
    ensures Counts(learned, ss[i := s])
  {
    forall k | 0 <= k < PAIRS ensures learned[k] == CountAll(ss[i := s], k) {
      CountAllUpdate(ss, i, s, k);
    }
  }

  lemma Learned(was: seq<int>, learned: seq<int>, ss: seq<seq<Code>>, s: seq<Code>)
    requires Counts(was, ss) && Adjusted(learned, was, s, 1)
    ensures Counts(learned, ss + [s])
  {
    forall k | 0 <= k < PAIRS ensures learned[k] == CountAll(ss + [s], k) {
      CountAllAppend(ss, s, k);
    }
  }

  lemma {:induction false} CountAllAppend(ss: seq<seq<Code>>, s: seq<Code>, k: nat)
    ensures CountAll(ss + [s], k) == CountAll(ss, k) + Count(s, k)
  {
    if ss != [] {
      assert (ss + [s])[1..] == ss[1..] + [s];
      CountAllAppend(ss[1..], s, k);
    }
  }

  method LearnSymbol(tokenProfit: array<int>, symbol: array<Code>, len: nat)
    requires tokenProfit.Length == PAIRS && len <= symbol.Length
    modifies tokenProfit
    ensures Adjusted(tokenProfit[..], old(tokenProfit[..]), old(symbol[..len]), 1)
  {
    ghost var was, s := tokenProfit[..], symbol[..len];
    var i := 0;
    if len < 2 { CountShort(was, s); return; }
    CountShort(was, s[..1]);
    while i < len - 1
      invariant i <= len - 1 && symbol[..len] == s
      invariant Adjusted(tokenProfit[..], was, s[..i + 1], 1)
    {
      ghost var before := tokenProfit[..];
      var k: nat := (symbol[i] as int) + (symbol[i + 1] as int) * 256;
      assert k == Key(s[i], s[i + 1]);
      tokenProfit[k] := tokenProfit[k] + 1;
      CountStep(before, tokenProfit[..], was, s, i, 1);
      i := i + 1;
    }
    assert s[..i + 1] == s;
  }

  method ForgetSymbol(tokenProfit: array<int>, symbol: array<Code>, len: nat)
    requires tokenProfit.Length == PAIRS && len <= symbol.Length
    modifies tokenProfit
    ensures Adjusted(tokenProfit[..], old(tokenProfit[..]), old(symbol[..len]), -1)
  {
    ghost var was, s := tokenProfit[..], symbol[..len];
    var i := 0;
    if len < 2 { CountShort(was, s); return; }
    CountShort(was, s[..1]);
    while i < len - 1
      invariant i <= len - 1 && symbol[..len] == s
      invariant Adjusted(tokenProfit[..], was, s[..i + 1], -1)
    {
      ghost var before := tokenProfit[..];
      var k: nat := (symbol[i] as int) + (symbol[i + 1] as int) * 256;
      assert k == Key(s[i], s[i + 1]);
      tokenProfit[k] := tokenProfit[k] - 1;
      CountStep(before, tokenProfit[..], was, s, i, -1);
      i := i + 1;
    }
    assert s[..i + 1] == s;
  }

  /** Different symbols, in different buffers. */
  ghost predicate Apart(table: seq<SymEntry>) {
    forall i, j | 0 <= i < j < |table| :: table[i] != table[j] && table[i].sym != table[j].sym
  }

  /** The global tables of the program. */
  class Compressor {
    const table: seq<SymEntry>
    const tokenProfit: array<int>
    const bestTable: array2<Code>
    const bestTableLen: array<nat>

    ghost function Buffers(): set<object>
    {
      set e | e in table :: e.sym
    }

    ghost predicate Separate() {
      && tokenProfit.Length == PAIRS
      && bestTable.Length0 == CODES && bestTable.Length1 == 2 && bestTableLen.Length == CODES
      && Apart(table)
      && (tokenProfit as object) !in Buffers() && (bestTableLen as object) !in Buffers()
      && (tokenProfit as object) != bestTableLen
    }

    /** The program's start, its symbols read: no pair counted, all slots free. */
    constructor (table: seq<SymEntry>)
      requires Apart(table)
      ensures Separate() && this.table == table && forall k | 0 <= k < PAIRS :: tokenProfit[k] == 0
      ensures fresh(tokenProfit) && fresh(bestTable) && fresh(bestTableLen)
    {
      this.table := table;
      tokenProfit := new int[PAIRS](_ => 0);
      bestTable := new Code[CODES, 2]((_, _) => 0);
      bestTableLen := new nat[CODES](_ => 0);
    }

    /** The symbols are well formed and hold `ss`. */
    ghost predicate Holds(ss: seq<seq<Code>>)
      reads table, Buffers()
    {
      |ss| == |table| && forall i | 0 <= i < |table| :: table[i].Valid() && table[i].Content() == ss[i]
    }

    ghost function EntryAt(c: Code): Entry
      requires Separate()
      reads bestTable, bestTableLen
    {
      if bestTableLen[c] == 0 then Free
      else if bestTableLen[c] == 1 && bestTable[c, 0] == c then Real
      else Pair(bestTable[c, 0], bestTable[c, 1])
    }

    /** The contents of `best_table`. */
    ghost function Best(): Table
      requires Separate()
      reads bestTable, bestTableLen
    {
      seq(CODES, c requires 0 <= c < CODES reads bestTable, bestTableLen => EntryAt(c))
    }

    /** The lengths in `best_table_len` are those of the entries. */
    ghost predicate TableShape()
      requires Separate()
      reads bestTable, bestTableLen
    {
      forall c: Code :: bestTableLen[c] <= 2 && (bestTableLen[c] == 1 ==> bestTable[c, 0] == c)
        && (bestTableLen[c] == 2 ==> EntryAt(c).Pair?)
    }

    /** The body of the loop of `compress_symbols`: one symbol. */
    method CompressSymbol(i: nat, a: Code, b: Code, idx: Code, ghost ss: seq<seq<Code>>)
      requires Separate() && i < |table| && Holds(ss) && Counts(tokenProfit[..], ss) && a != 0 && b != 0
      modifies table[i], table[i].sym, tokenProfit
      ensures Holds(ss[i := Replace(ss[i], a, b, idx)])
      ensures Counts(tokenProfit[..], ss[i := Replace(ss[i], a, b, idx)])
    {
      var e := table[i];
      var len := e.len;
      var found, at := FindToken(e.sym, 0, len, a, b);
      assert e.sym[0..len] == ss[i];
      if !found {
        ReplaceNone(ss[i], a, b, idx);
        assert ss[i := ss[i]] == ss;
        return;
      }
      ghost var was := tokenProfit[..];
      ForgetSymbol(tokenProfit, e.sym, len);
      ghost var forgot := tokenProfit[..];
      ReplaceInPlace(e, a, b, idx, at);
      LearnSymbol(tokenProfit, e.sym, e.len);
      Recounted(was, forgot, tokenProfit[..], ss, i, Replace(ss[i], a, b, idx));
    }

    /** `compress_symbols`. */
    method CompressSymbols(a: Code, b: Code, idx: Code, ghost ss: seq<seq<Code>>)
      requires Separate() && Holds(ss) && Counts(tokenProfit[..], ss) && a != 0 && b != 0
      modifies table, Buffers(), tokenProfit
      ensures Holds(ReplaceAll(ss, a, b, idx)) && Counts(tokenProfit[..], ReplaceAll(ss, a, b, idx))
    {
      ghost var cur := ss;
      var i := 0;
      while i < |table|
        invariant i <= |table| && Holds(cur) && Counts(tokenProfit[..], cur) && ReplacedTo(cur, ss, a, b, idx, i)
      {
        CompressSymbol(i, a, b, idx, cur);
        ReplacedNext(cur, ss, a, b, idx, i);
        cur := cur[i := Replace(cur[i], a, b, idx)];
        i := i + 1;
      }
      ReplacedAll(cur, ss, a, b, idx);
    }

    /** `find_best_token`: the first of the pairs that occur most often. */
    method FindBestToken() returns (best: nat)
      requires tokenProfit.Length == PAIRS && forall k | 0 <= k < PAIRS :: tokenProfit[k] >= 0
      ensures best < PAIRS && forall k | 0 <= k < PAIRS :: tokenProfit[k] <= tokenProfit[best]
      ensures forall k | 0 <= k < best :: tokenProfit[k] < tokenProfit[best]
    {
      var bestprofit := -10000;
      best := 0;
      var i := 0;
      while i < PAIRS
        invariant i <= PAIRS && best < PAIRS && (i > 0 ==> bestprofit == tokenProfit[best])
        invariant i == 0 ==> bestprofit == -10000
        invariant forall k | 0 <= k < i :: tokenProfit[k] <= bestprofit
        invariant i > 0 ==> best < i && forall k | 0 <= k < best :: tokenProfit[k] < bestprofit
      {
        if tokenProfit[i] > bestprofit {
          best := i;
          bestprofit := tokenProfit[i];
        }
        i := i + 1;
      }
    }

    /** Hands out a free slot: `best_table[i]` becomes the pair. */
    method SetPair(i: Code, a: Code, b: Code)
      requires Separate() && TableShape()
      modifies bestTable, bestTableLen
      ensures TableShape() && Best() == old(Best())[i := Pair(a, b)]
    {
      ghost var was := Best();
      bestTableLen[i] := 2;
      bestTable[i, 0] := a;
      bestTable[i, 1] := b;
      forall c: Code ensures EntryAt(c) == was[i := Pair(a, b)][c] {
        if c != i { assert EntryAt(c) == was[c]; }
      }
    }

    /** The two halves of a round: the slot is filled, then the pair replaced. */
    method FillAndReplace(i: Code, a: Code, b: Code, ghost ss: seq<seq<Code>>)
      requires Separate() && TableShape() && Holds(ss) && Counts(tokenProfit[..], ss) && a != 0 && b != 0
      modifies table, Buffers(), tokenProfit, bestTable, bestTableLen
      ensures TableShape() && Best() == old(Best())[i := Pair(a, b)]
      ensures Holds(ReplaceAll(ss, a, b, i)) && Counts(tokenProfit[..], ReplaceAll(ss, a, b, i))
    {
      SetPair(i, a, b);
      CompressSymbols(a, b, i, ss);
    }

    /** One round: the pair gets slot `i` and is replaced in all symbols, after which it
        occurs nowhere and the total length has dropped. */
    method HandOut(i: Code, best: nat, ghost ss0: seq<seq<Code>>, ghost texts: seq<seq<Code>>) returns (ghost ss: seq<seq<Code>>)
      requires Separate() && TableShape() && Holds(ss0) && Counts(tokenProfit[..], ss0)
      requires Compressed(Best(), ss0, texts, i) && Best()[i].Free?
      requires best < PAIRS && tokenProfit[best] > 0
      modifies table, Buffers(), tokenProfit, bestTable, bestTableLen
      ensures TableShape() && Holds(ss) && Counts(tokenProfit[..], ss) && Compressed(Best(), ss, texts, i - 1)
      ensures Best() == old(Best())[i := Pair(best % 256, best / 256)]
      ensures ss == ReplaceAll(ss0, best % 256, best / 256, i)
      ensures TotalLength(ss) < TotalLength(ss0) && CountAll(ss, best) == 0
    {
      var a: Code, b: Code := best % 256, best / 256;
      assert Key(a, b) == best;
      PairInUse(Best(), ss0, texts, i, a, b);
      CompressRound(Best(), ss0, texts, i, a, b);
      ReplaceAllShortens(ss0, a, b, i);
      ss := ReplaceAll(ss0, a, b, i);
      FillAndReplace(i, a, b, ss0);
    }

    /** The state between two rounds, the slots above `i` being done. */
    ghost predicate Running(ss: seq<seq<Code>>, texts: seq<seq<Code>>, i: int)
      requires Separate()
      reads table, Buffers(), tokenProfit, bestTable, bestTableLen
    {
      && TableShape() && Holds(ss) && Counts(tokenProfit[..], ss)
      && Compressed(Best(), ss, texts, i) && FilledAbove(Best(), i)
      && -1 <= i < CODES && Greedy(Best(), texts, i) && ss == Replay(Best(), texts, i)
    }

    /** The state at the end: every pair was the best one when it was handed out, and all slots are in
        use, or no pair is left. */
    ghost predicate Finished(ss: seq<seq<Code>>, texts: seq<seq<Code>>)
      requires Separate()
      reads table, Buffers(), tokenProfit, bestTable, bestTableLen
    {
      && TableShape() && Holds(ss) && Counts(tokenProfit[..], ss) && Compressed(Best(), ss, texts, -1)
      && Greedy(Best(), texts, -1) && Complete(Best(), texts) && ss == Replay(Best(), texts, -1)
    }

    lemma SlotTaken(ss: seq<seq<Code>>, texts: seq<seq<Code>>, i: Code)
      requires Separate() && Running(ss, texts, i) && !Best()[i].Free?
      ensures Running(ss, texts, i - 1)
    {
      StopEarly(Best(), ss, texts, i);
      GreedySkip(Best(), texts, i);
      FillStep(Best(), i, Best()[i]);
    }

    lemma NothingLeft(ss: seq<seq<Code>>, texts: seq<seq<Code>>, i: Code, best: nat)
      requires Separate() && Running(ss, texts, i) && Best()[i].Free?
      requires best < PAIRS && tokenProfit[best] == 0 && forall k | 0 <= k < PAIRS :: tokenProfit[k] <= tokenProfit[best]
      ensures Finished(ss, texts)
    {
      StopEarly(Best(), ss, texts, i);
      forall k: nat | k < CODES * CODES ensures CountAll(ss, k) == 0 {
        assert tokenProfit[..][k] <= tokenProfit[..][best];
      }
      GreedyEnds(Best(), texts, i, ss);
    }

    /** A free slot gets the best pair. */
    method HandOutBest(i: Code, best: nat, ghost ss0: seq<seq<Code>>, ghost texts: seq<seq<Code>>) returns (ghost ss: seq<seq<Code>>)
      requires Separate() && Running(ss0, texts, i) && Best()[i].Free?
      requires best < PAIRS && tokenProfit[best] > 0 && forall k | 0 <= k < PAIRS :: tokenProfit[k] <= tokenProfit[best]
      requires forall k | 0 <= k < best :: tokenProfit[k] < tokenProfit[best]
      modifies table, Buffers(), tokenProfit, bestTable, bestTableLen
      ensures Running(ss, texts, i - 1) && TotalLength(ss) < TotalLength(ss0)
      ensures Best() == old(Best())[i := Pair(best % 256, best / 256)]
    {
      ghost var t := Best();
      BestIsMost(tokenProfit[..], ss0, best);
      GreedyNext(t, texts, i, best % 256, best / 256);
      FillStep(t, i, Pair(best % 256, best / 256));
      ss := HandOut(i, best, ss0, texts);
    }

    /** The body of the loop of `optimize_result`: the slot of code `i`. */
    method OptimizeSlot(i: Code, ghost ss0: seq<seq<Code>>, ghost texts: seq<seq<Code>>) returns (exhausted: bool, ghost ss: seq<seq<Code>>)
      requires Separate() && Running(ss0, texts, i)
      modifies table, Buffers(), tokenProfit, bestTable, bestTableLen
      ensures exhausted ==> Finished(ss, texts)
      ensures !exhausted ==> Running(ss, texts, i - 1)
      ensures TotalLength(ss) <= TotalLength(ss0)
    {
      ss, exhausted := ss0, false;
      assert Best()[i] == EntryAt(i);
      if bestTableLen[i] == 0 {
        var best := FindBestToken();
        if tokenProfit[best] == 0 {
          NothingLeft(ss, texts, i, best);
          return true, ss;
        }
        ss := HandOutBest(i, best, ss, texts);
      } else {
        SlotTaken(ss, texts, i);
      }
    }

    /** `optimize_result`: from the slot of code 255 down to that of 0. */
    method OptimizeResult(ghost ss0: seq<seq<Code>>, ghost texts: seq<seq<Code>>) returns (ghost ss: seq<seq<Code>>)
      requires Separate() && Running(ss0, texts, 255)
      modifies table, Buffers(), tokenProfit, bestTable, bestTableLen
      ensures Finished(ss, texts) && TotalLength(ss) <= TotalLength(ss0)
    {
      ss := ss0;
      var i: int := 255;
      while i >= 0
        invariant -1 <= i <= 255 && Running(ss, texts, i) && TotalLength(ss) <= TotalLength(ss0)
      {
        var exhausted;
        exhausted, ss := OptimizeSlot(i, ss, texts);
        if exhausted { return; }
        i := i - 1;
      }
      RunningEnds(ss, texts);
    }

    lemma RunningEnds(ss: seq<seq<Code>>, texts: seq<seq<Code>>)
      requires Separate() && Running(ss, texts, -1)
      ensures Finished(ss, texts)
    {
      AllFilled(Best(), texts);
    }

    /** `build_initial_tok_table`, for symbols already known to be valid. */
    method BuildInitialTokTable(ghost ss: seq<seq<Code>>)
      requires Separate() && Holds(ss) && forall k | 0 <= k < PAIRS :: tokenProfit[k] == 0
      modifies tokenProfit
      ensures Counts(tokenProfit[..], ss)
    {
      EmptyCounts(tokenProfit[..]);
      var i := 0;
      while i < |table|
        invariant i <= |table| && Holds(ss) && Counts(tokenProfit[..], ss[..i])
      {
        ghost var was := tokenProfit[..];
        LearnSymbol(tokenProfit, table[i].sym, table[i].len);
        Learned(was, tokenProfit[..], ss[..i], ss[i]);
        assert ss[..i] + [ss[i]] == ss[..i + 1];
        i := i + 1;
      }
      assert ss[..i] == ss;
    }

    /** `insert_real_symbols_in_table`. */
    method InsertRealSymbolsInTable(ghost ss: seq<seq<Code>>)
      requires Separate() && Holds(ss)
      modifies bestTable, bestTableLen
      ensures TableShape() && Characters(Best(), ss)
    {
      forall c | 0 <= c < CODES { bestTableLen[c] := 0; }
      ghost var seen: set<Code> := {};
      var i := 0;
      while i < |table|
        invariant i <= |table| && Holds(ss) && Marked(seen)
        invariant forall c: Code :: c in seen <==> exists m | 0 <= m < i :: c in ss[m]
      {
        ghost var before := seen;
        seen := InsertCharacters(table[i], seen, ss[i]);
        assert Holds(ss);
        i := i + 1;
      }
    }

    /** The inner loop: the characters of one symbol. */
    method InsertCharacters(e: SymEntry, ghost before: set<Code>, ghost s: seq<Code>) returns (ghost seen: set<Code>)
      requires Separate() && e.len <= e.sym.Length && e.Content() == s && Marked(before)
      requires (bestTableLen as object) != e.sym && (bestTable as object) != e.sym
      modifies bestTable, bestTableLen
      ensures Marked(seen) && forall c: Code :: c in seen <==> c in before || c in s
    {
      seen := before;
      var j := 0;
      while j < e.len
        invariant j <= e.len && e.Content() == s && Marked(seen)
        invariant forall c: Code :: c in seen <==> c in before || c in s[..j]
      {
        var c := e.sym[j];
        assert c == s[j] && s[..j + 1] == s[..j] + [c];
        bestTable[c, 0] := c;
        bestTableLen[c] := 1;
        seen := seen + {c};
        j := j + 1;
      }
      assert s[..j] == s;
    }

    /** The table holds exactly these characters. */
    ghost predicate Marked(seen: set<Code>)
      requires Separate()
      reads bestTable, bestTableLen
    {
      forall c: Code :: if c in seen then bestTableLen[c] == 1 && bestTable[c, 0] == c else bestTableLen[c] == 0
    }

    /** `optimize_token_table`: whatever symbols without NUL come in, afterwards each stands for what it
        was, and the best pairs are replaced until there is none or no slot; so they take fewer
        bytes, unless there was no pair to begin with. It fails when there are no symbols. */
    method OptimizeTokenTable(ghost texts: seq<seq<Code>>) returns (ok: bool, ghost ss: seq<seq<Code>>)
      requires Separate() && Holds(texts) && (forall s | s in texts :: 0 !in s)
      requires forall k | 0 <= k < PAIRS :: tokenProfit[k] == 0
      modifies table, Buffers(), tokenProfit, bestTable, bestTableLen
      ensures ok <==> |table| > 0
      ensures ok ==> TableShape() && Holds(ss) && |ss| == |texts| && Ordered(Best()) && !Best()[0].Real?
      ensures ok ==> forall j | 0 <= j < |ss| :: Expand(Best(), ss[j]) == texts[j]
      ensures ok ==> Finished(ss, texts) && TotalLength(ss) <= TotalLength(texts)
      ensures ok && (exists s | s in texts :: |s| >= 2) ==> TotalLength(ss) < TotalLength(texts)
    {
      ss := texts;
      BuildInitialTokTable(texts);
      InsertRealSymbolsInTable(texts);
      if |table| == 0 { return false, ss; }
      CharactersCompressed(Best(), texts);
      ss := OptimizeResult(texts, texts);
      if s :| s in texts && |s| >= 2 { LongSymbol(Best(), texts, s); }
      forall j | 0 <= j < |ss| ensures Expand(Best(), ss[j]) == texts[j] {
        assert Stands(Best(), ss[j], texts[j], -1);
      }
      ok := true;
    }

    /** The symbols, now `ss`, stand for `texts`. */
    ghost predicate StandFor(ss: seq<seq<Code>>, texts: seq<seq<Code>>)
      requires Separate()
      reads table, Buffers(), bestTable, bestTableLen
    {
      && TableShape() && Holds(ss) && Ordered(Best()) && |ss| == |texts|
      && forall j | 0 <= j < |ss| :: Expand(Best(), ss[j]) == texts[j]
    }

    /** `expand_symbol` on the symbol `j`, once all are compressed: it writes the original text. */
    method ExpandEntry(j: nat, result: array<Code>, ghost ss: seq<seq<Code>>, ghost texts: seq<seq<Code>>) returns (total: nat)
      requires Separate() && StandFor(ss, texts) && j < |table| && |texts[j]| < result.Length
      requires (result as object) != bestTableLen && (result as object) != bestTable && (result as object) !in Buffers()
      modifies result
      ensures StandFor(ss, texts)
      ensures total == |texts[j]| && result[..total] == texts[j] && result[total] == 0
    {
      var data := table[j].sym[..table[j].len];
      assert data == ss[j];
      total := ExpandSymbol(data, result, 0, Best(), CODES + 1);
    }

    static lemma OneMore(some: seq<seq<Code>>, all: seq<seq<Code>>)
      requires some <= all && |some| < |all|
      ensures some + [all[|some|]] <= all
    {
    }

    /** All symbols, expanded one by one. */
    method ExpandAll(size: nat, ghost ss: seq<seq<Code>>, ghost texts: seq<seq<Code>>) returns (expanded: seq<seq<Code>>)
      requires Separate() && StandFor(ss, texts) && forall s | s in texts :: |s| < size
      ensures expanded == texts
    {
      var buf := new Code[size];
      expanded := [];
      while |expanded| < |table|
        invariant expanded <= texts && StandFor(ss, texts)
      {
        assert texts[|expanded|] in texts;
        var total := ExpandEntry(|expanded|, buf, ss, texts);
        OneMore(expanded, texts);
        expanded := expanded + [buf[..total]];
      }
    }

    /** The finished table is `t`. */
    ghost predicate IsTable(t: Table)
      requires Separate()
      reads bestTable, bestTableLen
    {
      TableShape() && forall c: Code :: t[c] == EntryAt(c)
    }

    /** `expand_symbol`: writes the text of `data` and a NUL at `at`, and returns its length. */
    method ExpandSymbol(data: seq<Code>, result: array<Code>, at: nat, ghost t: Table, ghost height: nat) returns (total: nat)
      requires Separate() && IsTable(t) && Ordered(t) && at + |Expand(t, data)| < result.Length
      requires (result as object) != bestTableLen && (result as object) != bestTable
      requires Heights(t, data, height)
      modifies result
      ensures total == |Expand(t, data)| && result[at + total] == 0
      ensures Wrote(old(result[..]), result[..], at, Expand(t, data))
      decreases height, 2
    {
      total := ExpandCodes(data, result, at, t, height);
      result[at + total] := 0;
    }

    /** Its loop. */
    method ExpandCodes(data: seq<Code>, result: array<Code>, at: nat, ghost t: Table, ghost height: nat) returns (total: nat)
      requires Separate() && IsTable(t) && Ordered(t) && at + |Expand(t, data)| < result.Length
      requires (result as object) != bestTableLen && (result as object) != bestTable
      requires Heights(t, data, height)
      modifies result
      ensures total == |Expand(t, data)| && Wrote(old(result[..]), result[..], at, Expand(t, data))
      decreases height, 1
    {
      ghost var was, done := result[..], [];
      total := 0;
      var i := 0;
      NothingExpanded(t, data);
      while i < |data|
        invariant i <= |data| && IsTable(t) && total == |done|
        invariant Expanded(t, data, done, data[i..]) && Wrote(was, result[..], at, done)
      {
        ghost var now, rest := result[..], data[i..];
        ExpandNext(t, data, done, rest);
        var rlen := ExpandOne(data[i], result, at + total, t, height);
        WroteMore(was, now, result[..], at, done, ExpandCode(t, data[i]));
        done := done + ExpandCode(t, data[i]);
        total := total + rlen;
        i := i + 1;
        assert rest[1..] == data[i..];
      }
      ExpandedAll(t, data, done);
    }

    /** The body of the loop: one code, either a character or a slot to expand first. */
    method ExpandOne(c: Code, result: array<Code>, at: nat, ghost t: Table, ghost height: nat) returns (rlen: nat)
      requires Separate() && IsTable(t) && Ordered(t) && at + |ExpandCode(t, c)| < result.Length
      requires (result as object) != bestTableLen && (result as object) != bestTable
      requires Height(t[c], c) <= height
      modifies result
      ensures rlen == |ExpandCode(t, c)|
      ensures Wrote(old(result[..]), result[..], at, ExpandCode(t, c))
      decreases height, 0
    {
      assert t[c] == EntryAt(c);
      if bestTable[c, 0] == c && bestTableLen[c] == 1 {
        result[at] := c;
        rlen := 1;
      } else {
        var row := if bestTableLen[c] == 0 then [] else [bestTable[c, 0], bestTable[c, 1]];
        RowText(t, c, row);
        rlen := ExpandSymbol(row, result, at, t, Height(t[c], c) - 1);
      }
    }
  }

  /** The buffer was changed from `at` on by writing a text, and at most the byte behind it. */
  predicate Wrote(was: seq<Code>, now: seq<Code>, at: nat, text: seq<Code>) {
    && |now| == |was| && at + |text| < |was|
    && (forall k {:trigger now[k]} | 0 <= k < |was| && (k < at || at + |text| < k) :: now[k] == was[k])
    && (forall k {:trigger text[k]} | 0 <= k < |text| :: now[at + k] == text[k])
  }

  lemma WroteMore(s0: seq<Code>, s1: seq<Code>, s2: seq<Code>, at: nat, x: seq<Code>, y: seq<Code>)
    requires Wrote(s0, s1, at, x) && Wrote(s1, s2, at + |x|, y)
    ensures Wrote(s0, s2, at, x + y)
  {
    forall k | 0 <= k < |x + y| ensures s2[at + k] == (x + y)[k] {
      if k < |x| { assert s1[at + k] == x[k]; } else { assert s2[at + |x| + (k - |x|)] == y[k - |x|]; }
    }
    forall k | 0 <= k < |s0| && (k < at || at + |x + y| < k) ensures s2[k] == s0[k] {
      assert s1[k] == s0[k];
    }
  }

  lemma JoinText(x: seq<Code>, y: seq<Code>, z: seq<Code>)
    ensures x + y + z == x + (y + z)
  {
  }

  /** How deep a code's expansion may recurse. */
  function Height(e: Entry, c: Code): nat {
    match e
    case Real => 0
    case Free => 1
    case Pair(_, _) => CODES + 1 - c
  }

  /** All codes but `rest` are expanded to `done`. */
  ghost predicate Expanded(t: Table, data: seq<Code>, done: seq<Code>, rest: seq<Code>)
    requires Ordered(t)
  {
    done + Expand(t, rest) == Expand(t, data)
  }

  lemma NothingExpanded(t: Table, data: seq<Code>)
    requires Ordered(t)
    ensures Expanded(t, data, [], data[0..])
  {
    assert data[0..] == data;
  }

  lemma ExpandNext(t: Table, data: seq<Code>, done: seq<Code>, rest: seq<Code>)
    requires Ordered(t) && rest != [] && Expanded(t, data, done, rest)
    ensures Expanded(t, data, done + ExpandCode(t, rest[0]), rest[1..])
    ensures |done| + |ExpandCode(t, rest[0])| <= |Expand(t, data)|
  {
    JoinText(done, ExpandCode(t, rest[0]), Expand(t, rest[1..]));
  }

  lemma ExpandedAll(t: Table, data: seq<Code>, done: seq<Code>)
    requires Ordered(t) && Expanded(t, data, done, [])
    ensures done == Expand(t, data)
  {
    assert done + [] == done;
  }

  predicate Heights(t: Table, data: seq<Code>, height: nat) {
    forall j | 0 <= j < |data| :: Height(t[data[j]], data[j]) <= height
  }

  lemma RowText(t: Table, c: Code, row: seq<Code>)
    requires Ordered(t) && !t[c].Real?
    requires row == if t[c].Free? then [] else [t[c].first, t[c].second]
    ensures Expand(t, row) == ExpandCode(t, c)
    ensures Height(t[c], c) > 0 && Heights(t, row, Height(t[c], c) - 1)
  {
    if t[c].Pair? {
      var a, b := ExpandCode(t, t[c].first), ExpandCode(t, t[c].second);
      assert row[1..] == [t[c].second] && row[1..][1..] == [];
      assert Expand(t, row[1..]) == b + [] == b;
      assert Expand(t, row) == a + Expand(t, row[1..]);
    }
  }

  lemma FillStep(t: Table, i: Code, e: Entry)
    requires FilledAbove(t, i) && !e.Free?
    ensures FilledAbove(t[i := e], i - 1) && t[i := t[i]] == t
  {
    assert t[i := t[i]] == t;
    var t': Table := t[i := e];
    forall c: Code | c > i - 1 ensures InUse(t', c) {
      if c > i { assert InUse(t, c); }
    }
  }

  lemma StopEarly(t: Table, ss: seq<seq<Code>>, texts: seq<seq<Code>>, i: int)
    requires Compressed(t, ss, texts, i) && 0 <= i < CODES
    ensures Compressed(t, ss, texts, -1) && Compressed(t, ss, texts, i - 1)
  {
    forall j | 0 <= j < |ss| ensures Stands(t, ss[j], texts[j], -1) && Stands(t, ss[j], texts[j], i - 1) {
      assert Stands(t, ss[j], texts[j], i);
    }
  }

  /** The characters the symbols themselves use. */
  predicate Characters(t: Table, ss: seq<seq<Code>>) {
    forall c: Code :: (t[c].Real? <==> Occurs(ss, c)) && !t[c].Pair?
  }

  /** The table of characters compresses nothing: every symbol stands for itself. */
  lemma CharactersCompressed(t: Table, ss: seq<seq<Code>>)
    requires Characters(t, ss) && forall s | s in ss :: 0 !in s
    ensures Compressed(t, ss, ss, 255) && Greedy(t, ss, 255)
  {
    forall j | 0 <= j < |ss| ensures Stands(t, ss[j], ss[j], 255) {
      assert ss[j] in ss;
      RealText(t, ss[j]);
    }
  }

  lemma BestIsMost(profit: seq<int>, ss: seq<seq<Code>>, best: nat)
    requires Counts(profit, ss) && best < PAIRS && profit[best] > 0
    requires forall k | 0 <= k < PAIRS :: profit[k] <= profit[best]
    requires forall k | 0 <= k < best :: profit[k] < profit[best]
    ensures Most(ss, best % 256, best / 256)
  {
    var key := Key(best % 256, best / 256);
    assert key == best;
    forall k: nat | k < CODES * CODES
      ensures CountAll(ss, k) <= CountAll(ss, key) && (k < key ==> CountAll(ss, k) < CountAll(ss, key))
    {
      assert profit[k] <= profit[best];
    }
  }

  lemma AllFilled(t: Table, texts: seq<seq<Code>>)
    requires FilledAbove(t, -1)
    ensures Complete(t, texts)
  {
  }

  lemma LongSymbol(t: Table, texts: seq<seq<Code>>, s: seq<Code>)
    requires Greedy(t, texts, -1) && Complete(t, texts) && Ordered(t) && !t[0].Real?
    requires s in texts && |s| >= 2
    ensures TotalLength(Replay(t, texts, -1)) < TotalLength(texts)
  {
    var i :| 0 <= i < |texts| && texts[i] == s;
    GreedyShortens(t, texts, i);
  }

  lemma EmptyCounts(profit: seq<int>)
    requires |profit| == PAIRS && forall k | 0 <= k < PAIRS :: profit[k] == 0
    ensures Counts(profit, [])
  {
  }

  // ----- From the symbols read to the symbols expanded -----

  /** The symbol table as read: one entry, with a buffer of its own, for each text. */
  method LoadTable(texts: seq<seq<Code>>) returns (table: seq<SymEntry>)
    ensures |table| == |texts| && Apart(table)
    ensures forall i | 0 <= i < |table| ::
              fresh(table[i]) && fresh(table[i].sym) && table[i].Valid() && table[i].Content() == texts[i]
  {
    table := [];
    while |table| < |texts|
      invariant |table| <= |texts| && Apart(table)
      invariant forall i | 0 <= i < |table| ::
                  fresh(table[i]) && fresh(table[i].sym) && table[i].Valid() && table[i].Content() == texts[i]
    {
      var e := new SymEntry(texts[|table|]);
      table := table + [e];
    }
  }

  predicate Fits(text: seq<Code>, size: nat) { 0 !in text && |text| < size }

  /** Compressing all symbols and expanding each of them gives them back, for any symbols without
      NUL that fit the buffer they are expanded into. */
  method CompressAndExpand(texts: seq<seq<Code>>, size: nat) returns (ok: bool, expanded: seq<seq<Code>>)
    requires forall s | s in texts :: Fits(s, size)
    ensures ok <==> texts != []
    ensures ok ==> expanded == texts
  {
    var table := LoadTable(texts);
    var c := new Compressor(table);
    ghost var ss;
    ok, ss := c.OptimizeTokenTable(texts);
    expanded := [];
    if ok { expanded := c.ExpandAll(size, ss, texts); }
  }
}
