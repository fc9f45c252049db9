/** The compression behind `scripts/kallsyms.c`, on sequences of byte codes: replacing a
    pair of codes by an unused one, the table of pairs, and expanding again. */
module Tokens {
  const CODES: nat := 256

  type Code = c: int | 0 <= c < CODES

  // ----- Counting and replacing pairs -----

  /** The key of the pair at `i`: the index of its counter. */
  function Key(a: Code, b: Code): (k: nat)
    ensures k < CODES * CODES
  {
    a + b * CODES
  }

  /** How often the pair with key `k` occurs in adjacent positions. */
  function Count(s: seq<Code>, k: nat): (n: nat)
    decreases |s|
  {
    if |s| < 2 then 0
    else (if Key(s[0], s[1]) == k then 1 else 0) + Count(s[1..], k)
  }

  function CountAll(ss: seq<seq<Code>>, k: nat): nat {
    if ss == [] then 0 else Count(ss[0], k) + CountAll(ss[1..], k)
  }

  /** Replace the pair a, b by the code `c`, from left to right. */
  function Replace(s: seq<Code>, a: Code, b: Code, c: Code): (r: seq<Code>)
    ensures |r| <= |s|
    decreases |s|
  {
    if |s| < 2 then s
    else if s[0] == a && s[1] == b then [c] + Replace(s[2..], a, b, c)
    else [s[0]] + Replace(s[1..], a, b, c)
  }

  predicate PairAt(s: seq<Code>, i: int, a: Code, b: Code) {
    0 <= i < |s| - 1 && s[i] == a && s[i + 1] == b
  }

  predicate FirstPair(s: seq<Code>, i: int, a: Code, b: Code) {
    PairAt(s, i, a, b) && forall j | 0 <= j < i :: !PairAt(s, j, a, b)
  }

  predicate NoPair(s: seq<Code>, a: Code, b: Code) {
    forall j | 0 <= j < |s| :: !PairAt(s, j, a, b)
  }

  lemma {:induction false} ReplaceFirst(s: seq<Code>, i: nat, a: Code, b: Code, c: Code)
    requires FirstPair(s, i, a, b)
    ensures Replace(s, a, b, c) == s[..i] + [c] + Replace(s[i + 2..], a, b, c)
  {
    if i > 0 {
      assert !PairAt(s, 0, a, b);
      forall j | 0 <= j < i - 1 ensures !PairAt(s[1..], j, a, b) {
        assert !PairAt(s, j + 1, a, b);
      }
      ReplaceFirst(s[1..], i - 1, a, b, c);
      PrefixShift(s, i, c, Replace(s[i + 2..], a, b, c));
    }
  }

  lemma PrefixShift(s: seq<Code>, i: nat, c: Code, rest: seq<Code>)
    requires 0 < i && i + 2 <= |s|
    ensures s[1..][i + 1..] == s[i + 2..]
    ensures [s[0]] + (s[1..][..i - 1] + [c] + rest) == s[..i] + [c] + rest
  {
  }

  lemma {:induction false} ReplaceNone(s: seq<Code>, a: Code, b: Code, c: Code)
    requires NoPair(s, a, b)
    ensures Replace(s, a, b, c) == s
    decreases |s|
  {
    if |s| >= 2 {
      assert !PairAt(s, 0, a, b);
      forall j | 0 <= j < |s[1..]| ensures !PairAt(s[1..], j, a, b) {
        assert !PairAt(s, j + 1, a, b);
      }
      ReplaceNone(s[1..], a, b, c);
    }
  }

  lemma {:induction false} CountZero(s: seq<Code>, a: Code, b: Code)
    ensures Count(s, Key(a, b)) == 0 <==> NoPair(s, a, b)
    decreases |s|
  {
    if |s| >= 2 {
      CountZero(s[1..], a, b);
      assert Key(s[0], s[1]) == Key(a, b) <==> PairAt(s, 0, a, b);
      if Count(s, Key(a, b)) == 0 {
        forall j | 0 <= j < |s| ensures !PairAt(s, j, a, b) {
          if j > 0 { assert !PairAt(s[1..], j - 1, a, b); }
        }
      } else if Count(s[1..], Key(a, b)) != 0 {
        var j :| 0 <= j < |s[1..]| && PairAt(s[1..], j, a, b);
        assert PairAt(s, j + 1, a, b);
      }
    }
  }

  /** After the replacement by a fresh code the pair occurs nowhere. */
  lemma {:induction false} ReplaceRemoves(s: seq<Code>, a: Code, b: Code, c: Code)
    requires c != a && c != b
    ensures Count(Replace(s, a, b, c), Key(a, b)) == 0
    decreases |s|
  {
    if |s| >= 2 {
      var r := Replace(s, a, b, c);
      if s[0] == a && s[1] == b {
        ReplaceRemoves(s[2..], a, b, c);
        assert r[1..] == Replace(s[2..], a, b, c);
      } else {
        ReplaceRemoves(s[1..], a, b, c);
        assert r[1..] == Replace(s[1..], a, b, c);
        ReplaceHead(s[1..], a, b, c);
      }
    }
  }

  lemma ReplaceHead(s: seq<Code>, a: Code, b: Code, c: Code)
    requires s != []
    ensures Replace(s, a, b, c) != [] && Replace(s, a, b, c)[0] in {s[0], c}
  {
  }

  lemma {:induction false} ReplaceShortens(s: seq<Code>, a: Code, b: Code, c: Code)
    ensures |Replace(s, a, b, c)| < |s| <==> Count(s, Key(a, b)) > 0
    decreases |s|
  {
    if |s| >= 2 {
      ReplaceShortens(s[1..], a, b, c);
    }
  }

  lemma {:induction false} ReplaceUses(s: seq<Code>, a: Code, b: Code, c: Code)
    ensures forall x | x in Replace(s, a, b, c) :: x == c || x in s
    decreases |s|
  {
    if |s| >= 2 {
      ReplaceUses(s[1..], a, b, c);
      ReplaceUses(s[2..], a, b, c);
    }
  }

  lemma {:induction false} CountAllUpdate(ss: seq<seq<Code>>, i: nat, s: seq<Code>, k: nat)
    requires i < |ss|
    ensures CountAll(ss[i := s], k) + Count(ss[i], k) == CountAll(ss, k) + Count(s, k)
  {
    if i > 0 {
      assert ss[i := s][1..] == ss[1..][i - 1 := s];
      CountAllUpdate(ss[1..], i - 1, s, k);
    }
  }

  lemma {:induction false} CountAllBounds(ss: seq<seq<Code>>, i: nat, k: nat)
    requires i < |ss|
    ensures Count(ss[i], k) <= CountAll(ss, k)
  {
    if i > 0 { CountAllBounds(ss[1..], i - 1, k); }
  }

  function TotalLength(ss: seq<seq<Code>>): nat {
    if ss == [] then 0 else |ss[0]| + TotalLength(ss[1..])
  }

  /** The replacement in every symbol. */
  function ReplaceAll(ss: seq<seq<Code>>, a: Code, b: Code, c: Code): (r: seq<seq<Code>>)
    ensures |r| == |ss| && forall i | 0 <= i < |ss| :: r[i] == Replace(ss[i], a, b, c)
  {
    if ss == [] then [] else [Replace(ss[0], a, b, c)] + ReplaceAll(ss[1..], a, b, c)
  }

  /** After the replacement in every symbol the pair is gone, and if it occurred at all the
      total length has dropped. */
  lemma {:induction false} ReplaceAllShortens(ss: seq<seq<Code>>, a: Code, b: Code, c: Code)
    requires c != a && c != b
    ensures CountAll(ReplaceAll(ss, a, b, c), Key(a, b)) == 0
    ensures TotalLength(ReplaceAll(ss, a, b, c)) <= TotalLength(ss)
    ensures CountAll(ss, Key(a, b)) > 0 ==> TotalLength(ReplaceAll(ss, a, b, c)) < TotalLength(ss)
  {
    if ss != [] {
      ReplaceRemoves(ss[0], a, b, c);
      ReplaceShortens(ss[0], a, b, c);
      ReplaceAllShortens(ss[1..], a, b, c);
      assert ReplaceAll(ss, a, b, c)[1..] == ReplaceAll(ss[1..], a, b, c);
    }
  }

  /** A pair that is counted consists of codes of some symbol. */
  lemma {:induction false} CountedOccurs(ss: seq<seq<Code>>, a: Code, b: Code)
    requires CountAll(ss, Key(a, b)) > 0
    ensures exists i, j :: 0 <= i < |ss| && 0 <= j < |ss[i]| && PairAt(ss[i], j, a, b)
  {
    if Count(ss[0], Key(a, b)) > 0 {
      CountZero(ss[0], a, b);
      var j :| 0 <= j < |ss[0]| && PairAt(ss[0], j, a, b);
    } else {
      CountedOccurs(ss[1..], a, b);
      var i, j :| 0 <= i < |ss[1..]| && 0 <= j < |ss[1..][i]| && PairAt(ss[1..][i], j, a, b);
      assert PairAt(ss[i + 1], j, a, b);
    }
  }

  // ----- The table -----

  /** A slot of `best_table`: free, a character of the symbols themselves, or a pair. */
  datatype Entry = Free | Real | Pair(first: Code, second: Code)

  type Table = t: seq<Entry> | |t| == CODES witness seq(CODES, _ => Free)

  predicate InUse(t: Table, c: Code) { !t[c].Free? }

  /** Pairs are made of characters, or of pairs handed out earlier, which have larger codes. */
  predicate Ordered(t: Table) {
    forall c: Code | t[c].Pair? :: Earlier(t, t[c].first, c) && Earlier(t, t[c].second, c)
  }

  predicate Earlier(t: Table, d: Code, c: Code) {
    t[d].Real? || (d > c && t[d].Pair?)
  }

  /** The text a code stands for. */
  function ExpandCode(t: Table, c: Code): seq<Code>
    requires Ordered(t)
    decreases if t[c].Pair? then CODES - c else 0
  {
    match t[c]
    case Free => []
    case Real => [c]
    case Pair(a, b) => ExpandCode(t, a) + ExpandCode(t, b)
  }

  /** The text of a string of codes. */
  function Expand(t: Table, s: seq<Code>): seq<Code>
    requires Ordered(t)
  {
    if s == [] then [] else ExpandCode(t, s[0]) + Expand(t, s[1..])
  }

  lemma {:induction false} ExpandAppend(t: Table, s: seq<Code>, r: seq<Code>)
    requires Ordered(t)
    ensures Expand(t, s + r) == Expand(t, s) + Expand(t, r)
  {
    if s == [] {
      assert s + r == r;
    } else {
      assert (s + r)[1..] == s[1..] + r;
      ExpandAppend(t, s[1..], r);
    }
  }

  /** Replacing a pair by its code does not change the text. */
  lemma {:induction false} ReplaceKeepsText(t: Table, s: seq<Code>, a: Code, b: Code, c: Code)
    requires Ordered(t) && t[c] == Pair(a, b)
    ensures Expand(t, Replace(s, a, b, c)) == Expand(t, s)
    decreases |s|
  {
    if |s| >= 2 {
      if s[0] == a && s[1] == b {
        ReplaceKeepsText(t, s[2..], a, b, c);
        assert s[1..][1..] == s[2..];
        assert ([c] + Replace(s[2..], a, b, c))[1..] == Replace(s[2..], a, b, c);
      } else {
        ReplaceKeepsText(t, s[1..], a, b, c);
        assert ([s[0]] + Replace(s[1..], a, b, c))[1..] == Replace(s[1..], a, b, c);
      }
    }
  }

  /** A pair of codes in use may be put in a free slot below all pairs. */
  lemma AddPairOrdered(t: Table, a: Code, b: Code, c: Code)
    requires Ordered(t) && t[c].Free? && InUse(t, a) && InUse(t, b)
    requires forall d: Code | d <= c :: !t[d].Pair?
    ensures Ordered(t[c := Pair(a, b)])
  {
  }

  /** Filling a free slot leaves the text of the codes in use alone. */
  lemma {:induction false} AddPairKeepsCode(t: Table, a: Code, b: Code, c: Code, d: Code)
    requires Ordered(t) && t[c].Free? && InUse(t, a) && InUse(t, b) && InUse(t, d)
    requires forall d: Code | d <= c :: !t[d].Pair?
    ensures Ordered(t[c := Pair(a, b)]) && ExpandCode(t[c := Pair(a, b)], d) == ExpandCode(t, d)
    decreases if t[d].Pair? then CODES - d else 0
  {
    AddPairOrdered(t, a, b, c);
    if t[d].Pair? {
      AddPairKeepsCode(t, a, b, c, t[d].first);
      AddPairKeepsCode(t, a, b, c, t[d].second);
    }
  }

  lemma {:induction false} AddPairKeepsText(t: Table, a: Code, b: Code, c: Code, s: seq<Code>)
    requires Ordered(t) && t[c].Free? && InUse(t, a) && InUse(t, b) && forall x | x in s :: InUse(t, x)
    requires forall d: Code | d <= c :: !t[d].Pair?
    ensures Ordered(t[c := Pair(a, b)]) && Expand(t[c := Pair(a, b)], s) == Expand(t, s)
  {
    AddPairOrdered(t, a, b, c);
    if s != [] {
      AddPairKeepsCode(t, a, b, c, s[0]);
      AddPairKeepsText(t, a, b, c, s[1..]);
    }
  }

  lemma {:induction false} RealText(t: Table, s: seq<Code>)
    requires Ordered(t) && forall x | x in s :: t[x].Real?
    ensures Expand(t, s) == s
  {
    if s != [] { RealText(t, s[1..]); }
  }

  /** Texts contain characters only; the code 0, which is not one, occurs in none. */
  lemma {:induction false} TextIsReal(t: Table, c: Code)
    requires Ordered(t)
    ensures forall x | x in ExpandCode(t, c) :: t[x].Real?
    decreases if t[c].Pair? then CODES - c else 0
  {
    if t[c].Pair? {
      TextIsReal(t, t[c].first);
      TextIsReal(t, t[c].second);
    }
  }

  // ----- Compression keeps every text -----

  /** The symbols `ss` stand for `texts`; pairs fill the slots above `i` only, and while
      slots remain no symbol contains the code 0. */
  ghost predicate Compressed(t: Table, ss: seq<seq<Code>>, texts: seq<seq<Code>>, i: int) {
    && Ordered(t) && !t[0].Real? && (forall d: Code | d <= i :: !t[d].Pair?)
    && |ss| == |texts|
    && (forall j | 0 <= j < |ss| :: Stands(t, ss[j], texts[j], i))
  }

  ghost predicate Stands(t: Table, s: seq<Code>, text: seq<Code>, i: int)
    requires Ordered(t)
  {
    (forall x | x in s :: InUse(t, x)) && Expand(t, s) == text && (i >= 0 ==> 0 !in s)
  }

  /** A pair that occurs among symbols without 0 is made of codes in use other than 0. */
  lemma PairInUse(t: Table, ss: seq<seq<Code>>, texts: seq<seq<Code>>, i: Code, a: Code, b: Code)
    requires Compressed(t, ss, texts, i) && CountAll(ss, Key(a, b)) > 0
    ensures InUse(t, a) && InUse(t, b) && a != 0 && b != 0
  {
    CountedOccurs(ss, a, b);
    var m, j :| 0 <= m < |ss| && 0 <= j < |ss[m]| && PairAt(ss[m], j, a, b);
    assert Stands(t, ss[m], texts[m], i) && ss[m][j] in ss[m] && ss[m][j + 1] in ss[m];
  }

  /** One round of `optimize_result`: a pair that occurs gets the free slot `i`. */
  lemma CompressRound(t: Table, ss: seq<seq<Code>>, texts: seq<seq<Code>>, i: Code, a: Code, b: Code)
    requires Compressed(t, ss, texts, i) && t[i].Free? && CountAll(ss, Key(a, b)) > 0
    ensures Compressed(t[i := Pair(a, b)], ReplaceAll(ss, a, b, i), texts, i - 1)
  {
    PairInUse(t, ss, texts, i, a, b);
    AddPairOrdered(t, a, b, i);
    var t', ss' := t[i := Pair(a, b)], ReplaceAll(ss, a, b, i);
    forall j | 0 <= j < |ss'| ensures Stands(t', ss'[j], texts[j], i - 1) {
      assert Stands(t, ss[j], texts[j], i);
      AddPairKeepsText(t, a, b, i, ss[j]);
      ReplaceKeepsText(t', ss[j], a, b, i);
      ReplaceUses(ss[j], a, b, i);
    }
  }

  // ----- The greedy choice -----

  predicate FilledAbove(t: Table, i: int) {
    forall c: Code | c > i :: InUse(t, c)
  }

  predicate NoPairUpTo(t: Table, i: int) {
    forall c: Code | c <= i :: !t[c].Pair?
  }

  /** No pair occurs more often in these symbols, and none with a smaller key as often. */
  ghost predicate Most(ss: seq<seq<Code>>, a: Code, b: Code) {
    && CountAll(ss, Key(a, b)) > 0
    && forall k: nat | k < CODES * CODES ::
         CountAll(ss, k) <= CountAll(ss, Key(a, b)) && (k < Key(a, b) ==> CountAll(ss, k) < CountAll(ss, Key(a, b)))
  }

  /** The symbols when the pairs of the slots above `i` have been replaced, from code 255 down. */
  function Replay(t: Table, texts: seq<seq<Code>>, i: int): (ss: seq<seq<Code>>)
    requires -1 <= i < CODES
    ensures |ss| == |texts|
    decreases CODES - i
  {
    if i == CODES - 1 then texts
    else
      var before := Replay(t, texts, i + 1);
      match t[i + 1]
      case Pair(a, b) => ReplaceAll(before, a, b, i + 1)
      case _ => before
  }

  predicate Occurs(ss: seq<seq<Code>>, c: Code) { exists j | 0 <= j < |ss| :: c in ss[j] }

  /** The characters have their own slots, and each pair above `i` was, when its turn came, the first
      of those that occurred most often. */
  ghost predicate Greedy(t: Table, texts: seq<seq<Code>>, i: int)
    requires -1 <= i < CODES
  {
    && (forall c: Code :: t[c].Real? <==> Occurs(texts, c))
    && forall c: Code | c > i && t[c].Pair? :: Most(Replay(t, texts, c), t[c].first, t[c].second)
  }

  predicate NoneLeft(ss: seq<seq<Code>>) {
    forall k: nat | k < CODES * CODES :: CountAll(ss, k) == 0
  }

  /** Pairs were handed out without a gap until all slots were in use or no pair was left. */
  ghost predicate Complete(t: Table, texts: seq<seq<Code>>) {
    && (forall c: Code | !InUse(t, c) :: NoPairUpTo(t, c))
    && (FilledAbove(t, -1) || NoneLeft(Replay(t, texts, -1)))
  }

  lemma {:induction false} ReplayKept(t: Table, t': Table, texts: seq<seq<Code>>, i: int)
    requires -1 <= i < CODES && forall c: Code | c > i :: t[c] == t'[c]
    ensures Replay(t, texts, i) == Replay(t', texts, i)
    decreases CODES - i
  {
    if i < CODES - 1 { ReplayKept(t, t', texts, i + 1); }
  }

  lemma {:induction false} ReplayIdle(t: Table, texts: seq<seq<Code>>, i: int, j: int)
    requires -1 <= j <= i < CODES && forall c: Code | j < c <= i :: !t[c].Pair?
    ensures Replay(t, texts, j) == Replay(t, texts, i)
    decreases i - j
  {
    if j < i { ReplayIdle(t, texts, i, j + 1); }
  }

  /** A pair more, in a slot that was free. */
  lemma GreedyNext(t: Table, texts: seq<seq<Code>>, i: Code, a: Code, b: Code)
    requires Greedy(t, texts, i) && t[i].Free? && Most(Replay(t, texts, i), a, b)
    ensures Greedy(t[i := Pair(a, b)], texts, i - 1)
    ensures Replay(t[i := Pair(a, b)], texts, i - 1) == ReplaceAll(Replay(t, texts, i), a, b, i)
  {
    var t': Table := t[i := Pair(a, b)];
    forall c: Code | c >= i ensures Replay(t', texts, c) == Replay(t, texts, c) { ReplayKept(t, t', texts, c); }
  }

  /** A slot that stays as it is. */
  lemma GreedySkip(t: Table, texts: seq<seq<Code>>, i: Code)
    requires Greedy(t, texts, i) && !t[i].Pair?
    ensures Greedy(t, texts, i - 1) && Replay(t, texts, i - 1) == Replay(t, texts, i)
  {
  }

  lemma GreedyDown(t: Table, texts: seq<seq<Code>>, i: Code)
    requires Greedy(t, texts, i) && NoPairUpTo(t, i)
    ensures Greedy(t, texts, -1)
  {
    forall c: Code | t[c].Pair? ensures Most(Replay(t, texts, c), t[c].first, t[c].second) {
      assert c > i;
    }
  }

  /** No pair is left: the rest of the slots stay as they are. */
  lemma GreedyEnds(t: Table, texts: seq<seq<Code>>, i: Code, ss: seq<seq<Code>>)
    requires Greedy(t, texts, i) && NoPairUpTo(t, i) && FilledAbove(t, i)
    requires ss == Replay(t, texts, i) && NoneLeft(ss)
    ensures Greedy(t, texts, -1) && Complete(t, texts) && Replay(t, texts, -1) == ss
  {
    GreedyDown(t, texts, i);
    ReplayIdle(t, texts, i, -1);
    forall c: Code | !InUse(t, c) ensures NoPairUpTo(t, c) {
      assert c <= i;
    }
  }

  /** How many bytes the symbols take when the slots above `i` have been filled. */
  function ReplayLength(t: Table, texts: seq<seq<Code>>, i: int): nat
    requires -1 <= i < CODES
  {
    TotalLength(Replay(t, texts, i))
  }

  /** A slot shortens the symbols if it holds a pair. */
  lemma SlotShortens(t: Table, texts: seq<seq<Code>>, c: Code)
    requires Greedy(t, texts, -1) && Ordered(t)
    ensures ReplayLength(t, texts, c - 1) <= ReplayLength(t, texts, c)
    ensures t[c].Pair? ==> ReplayLength(t, texts, c - 1) < ReplayLength(t, texts, c)
  {
    if t[c].Pair? {
      assert Earlier(t, t[c].first, c) && Earlier(t, t[c].second, c);
      ReplaceAllShortens(Replay(t, texts, c), t[c].first, t[c].second, c);
    }
  }

  lemma {:induction false} FallingLengths(lengths: seq<nat>, i: nat, j: nat)
    requires j <= i < |lengths| && forall k | 0 <= k < |lengths| - 1 :: lengths[k] <= lengths[k + 1]
    ensures lengths[j] <= lengths[i]
    decreases i - j
  {
    if j < i { FallingLengths(lengths, i - 1, j); }
  }

  lemma ReplayShortens(t: Table, texts: seq<seq<Code>>, i: int, j: int)
    requires -1 <= j <= i < CODES && Greedy(t, texts, -1) && Ordered(t)
    ensures ReplayLength(t, texts, j) <= ReplayLength(t, texts, i)
  {
    var lengths: seq<nat> := seq(CODES + 1, k requires 0 <= k <= CODES => ReplayLength(t, texts, k - 1));
    forall k | 0 <= k < CODES ensures lengths[k] <= lengths[k + 1] { SlotShortens(t, texts, k); }
    FallingLengths(lengths, i + 1, j + 1);
  }

  lemma LongSymbolCounted(ss: seq<seq<Code>>, i: nat)
    requires i < |ss| && |ss[i]| >= 2
    ensures CountAll(ss, Key(ss[i][0], ss[i][1])) > 0
  {
    CountAllBounds(ss, i, Key(ss[i][0], ss[i][1]));
  }

  /** Symbols that hold any pair at all are shortened, as the slot of code 0 is free for one. */
  lemma GreedyShortens(t: Table, texts: seq<seq<Code>>, i: nat)
    requires Greedy(t, texts, -1) && Complete(t, texts) && Ordered(t) && !t[0].Real?
    requires i < |texts| && |texts[i]| >= 2
    ensures TotalLength(Replay(t, texts, -1)) < TotalLength(texts)
  {
    LongSymbolCounted(texts, i);
    if forall c: Code :: !t[c].Pair? {
      assert !InUse(t, 0);
      ReplayIdle(t, texts, CODES - 1, -1);
    } else {
      var c: Code :| t[c].Pair?;
      ReplayShortens(t, texts, CODES - 1, c);
      SlotShortens(t, texts, c);
      ReplayShortens(t, texts, c - 1, -1);
    }
  }

  lemma KeyInjective(a: Code, b: Code, c: Code, d: Code)
    requires Key(a, b) == Key(c, d)
    ensures a == c && b == d
  {
  }

  lemma NotFree(t: Table, texts: seq<seq<Code>>, i: Code, ss: seq<seq<Code>>, a: Code, b: Code)
    requires Complete(t, texts) && ss == Replay(t, texts, i) && Most(ss, a, b)
    ensures !t[i].Free?
  {
    if !InUse(t, i) {
      assert NoPairUpTo(t, i);
      ReplayIdle(t, texts, i, -1);
    }
  }

  lemma SlotUnique(t: Table, t': Table, texts: seq<seq<Code>>, i: Code)
    requires Greedy(t, texts, -1) && Greedy(t', texts, -1) && Complete(t, texts) && Complete(t', texts)
    requires forall c: Code | c > i :: t[c] == t'[c]
    ensures t[i] == t'[i]
  {
    ReplayKept(t, t', texts, i);
    var ss := Replay(t, texts, i);
    if t[i].Pair? { NotFree(t', texts, i, ss, t[i].first, t[i].second); }
    if t'[i].Pair? { NotFree(t, texts, i, ss, t'[i].first, t'[i].second); }
    if t[i].Pair? && t'[i].Pair? {
      KeyInjective(t[i].first, t[i].second, t'[i].first, t'[i].second);
    }
  }

  /** The symbols determine the table. */
  lemma {:induction false} GreedyUnique(t: Table, t': Table, texts: seq<seq<Code>>, i: int)
    requires Greedy(t, texts, -1) && Greedy(t', texts, -1) && Complete(t, texts) && Complete(t', texts)
    requires -1 <= i < CODES
    ensures forall c: Code | c > i :: t[c] == t'[c]
    decreases CODES - i
  {
    if i < CODES - 1 {
      GreedyUnique(t, t', texts, i + 1);
      SlotUnique(t, t', texts, i + 1);
    }
  }

  // ----- The emitted token table -----

  /** The strings of the codes below `n`, each followed by NUL: `kallsyms_token_table`. */
  function TokenTable(t: Table, n: nat): seq<Code>
    requires Ordered(t) && n <= CODES
  {
    if n == 0 then [] else TokenTable(t, n - 1) + ExpandCode(t, n - 1) + [0]
  }

  /** Where the string of a code starts: `kallsyms_token_index`. */
  function TokenIndex(t: Table, c: Code): nat
    requires Ordered(t)
  {
    |TokenTable(t, c)|
  }

  /** The NUL-terminated string at the head of `bytes`. */
  function CString(bytes: seq<Code>): seq<Code> {
    if bytes == [] || bytes[0] == 0 then [] else [bytes[0]] + CString(bytes[1..])
  }

  lemma {:induction false} CStringAppend(s: seq<Code>, rest: seq<Code>)
    requires 0 !in s && rest != [] && rest[0] == 0
    ensures CString(s + rest) == s
  {
    if s == [] {
      assert s + rest == rest;
    } else {
      assert (s + rest)[1..] == s[1..] + rest;
      CStringAppend(s[1..], rest);
    }
  }

  lemma {:induction false} TokenTablePrefix(t: Table, c: Code, n: nat) returns (rest: seq<Code>)
    requires Ordered(t) && c < n <= CODES
    ensures TokenTable(t, n) == TokenTable(t, c) + ExpandCode(t, c) + ([0] + rest)
    decreases n
  {
    if n == c + 1 {
      rest := [];
      assert [0] + rest == [0];
    } else {
      var r := TokenTablePrefix(t, c, n - 1);
      rest := r + ExpandCode(t, n - 1) + [0];
      assert [0] + rest == [0] + r + ExpandCode(t, n - 1) + [0];
    }
  }

  /** Reading the emitted table at the emitted index gives the text of the code. */
  lemma TokenTableLookup(t: Table, c: Code)
    requires Ordered(t) && !t[0].Real?
    ensures TokenIndex(t, c) <= |TokenTable(t, |t|)|
    ensures CString(TokenTable(t, |t|)[TokenIndex(t, c)..]) == ExpandCode(t, c)
  {
    var rest := TokenTablePrefix(t, c, |t|);
    TextIsReal(t, c);
    SuffixIs(TokenTable(t, |t|), TokenTable(t, c), ExpandCode(t, c), [0] + rest);
    CStringAppend(ExpandCode(t, c), [0] + rest);
  }

  lemma SuffixIs(all: seq<Code>, before: seq<Code>, text: seq<Code>, rest: seq<Code>)
    requires all == before + text + rest
    ensures |before| <= |all| && all[|before|..] == text + rest
  {
  }

  /** What the kernel does with a compressed name: look every code up once in the table. */
  function LookUp(t: Table, s: seq<Code>): seq<Code>
    requires Ordered(t) && !t[0].Real?
  {
    if s == [] then []
    else
      TokenTableLookup(t, s[0]);
      CString(TokenTable(t, |t|)[TokenIndex(t, s[0])..]) + LookUp(t, s[1..])
  }

  /** One level of lookup in the fully expanded table is full expansion. */
  lemma {:induction false} LookUpExpands(t: Table, s: seq<Code>)
    requires Ordered(t) && !t[0].Real?
    ensures LookUp(t, s) == Expand(t, s)
  {
    if s != [] {
      TokenTableLookup(t, s[0]);
      LookUpExpands(t, s[1..]);
    }
  }
}
