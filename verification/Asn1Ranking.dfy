/** Which grammars `scripts/asn1_compiler.c` renders at all: those for which the recursive calls
    from the root end. */
module Asn1Ranking {
  import opened Asn1Layout
  import opened Sequences
  import opened Wrappers

  predicate Fits(g: Grammar, c: Call) { c.e < |g| && IsTag(g, c.tag) }

  /** All calls there can be. */
  function AllCalls(g: Grammar): set<Call> {
    (set e: nat | e < |g| :: Call(e, None)) + (set e: nat, x: nat | e < |g| && x < |g| :: Call(e, Some(x)))
  }

  lemma FitsIn(g: Grammar, c: Call)
    requires Fits(g, c)
    ensures c in AllCalls(g)
  {
    if c.tag.None? { assert c == Call(c.e, None); } else { assert c == Call(c.e, Some(c.tag.value)); }
  }

  /** The call makes another one while its element is rendered. */
  predicate Calls(g: Grammar, c: Call, d: Call) {
    WellFormed(g) && Fits(g, c) && d in CallsOf(g, c.e, c.tag)
  }

  /** The call puts an element on the list, and rendering its body makes the other call. */
  predicate ListsFor(g: Grammar, c: Call, d: Call) {
    WellFormed(g) && Fits(g, c) && JumpsOut(g, c.e, c.tag) && d in ListCalls(g[c.e].children, false)
  }

  lemma CallsFit(g: Grammar, c: Call, d: Call)
    requires Calls(g, c, d) || ListsFor(g, c, d)
    ensures Fits(g, d)
  {
  }

  /** Each call makes the next, as its element is rendered. */
  predicate Chain(g: Grammar, p: seq<Call>) {
    && p != [] && (forall i | 0 <= i < |p| :: Fits(g, p[i]))
    && forall i | 0 < i < |p| :: Calls(g, p[i - 1], p[i])
  }

  /** A call that makes itself again: rendering would not end. */
  ghost predicate OnCycle(g: Grammar, c: Call) {
    exists p :: Chain(g, p) && |p| > 1 && p[0] == p[|p| - 1] == c
  }

  /** Each call makes the next, or has it made later, from the root on. */
  predicate Trail(g: Grammar, p: seq<Call>) {
    && p != [] && p[0] == Call(0, None) && (forall i | 0 <= i < |p| :: Fits(g, p[i]))
    && forall i | 0 < i < |p| :: Calls(g, p[i - 1], p[i]) || ListsFor(g, p[i - 1], p[i])
  }

  ghost predicate Reached(g: Grammar, c: Call) {
    exists p :: Trail(g, p) && p[|p| - 1] == c
  }

  /** The call can be rendered: its element has the child it needs, and the call does not make
      itself again on the way. */
  ghost predicate Sound(g: Grammar, c: Call) {
    Fits(g, c) && HasChild(g, c.e, c.tag) && !OnCycle(g, c)
  }

  // ----- What can be rendered ends -----

  lemma {:induction false} TrailLive(g: Grammar, r: Ranking, p: seq<Call>, i: nat)
    requires Renderable(g, r) && Trail(g, p) && i < |p|
    ensures Live(g, r, p[i].e, p[i].tag)
  {
    if i > 0 {
      TrailLive(g, r, p, i - 1);
      assert CallRanked(g, r, p[i - 1].e, p[i - 1].tag);
      assert Calls(g, p[i - 1], p[i]) || ListsFor(g, p[i - 1], p[i]);
    }
  }

  /** Ranks fall along a chain. */
  lemma {:induction false} ChainFalls(g: Grammar, r: Ranking, p: seq<Call>, i: nat)
    requires Renderable(g, r) && Chain(g, p) && Live(g, r, p[0].e, p[0].tag) && i < |p|
    ensures Live(g, r, p[i].e, p[i].tag) && r.rank(p[i].e, p[i].tag) + i <= r.rank(p[0].e, p[0].tag)
  {
    if i > 0 {
      ChainFalls(g, r, p, i - 1);
      assert CallRanked(g, r, p[i - 1].e, p[i - 1].tag);
      assert Calls(g, p[i - 1], p[i]);
    }
  }

  lemma RenderableSound(g: Grammar, r: Ranking, c: Call)
    requires Renderable(g, r) && Reached(g, c)
    ensures Sound(g, c)
  {
    var p :| Trail(g, p) && p[|p| - 1] == c;
    TrailLive(g, r, p, |p| - 1);
    assert CallRanked(g, r, c.e, c.tag);
    forall q | Chain(g, q) && |q| > 1 && q[0] == c ensures q[|q| - 1] != c {
      ChainFalls(g, r, q, |q| - 1);
    }
  }

  // ----- What ends can be rendered -----

  lemma ReachedNext(g: Grammar, c: Call, d: Call)
    requires Reached(g, c) && (Calls(g, c, d) || ListsFor(g, c, d))
    ensures Reached(g, d)
  {
    var p :| Trail(g, p) && p[|p| - 1] == c;
    CallsFit(g, c, d);
    assert Trail(g, p + [d]);
  }

  lemma {:induction false} ChainReached(g: Grammar, p: seq<Call>, i: nat)
    requires Chain(g, p) && Reached(g, p[0]) && i < |p|
    ensures Reached(g, p[i])
  {
    if i > 0 {
      ChainReached(g, p, i - 1);
      assert Calls(g, p[i - 1], p[i]);
      ReachedNext(g, p[i - 1], p[i]);
    }
  }

  lemma Cycle(g: Grammar, p: seq<Call>, i: nat, j: nat)
    requires Chain(g, p) && i < j < |p| && p[i] == p[j]
    ensures OnCycle(g, p[i])
  {
    var q := p[i..j + 1];
    forall k | 0 < k < |q| ensures Calls(g, q[k - 1], q[k]) {
      assert Calls(g, p[i + k - 1], p[i + k]);
    }
    assert Chain(g, q) && q[0] == p[i] && q[|q| - 1] == p[j];
  }

  /** A chain without a cycle passes no call twice, so it is not longer than the number of calls. */
  lemma ChainShort(g: Grammar, p: seq<Call>)
    requires Chain(g, p) && forall i | 0 <= i < |p| :: !OnCycle(g, p[i])
    ensures |p| <= |AllCalls(g)|
  {
    forall i, j | 0 <= i < j < |p| ensures p[i] != p[j] {
      if p[i] == p[j] { Cycle(g, p, i, j); }
    }
    forall c | c in p ensures c in AllCalls(g) { FitsIn(g, c); }
    DistinctWithin(p, AllCalls(g));
  }

  /** There is a chain of `n` calls from here. */
  ghost predicate HasChain(g: Grammar, c: Call, n: nat) {
    exists p :: Chain(g, p) && p[0] == c && |p| == n
  }

  /** The length of the longest chain from here, of at most `n` calls. */
  ghost function Longest(g: Grammar, c: Call, n: nat): nat {
    if n == 0 || HasChain(g, c, n) then n else Longest(g, c, n - 1)
  }

  lemma {:induction false} LongestIs(g: Grammar, c: Call, n: nat)
    ensures var k := Longest(g, c, n);
            k <= n && (k > 0 ==> HasChain(g, c, k)) && forall j: nat | k < j <= n :: !HasChain(g, c, j)
  {
    if n > 0 { LongestIs(g, c, n - 1); }
  }

  lemma ChainFrom(g: Grammar, c: Call, d: Call, k: nat)
    requires Calls(g, c, d) && (k > 0 ==> HasChain(g, d, k))
    ensures HasChain(g, c, k + 1)
  {
    var p: seq<Call> := [];
    if k > 0 { p :| Chain(g, p) && p[0] == d && |p| == k; }
    assert Chain(g, [c] + p);
  }

  lemma ReachedShort(g: Grammar, c: Call, n: nat)
    requires (forall b | Reached(g, b) :: Sound(g, b)) && Reached(g, c) && HasChain(g, c, n)
    ensures n <= |AllCalls(g)|
  {
    var p :| Chain(g, p) && p[0] == c && |p| == n;
    forall i | 0 <= i < |p| ensures !OnCycle(g, p[i]) {
      ChainReached(g, p, i);
      assert Sound(g, p[i]);
    }
    ChainShort(g, p);
  }

  lemma LongestFalls(g: Grammar, c: Call, d: Call, n: nat)
    requires (forall b | Reached(g, b) :: Sound(g, b)) && Reached(g, c) && Calls(g, c, d) && n == |AllCalls(g)|
    ensures Longest(g, d, n) < Longest(g, c, n)
  {
    LongestIs(g, c, n);
    LongestIs(g, d, n);
    ChainFrom(g, c, d, Longest(g, d, n));
    ReachedShort(g, c, Longest(g, d, n) + 1);
  }

  ghost function ByLongest(g: Grammar): Ranking {
    Ranking((e: nat, tag: Tag) => Reached(g, Call(e, tag)),
            (e: nat, tag: Tag) => Longest(g, Call(e, tag), |AllCalls(g)|), |AllCalls(g)| + 1)
  }

  lemma ReachedRanked(g: Grammar, c: Call)
    requires WellFormed(g) && (forall b | Reached(g, b) :: Sound(g, b)) && Reached(g, c)
    ensures CallRanked(g, ByLongest(g), c.e, c.tag)
  {
    var r := ByLongest(g);
    assert Sound(g, c);
    LongestIs(g, c, |AllCalls(g)|);
    forall d | Calls(g, c, d) ensures Fits(g, d) && Reached(g, d) && r.rank(d.e, d.tag) < r.rank(c.e, c.tag) {
      CallsFit(g, c, d);
      ReachedNext(g, c, d);
      LongestFalls(g, c, d, |AllCalls(g)|);
      assert Call(d.e, d.tag) == d && Call(c.e, c.tag) == c;
    }
    forall d | ListsFor(g, c, d) ensures Fits(g, d) && Reached(g, d) && r.rank(d.e, d.tag) < r.limit {
      CallsFit(g, c, d);
      ReachedNext(g, c, d);
      LongestIs(g, d, |AllCalls(g)|);
      assert Call(d.e, d.tag) == d;
    }
  }

  lemma SoundRenderable(g: Grammar)
    requires WellFormed(g) && g != [] && forall c | Reached(g, c) :: Sound(g, c)
    ensures Renderable(g, ByLongest(g))
  {
    var r := ByLongest(g);
    assert Trail(g, [Call(0, None)]);
    assert Reached(g, Call(0, None));
    forall e: nat, tag: Tag | Live(g, r, e, tag) ensures CallRanked(g, r, e, tag) {
      ReachedRanked(g, Call(e, tag));
    }
  }

  /** A grammar can be rendered, with some ranking, if and only if every call reached from the
      root has the child it needs and none makes itself again without a jump between. */
  lemma RenderableIff(g: Grammar)
    ensures (exists r :: Renderable(g, r)) <==> WellFormed(g) && g != [] && forall c | Reached(g, c) :: Sound(g, c)
  {
    if r :| Renderable(g, r) {
      forall c | Reached(g, c) ensures Sound(g, c) { RenderableSound(g, r, c); }
    }
    if WellFormed(g) && g != [] && forall c | Reached(g, c) :: Sound(g, c) { SoundRenderable(g); }
  }
}
