/** What rendering does to the counter, the output and the list of `scripts/asn1_compiler.c`:
    the state after any entries, and after the root and any number of bodies. */
module Asn1State {
  import opened Asn1Layout
  import opened Asn1List

  /** The part of the renderer's state that a piece of rendering advances. */
  datatype Now = Now(m: nat, nrEntries: nat, out: seq<Entry>)

  /** The state after rendering `ops`. */
  ghost function After(now: Now, s: Schedule, ops: seq<Op>, emit: bool, entryIndex: seq<nat>): Now
    requires now.m <= |s.order|
  {
    Now(|Found(s.order[..now.m], ops)|, now.nrEntries + |ops|,
        if emit then now.out + Emit(ops, now.nrEntries, entryIndex) else now.out)
  }

  lemma TrackAppend(s: Schedule, m: nat, popped: nat, a: seq<Op>, b: seq<Op>) returns (k: nat)
    requires OnTrack(s, m, popped, a + b)
    ensures OnTrack(s, m, popped, a) && k == |Found(s.order[..m], a)| <= |s.order|
    ensures OnTrack(s, k, popped, b) && |Found(s.order[..k], b)| == |Found(s.order[..m], a + b)|
  {
    FoundAppend(s.order[..m], a, b);
    var found := Found(s.order[..m], a);
    FoundGrows(found, b);
    k := |found|;
    assert found <= s.order && s.order[..k] == found;
  }

  lemma OutAppend(now: Now, a: seq<Op>, b: seq<Op>, entryIndex: seq<nat>)
    ensures now.out + Emit(a, now.nrEntries, entryIndex) + Emit(b, now.nrEntries + |a|, entryIndex)
         == now.out + Emit(a + b, now.nrEntries, entryIndex)
  {
    EmitAppend(a, b, now.nrEntries, entryIndex);
  }

  lemma AfterAppend(now: Now, s: Schedule, a: seq<Op>, b: seq<Op>, emit: bool, entryIndex: seq<nat>, popped: nat)
    requires OnTrack(s, now.m, popped, a + b)
    ensures OnTrack(s, now.m, popped, a)
    ensures var mid := After(now, s, a, emit, entryIndex);
            && mid.m <= |s.order| && OnTrack(s, mid.m, popped, b)
            && After(mid, s, b, emit, entryIndex) == After(now, s, a + b, emit, entryIndex)
  {
    var k := TrackAppend(s, now.m, popped, a, b);
    var mid := After(now, s, a, emit, entryIndex);
    assert mid.m == k;
    assert After(mid, s, b, emit, entryIndex).out == After(now, s, a + b, emit, entryIndex).out by {
      OutAppend(now, a, b, entryIndex);
    }
  }

  lemma AfterNothing(now: Now, s: Schedule, emit: bool, entryIndex: seq<nat>)
    requires now.m <= |s.order|
    ensures After(now, s, [], emit, entryIndex) == now
  {
  }

  /** The state of a pass after the root and the first `j` bodies. */
  ghost function StateAt(p: Pieces, s: Schedule, j: nat, emit: bool, entryIndex: seq<nat>): Now
    requires Closed(p) && Proper(s, |p.bodies|) && j <= |s.order|
  {
    var code := Code(p, s.order, j);
    Now(s.size[j], |code|, if emit then Emit(code, 0, entryIndex) else [])
  }

  /** A pass after the root and the first `j` bodies: what was emitted, counted and noted. */
  ghost predicate Progress(p: Pieces, s: Schedule, j: nat, second: bool, popped: nat, now: Now, entryIndex: seq<nat>) {
    && Scheduled(p, s) && j <= |s.order| && popped == j
    && now == StateAt(p, s, j, second, entryIndex)
    && Indexed(p, s.order, if second then |s.order| else j, entryIndex)
  }

  /** The `j`-th element is taken off and its start noted; its body is to follow. */
  ghost predicate Taken(p: Pieces, s: Schedule, j: nat, second: bool, now: Now, entryIndex: seq<nat>) {
    && Scheduled(p, s) && j < |s.order|
    && now == StateAt(p, s, j, second, entryIndex)
    && Indexed(p, s.order, if second then |s.order| else j + 1, entryIndex)
  }

  /** The first pass notes the next start; the second notes it again. */
  lemma TakenNext(p: Pieces, s: Schedule, j: nat, second: bool, now: Now, entryIndex: seq<nat>)
    requires Progress(p, s, j, second, j, now, entryIndex) && j < |s.order|
    ensures Taken(p, s, j, second, now, entryIndex[s.order[j] := now.nrEntries])
  {
    NotedStep(s.order, j, if second then |s.order| else j, Starts(p, s.order), entryIndex);
  }

  lemma TakenAt(p: Pieces, s: Schedule, j: nat, second: bool, now: Now, entryIndex: seq<nat>)
    requires Taken(p, s, j, second, now, entryIndex)
    ensures now.m == s.size[j] && now.m <= |s.order|
  {
  }

  lemma RootState(p: Pieces, s: Schedule, emit: bool, entryIndex: seq<nat>)
    requires Scheduled(p, s)
    ensures After(Now(0, 0, []), s, p.root, emit, entryIndex) == StateAt(p, s, 0, emit, entryIndex)
  {
    assert s.order[..0] == [];
  }

  lemma NextFits(p: Pieces, s: Schedule, j: nat, e: nat, m: nat, popped: nat)
    requires Scheduled(p, s) && j < |s.order| && e == s.order[j] && m == s.size[j] && popped == j + 1
    ensures e < |p.bodies| && OnTrack(s, m, popped, p.bodies[e])
  {
    assert BodyFits(p, s, j);
  }

  lemma BodyState(p: Pieces, s: Schedule, j: nat, emit: bool, entryIndex: seq<nat>)
    requires Closed(p) && Proper(s, |p.bodies|) && j < |s.order| && BodyFits(p, s, j)
    ensures After(StateAt(p, s, j, emit, entryIndex), s, p.bodies[s.order[j]], emit, entryIndex)
         == StateAt(p, s, j + 1, emit, entryIndex)
  {
    var code, body := Code(p, s.order, j), p.bodies[s.order[j]];
    EmitAppend(code, body, 0, entryIndex);
    assert Code(p, s.order, j + 1) == code + body;
    assert StateAt(p, s, j, emit, entryIndex).nrEntries == |code|;
    assert |Found(s.order[..s.size[j]], body)| == s.size[j + 1];
  }

  lemma NextState(p: Pieces, s: Schedule, j: nat, e: nat, emit: bool, entryIndex: seq<nat>,
                  start: Now, done: Now)
    requires Taken(p, s, j, emit, start, entryIndex) && e == s.order[j] && start.m <= |s.order|
    requires done == After(start, s, p.bodies[e], emit, entryIndex)
    ensures Progress(p, s, j + 1, emit, j + 1, done, entryIndex)
  {
    assert BodyFits(p, s, j);
    BodyState(p, s, j, emit, entryIndex);
  }

  /** The calls in `cs` are still to be rendered to reach `goal`. */
  ghost predicate Remaining(g: Grammar, r: Ranking, s: Schedule, bound: nat, cs: seq<Call>, now: Now, popped: nat, goal: Now,
                            emit: bool, entryIndex: seq<nat>)
  {
    && Renderable(g, r) && Ranked(g, r, bound, cs) && OnTrack(s, now.m, popped, CallOps(g, r, bound, cs))
    && After(now, s, CallOps(g, r, bound, cs), emit, entryIndex) == goal
  }

  lemma RemainingNone(g: Grammar, r: Ranking, s: Schedule, bound: nat, cs: seq<Call>, now: Now, popped: nat, goal: Now,
                      emit: bool, entryIndex: seq<nat>)
    requires Remaining(g, r, s, bound, cs, now, popped, goal, emit, entryIndex) && cs == []
    ensures now == goal
  {
    AfterNothing(now, s, emit, entryIndex);
  }

  lemma RemainingNext(g: Grammar, r: Ranking, s: Schedule, bound: nat, cs: seq<Call>, now: Now, popped: nat, goal: Now,
                      emit: bool, entryIndex: seq<nat>)
    requires Remaining(g, r, s, bound, cs, now, popped, goal, emit, entryIndex) && cs != []
    ensures Live(g, r, cs[0].e, cs[0].tag) && r.rank(cs[0].e, cs[0].tag) < bound
    ensures OnTrack(s, now.m, popped, Ops(g, r, cs[0].e, cs[0].tag))
    ensures Remaining(g, r, s, bound, cs[1..], After(now, s, Ops(g, r, cs[0].e, cs[0].tag), emit, entryIndex), popped, goal,
                      emit, entryIndex)
  {
    AfterAppend(now, s, Ops(g, r, cs[0].e, cs[0].tag), CallOps(g, r, bound, cs[1..]), emit, entryIndex, popped);
  }

  lemma SingleCall(g: Grammar, r: Ranking, bound: nat, cs: seq<Call>, c: Call)
    requires Renderable(g, r) && Ranked(g, r, bound, cs) && cs == [c]
    ensures Live(g, r, c.e, c.tag) && r.rank(c.e, c.tag) < bound
    ensures CallOps(g, r, bound, cs) == Ops(g, r, c.e, c.tag)
  {
    assert cs[0] == c && cs[1..] == [];
    var ops := Ops(g, r, c.e, c.tag);
    assert ops + [] == ops;
  }

  /** A jump to an element not rendered yet is to the next one of the schedule. */
  lemma JumpNext(s: Schedule, n: nat, m: nat, popped: nat, rendered: seq<bool>, e: nat)
    requires Proper(s, n) && OnTrack(s, m, popped, [JumpTo(e)]) && |rendered| == n && e < n && Marks(s, n, m, rendered)
    ensures |Found(s.order[..m], [JumpTo(e)])| == if rendered[e] then m else m + 1
    ensures !rendered[e] ==> m < s.size[popped] && m < |s.order| && s.order[m] == e
  {
    FoundJump(s.order[..m], e);
    assert !rendered[e] ==> (s.order[..m] + [e])[m] == e;
  }

  lemma FoundJump(found: seq<nat>, e: nat)
    ensures Found(found, [JumpTo(e)]) == if e in found then found else found + [e]
  {
    assert [JumpTo(e)][1..] == [];
  }

  lemma EndHasNoJumps(g: Grammar, e: nat, n: nat)
    requires e < |g|
    ensures NoJumps(EndOnly(g, e, n)) && NoJumps(ActionOps(g, e)) && NoJumps(EndOps(g, e, n))
  {
  }

  lemma EndNoJumps(g: Grammar, e: nat, n: nat)
    requires e < |g|
    ensures NoJumps(EndOps(g, e, n))
  {
    EndHasNoJumps(g, e, n);
  }

  lemma {:induction false} FoundNone(found: seq<nat>, ops: seq<Op>)
    requires NoJumps(ops)
    ensures Found(found, ops) == found
    decreases |ops|
  {
    if ops != [] { FoundNone(found, ops[1..]); }
  }

  lemma AfterNoJumps(start: Now, s: Schedule, a: seq<Op>, b: seq<Op>, emit: bool, entryIndex: seq<nat>)
    requires start.m <= |s.order| && NoJumps(a) && NoJumps(b)
    ensures var mid := After(start, s, a, emit, entryIndex);
            mid.m == start.m && After(mid, s, b, emit, entryIndex) == After(start, s, a + b, emit, entryIndex)
  {
    var found := s.order[..start.m];
    FoundNone(found, a);
    FoundNone(found, b);
    FoundNone(found, a + b);
    var mid := After(start, s, a, emit, entryIndex);
    assert mid.m == start.m && s.order[..mid.m] == found;
    OutAppend(start, a, b, entryIndex);
  }

  lemma AfterPlain(start: Now, s: Schedule, ops: seq<Op>, op: Op, emit: bool, entryIndex: seq<nat>)
    requires start.m <= |s.order| && NoJumps(ops) && !op.JumpTo?
    ensures var mid := After(start, s, ops, emit, entryIndex);
            mid.m == start.m && After(mid, s, [op], emit, entryIndex) == After(start, s, ops + [op], emit, entryIndex)
  {
    AfterNoJumps(start, s, ops, [op], emit, entryIndex);
  }

  lemma AfterPair(start: Now, s: Schedule, a: Op, b: Op, emit: bool, entryIndex: seq<nat>)
    requires start.m <= |s.order| && !a.JumpTo? && !b.JumpTo?
    ensures After(start, s, [a], emit, entryIndex).m == start.m
    ensures After(After(start, s, [a], emit, entryIndex), s, [b], emit, entryIndex) == After(start, s, [a, b], emit, entryIndex)
  {
    AfterPlain(start, s, [a], b, emit, entryIndex);
    assert [a] + [b] == [a, b];
  }
}
