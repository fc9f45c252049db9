/** Where the jumps that close loops lead in the machine that `scripts/asn1_compiler.c` renders: back
    to the first entry of what is repeated. */
module Asn1Loops {
  import opened Asn1Layout
  import opened Asn1Render
  import opened Asn1Shapes
  import opened Wrappers

  /** From `start` on stands what the loop over `x` repeats, then its end, then a jump back. */
  predicate LoopFrom(ops: seq<Op>, start: nat, x: nat, inner: seq<Op>) {
    && start + |inner| + 1 < |ops| && ops[start..start + |inner|] == inner
    && ops[start + |inner|] == End(x) && ops[start + |inner| + 1] == LoopBack(|inner| + 1)
  }

  /** What an inline loop repeats: the entries of its first child. */
  ghost predicate Repeats(g: Grammar, r: Ranking, x: nat, inner: seq<Op>) {
    && Renderable(g, r) && x < |g| && g[x].children != [] && Live(g, r, g[x].children[0], None)
    && inner == Ops(g, r, g[x].children[0], None)
  }

  /** An element, and what a loop over it repeats. */
  type Bodies = iset<(nat, seq<Op>)>

  ghost function InlineBodies(g: Grammar, r: Ranking): Bodies {
    iset x: nat, inner: seq<Op> | Repeats(g, r, x, inner) :: (x, inner)
  }

  /** After its tag, a loop jumps out of line, or is followed by what it repeats. */
  ghost predicate LoopOpened(g: Grammar, bodies: Bodies, ops: seq<Op>, j: nat, x: nat, tag: Tag) {
    && x < |g| && IsTag(g, tag)
    && if JumpsOut(g, x, tag) then j + 1 < |ops| && ops[j + 1] == JumpTo(x)
       else exists inner :: (x, inner) in bodies && LoopFrom(ops, j + 1, x, inner)
  }

  predicate LoopTag(g: Grammar, op: Op) { op.TagEntry? && op.e < |g| && Loops(g[op.e].compound) }

  /** Every loop begun in `ops` is closed there, and nothing but a loop jumps back. */
  ghost predicate LoopsClosed(g: Grammar, bodies: Bodies, ops: seq<Op>) {
    && (forall j: nat | j < |ops| && LoopTag(g, ops[j]) :: LoopOpened(g, bodies, ops, j, ops[j].e, ops[j].tag))
    && (forall k: nat | k < |ops| && ops[k].LoopBack? :: EndBefore(g, ops, k))
  }

  predicate EndBefore(g: Grammar, ops: seq<Op>, k: nat)
    requires k < |ops|
  {
    k > 0 && ops[k - 1].End? && ops[k - 1].e < |g| && Loops(g[ops[k - 1].e].compound)
  }

  // ----- Loops stay closed when pieces are put together -----

  /** The piece stands at `at`. */
  predicate Sits(piece: seq<Op>, all: seq<Op>, at: nat) {
    at + |piece| <= |all| && forall i {:trigger piece[i]} | 0 <= i < |piece| :: all[at + i] == piece[i]
  }

  lemma FromShift(piece: seq<Op>, all: seq<Op>, at: nat, start: nat, x: nat, inner: seq<Op>)
    requires Sits(piece, all, at) && LoopFrom(piece, start, x, inner)
    ensures LoopFrom(all, at + start, x, inner)
  {
    var n := |inner|;
    forall i | 0 <= i < n ensures all[at + start..at + start + n][i] == inner[i] {
      assert piece[start..start + n][i] == piece[start + i];
    }
    assert piece[start + n] == End(x) && piece[start + n + 1] == LoopBack(n + 1);
  }

  lemma OpenedShift(g: Grammar, bodies: Bodies, piece: seq<Op>, all: seq<Op>, at: nat, j: nat, x: nat, tag: Tag)
    requires Sits(piece, all, at) && LoopOpened(g, bodies, piece, j, x, tag)
    ensures LoopOpened(g, bodies, all, at + j, x, tag)
  {
    if JumpsOut(g, x, tag) {
      assert piece[j + 1] == JumpTo(x);
    } else {
      var inner :| (x, inner) in bodies && LoopFrom(piece, j + 1, x, inner);
      FromShift(piece, all, at, j + 1, x, inner);
    }
  }

  lemma OpenedConcat(g: Grammar, bodies: Bodies, a: seq<Op>, b: seq<Op>, j: nat)
    requires LoopsClosed(g, bodies, a) && LoopsClosed(g, bodies, b) && j < |a + b| && LoopTag(g, (a + b)[j])
    ensures LoopOpened(g, bodies, a + b, j, (a + b)[j].e, (a + b)[j].tag)
  {
    if j < |a| {
      OpenedShift(g, bodies, a, a + b, 0, j, a[j].e, a[j].tag);
    } else {
      OpenedShift(g, bodies, b, a + b, |a|, j - |a|, b[j - |a|].e, b[j - |a|].tag);
    }
  }

  lemma EndsConcat(g: Grammar, bodies: Bodies, a: seq<Op>, b: seq<Op>, k: nat)
    requires LoopsClosed(g, bodies, a) && LoopsClosed(g, bodies, b) && k < |a + b| && (a + b)[k].LoopBack?
    ensures EndBefore(g, a + b, k)
  {
    if k < |a| { assert EndBefore(g, a, k); } else { assert EndBefore(g, b, k - |a|); }
  }

  lemma ClosedConcat(g: Grammar, bodies: Bodies, a: seq<Op>, b: seq<Op>)
    requires LoopsClosed(g, bodies, a) && LoopsClosed(g, bodies, b)
    ensures LoopsClosed(g, bodies, a + b)
  {
    var all := a + b;
    forall j: nat | j < |all| && LoopTag(g, all[j]) ensures LoopOpened(g, bodies, all, j, all[j].e, all[j].tag) {
      OpenedConcat(g, bodies, a, b, j);
    }
    forall k: nat | k < |all| && all[k].LoopBack? ensures EndBefore(g, all, k) {
      EndsConcat(g, bodies, a, b, k);
    }
  }

  /** No tag of a loop, and no jump back. */
  predicate Straight(g: Grammar, ops: seq<Op>) {
    forall j | 0 <= j < |ops| :: !LoopTag(g, ops[j]) && !ops[j].LoopBack?
  }

  lemma StraightClosed(g: Grammar, bodies: Bodies, ops: seq<Op>)
    requires Straight(g, ops)
    ensures LoopsClosed(g, bodies, ops)
  {
  }

  // ----- Every element closes its loops -----

  lemma LoopOpening(g: Grammar, e: nat, tag: Tag, n: nat)
    requires e < |g| && IsTag(g, tag) && Loops(g[e].compound) && !JumpsOut(g, e, tag)
    ensures Opening(g, e, tag) == [Match(e, tag), TagEntry(e, tag)]
    ensures Closing(g, e, tag, n) == [End(e), LoopBack(n + 1)] + ActionOps(g, e)
  {
  }

  /** An inline loop, entry by entry. */
  lemma LoopShape(g: Grammar, r: Ranking, e: nat, tag: Tag) returns (inner: seq<Op>)
    requires Renderable(g, r) && Live(g, r, e, tag) && Loops(g[e].compound) && !JumpsOut(g, e, tag)
    ensures Repeats(g, r, e, inner) && r.rank(g[e].children[0], None) < r.rank(e, tag)
    ensures Ops(g, r, e, tag) == [Match(e, tag), TagEntry(e, tag)] + inner + ([End(e), LoopBack(|inner| + 1)] + ActionOps(g, e))
  {
    assert CallRanked(g, r, e, tag);
    var c := Call(g[e].children[0], None);
    InsideOne(g, r, e, tag, c);
    inner := Ops(g, r, c.e, c.tag);
    LoopOpening(g, e, tag, |inner|);
    OpsParts(g, r, e, tag, inner);
    Assoc(Opening(g, e, tag), inner, Closing(g, e, tag, |inner|));
  }

  lemma LoopClosed(g: Grammar, bodies: Bodies, e: nat, tag: Tag, inner: seq<Op>, action: seq<Op>)
    requires (e, inner) in bodies && LoopsClosed(g, bodies, inner) && e < |g| && IsTag(g, tag) && Straight(g, action)
    requires Loops(g[e].compound) && !JumpsOut(g, e, tag)
    ensures LoopsClosed(g, bodies, [Match(e, tag), TagEntry(e, tag)] + inner + ([End(e), LoopBack(|inner| + 1)] + action))
  {
    var head, tail := [Match(e, tag), TagEntry(e, tag)], [End(e), LoopBack(|inner| + 1)] + action;
    var all := head + inner + tail;
    forall j: nat | j < |all| && LoopTag(g, all[j]) ensures LoopOpened(g, bodies, all, j, all[j].e, all[j].tag) {
      if j < 2 {
        assert all[2..2 + |inner|] == inner;
        assert LoopFrom(all, 2, e, inner);
      } else if j < 2 + |inner| {
        OpenedShift(g, bodies, inner, all, 2, j - 2, inner[j - 2].e, inner[j - 2].tag);
      }
    }
    forall k: nat | k < |all| && all[k].LoopBack? ensures EndBefore(g, all, k) {
      if 2 <= k < 2 + |inner| {
        assert EndBefore(g, inner, k - 2);
      } else if k >= 2 {
        assert all[k] == tail[k - 2 - |inner|];
      }
    }
  }

  lemma {:induction false} OpsClosed(g: Grammar, r: Ranking, e: nat, tag: Tag)
    requires Renderable(g, r) && Live(g, r, e, tag)
    ensures LoopsClosed(g, InlineBodies(g, r), Ops(g, r, e, tag))
    decreases r.rank(e, tag), |CallsOf(g, e, tag)| + 1
  {
    assert CallRanked(g, r, e, tag);
    if Loops(g[e].compound) && !JumpsOut(g, e, tag) {
      var inner := LoopShape(g, r, e, tag);
      OpsClosed(g, r, g[e].children[0], None);
      LoopClosed(g, InlineBodies(g, r), e, tag, inner, ActionOps(g, e));
    } else if JumpsOut(g, e, tag) {
      JumpClosed(g, r, e, tag);
    } else {
      var inner := Inside(g, r, e, tag);
      CallsClosed(g, r, r.rank(e, tag), CallsOf(g, e, tag));
      OthersStraight(g, e, tag, |inner|);
      StraightClosed(g, InlineBodies(g, r), Opening(g, e, tag));
      StraightClosed(g, InlineBodies(g, r), Closing(g, e, tag, |inner|));
      ClosedConcat(g, InlineBodies(g, r), inner, Closing(g, e, tag, |inner|));
      ClosedConcat(g, InlineBodies(g, r), Opening(g, e, tag), Rest(g, r, e, tag));
    }
  }

  lemma JumpClosed(g: Grammar, r: Ranking, e: nat, tag: Tag)
    requires Renderable(g, r) && Live(g, r, e, tag) && JumpsOut(g, e, tag)
    ensures LoopsClosed(g, InlineBodies(g, r), Ops(g, r, e, tag))
  {
    var ops := [Match(e, tag), TagEntry(e, tag), JumpTo(e)];
    JumpShape(g, r, e, tag);
    if Loops(g[e].compound) { assert LoopOpened(g, InlineBodies(g, r), ops, 1, e, tag); }
  }

  /** A jump out of line, entry by entry. */
  lemma JumpShape(g: Grammar, r: Ranking, e: nat, tag: Tag)
    requires Renderable(g, r) && Live(g, r, e, tag) && JumpsOut(g, e, tag)
    ensures Ops(g, r, e, tag) == [Match(e, tag), TagEntry(e, tag), JumpTo(e)]
  {
    assert CallRanked(g, r, e, tag);
    assert CallsOf(g, e, tag) == [];
    assert Closing(g, e, tag, 0) == [];
    OpsParts(g, r, e, tag, []);
  }

  /** A sequence or a loop that is used more than once or may be skipped is left to its body. */
  lemma OutOfLineShape(g: Grammar, r: Ranking, e: nat, tag: Tag)
    requires Renderable(g, r) && Live(g, r, e, tag)
    requires g[e].compound.Sequence? || g[e].compound.SequenceOf? || g[e].compound.SetOf?
    requires g[e].shared || g[e].skippable || (tag.Some? && g[tag.value].skippable)
    ensures Ops(g, r, e, tag) == [Match(e, tag), TagEntry(e, tag), JumpTo(e)]
  {
    JumpShape(g, r, e, tag);
  }

  /** Otherwise a loop stands where it is. */
  lemma InlineLoopShape(g: Grammar, r: Ranking, e: nat, tag: Tag)
    requires Renderable(g, r) && Live(g, r, e, tag) && (g[e].compound.SequenceOf? || g[e].compound.SetOf?)
    requires !g[e].shared && !g[e].skippable && !(tag.Some? && g[tag.value].skippable)
    ensures g[e].children != [] && Live(g, r, g[e].children[0], None)
    ensures var inner := Ops(g, r, g[e].children[0], None);
            Ops(g, r, e, tag) == [Match(e, tag), TagEntry(e, tag)] + inner
              + ([End(e), LoopBack(|inner| + 1)] + if g[e].action then [ActionRef(e)] else [])
  {
    var inner := LoopShape(g, r, e, tag);
  }

  lemma OthersStraight(g: Grammar, e: nat, tag: Tag, n: nat)
    requires e < |g| && IsTag(g, tag) && !Loops(g[e].compound) && !JumpsOut(g, e, tag)
    ensures Straight(g, Opening(g, e, tag)) && Straight(g, Closing(g, e, tag, n))
  {
    match g[e].compound
    case NotCompound =>
    case Sequence =>
    case Choice =>
    case Any =>
    case TypeRef =>
    case TagOverride =>
  }

  lemma {:induction false} CallsClosed(g: Grammar, r: Ranking, bound: nat, cs: seq<Call>)
    requires Renderable(g, r) && Ranked(g, r, bound, cs)
    ensures LoopsClosed(g, InlineBodies(g, r), CallOps(g, r, bound, cs))
    decreases bound, |cs|
  {
    if cs != [] {
      OpsClosed(g, r, cs[0].e, cs[0].tag);
      CallsClosed(g, r, bound, cs[1..]);
      ClosedConcat(g, InlineBodies(g, r), Ops(g, r, cs[0].e, cs[0].tag), CallOps(g, r, bound, cs[1..]));
    }
  }

  // ----- Bodies, and the whole machine -----

  /** What the loop in the body of `x` repeats: the entries of all its children. */
  ghost function BodyInner(g: Grammar, r: Ranking, x: nat): seq<Op>
    requires Renderable(g, r) && LiveBody(g, r, x)
  {
    CallOps(g, r, r.limit, ListCalls(g[x].children, false))
  }

  lemma BodyLoop(g: Grammar, r: Ranking, x: nat)
    requires Renderable(g, r) && LiveBody(g, r, x) && Loops(g[x].compound)
    ensures LoopFrom(Body(g, r, x), 0, x, BodyInner(g, r, x))
  {
    LoopHead(g, x, BodyInner(g, r, x));
  }

  /** The body of an out-of-line element: all children, an end, the jump of a loop, the action, and a
      return. */
  lemma BodyShape(g: Grammar, r: Ranking, x: nat)
    requires Renderable(g, r) && LiveBody(g, r, x) && (g[x].compound.Sequence? || Loops(g[x].compound))
    ensures Body(g, r, x) == BodyInner(g, r, x)
              + ([End(x)] + (if Loops(g[x].compound) then [LoopBack(|BodyInner(g, r, x)| + 1)] else [])
                 + (if g[x].action then [ActionRef(x)] else []) + [Return])
  {
    EndShape(g, x, |BodyInner(g, r, x)|);
  }

  lemma EndShape(g: Grammar, x: nat, n: nat)
    requires x < |g| && (g[x].compound.Sequence? || Loops(g[x].compound))
    ensures BodyEnd(g, x, n) == [End(x)] + (if Loops(g[x].compound) then [LoopBack(n + 1)] else [])
                                + (if g[x].action then [ActionRef(x)] else []) + [Return]
  {
  }

  lemma LoopHead(g: Grammar, x: nat, inner: seq<Op>)
    requires x < |g| && Loops(g[x].compound)
    ensures LoopFrom(inner + BodyEnd(g, x, |inner|), 0, x, inner)
  {
    var tail := BodyEnd(g, x, |inner|);
    assert tail == [End(x), LoopBack(|inner| + 1)] + (ActionOps(g, x) + [Return]);
    assert (inner + tail)[0..|inner|] == inner;
  }

  lemma EndsClosed(g: Grammar, bodies: Bodies, x: nat, n: nat)
    requires x < |g|
    ensures LoopsClosed(g, bodies, BodyEnd(g, x, n))
  {
    var ops := BodyEnd(g, x, n);
    forall k: nat | k < |ops| && ops[k].LoopBack? ensures EndBefore(g, ops, k) {
      assert k == 1 && ops[0] == End(x);
    }
  }

  lemma PieceClosed(g: Grammar, r: Ranking, x: nat)
    requires Renderable(g, r)
    ensures LoopsClosed(g, InlineBodies(g, r), BodyIfLive(g, r, x))
  {
    if LiveBody(g, r, x) {
      var inner := BodyInner(g, r, x);
      CallsClosed(g, r, r.limit, ListCalls(g[x].children, false));
      EndsClosed(g, InlineBodies(g, r), x, |inner|);
      ClosedConcat(g, InlineBodies(g, r), inner, BodyEnd(g, x, |inner|));
    }
  }

  lemma RootClosed(g: Grammar, r: Ranking)
    requires Renderable(g, r)
    ensures LoopsClosed(g, InlineBodies(g, r), RootOps(g, r))
  {
    OpsClosed(g, r, 0, None);
    StraightClosed(g, InlineBodies(g, r), [Complete]);
    ClosedConcat(g, InlineBodies(g, r), Ops(g, r, 0, None), [Complete]);
  }

  lemma {:induction false} CodeClosed(g: Grammar, bodies: Bodies, p: Pieces, order: seq<nat>, j: nat)
    requires Closed(p) && Below(order, |p.bodies|) && j <= |order|
    requires LoopsClosed(g, bodies, p.root) && forall x: nat | x < |p.bodies| :: LoopsClosed(g, bodies, p.bodies[x])
    ensures LoopsClosed(g, bodies, Code(p, order, j))
    decreases j
  {
    if j > 0 {
      CodeClosed(g, bodies, p, order, j - 1);
      ClosedConcat(g, bodies, Code(p, order, j - 1), p.bodies[order[j - 1]]);
    }
  }

  lemma MachineClosed(g: Grammar, r: Ranking, p: Pieces, code: seq<Op>)
    requires Renderable(g, r) && p == PiecesOf(g, r) && Closed(p) && code == Code(p, Order(p), |Order(p)|)
    ensures LoopsClosed(g, InlineBodies(g, r), code)
  {
    RootClosed(g, r);
    forall x: nat | x < |g| ensures LoopsClosed(g, InlineBodies(g, r), p.bodies[x]) { PieceClosed(g, r, x); }
    CodeClosed(g, InlineBodies(g, r), p, Order(p), |Order(p)|);
  }

  /** From `start` on the loop over `x` repeats these entries; behind them stand its end and the
      target of its jump, which is `start`. */
  predicate LoopLands(code: seq<Op>, out: seq<Entry>, start: nat, x: nat, inner: seq<Op>) {
    && |out| == |code| && start + |inner| + 1 < |code| && code[start..start + |inner|] == inner
    && out[start + |inner|] == Plain(End(x)) && out[start + |inner| + 1] == Target(start)
  }

  lemma LoopEmitted(code: seq<Op>, entryIndex: seq<nat>, start: nat, x: nat, inner: seq<Op>)
    requires LoopFrom(code, start, x, inner)
    ensures LoopLands(code, Emit(code, 0, entryIndex), start, x, inner)
  {
  }

  /** In the rendered machine every loop whose tag is not followed by a jump out of line runs from the
      entry behind its tag: that is what the jump behind its end leads to, and between them stand
      exactly the entries of its child. */
  lemma RenderedLoopsLand(g: Grammar, r: Ranking, out: seq<Entry>, entryIndex: seq<nat>, code: seq<Op>, j: nat)
    returns (inner: seq<Op>)
    requires Renderable(g, r) && Closed(PiecesOf(g, r)) && Rendered(PiecesOf(g, r), out, entryIndex)
    requires code == Code(PiecesOf(g, r), Order(PiecesOf(g, r)), |Order(PiecesOf(g, r))|)
    requires j < |code| && LoopTag(g, code[j])
    ensures IsTag(g, code[j].tag)
    ensures JumpsOut(g, code[j].e, code[j].tag) ==> j + 1 < |code| && code[j + 1] == JumpTo(code[j].e)
    ensures !JumpsOut(g, code[j].e, code[j].tag) ==>
              Repeats(g, r, code[j].e, inner) && LoopLands(code, out, j + 1, code[j].e, inner)
  {
    var x, tag := code[j].e, code[j].tag;
    MachineClosed(g, r, PiecesOf(g, r), code);
    assert LoopOpened(g, InlineBodies(g, r), code, j, x, tag);
    inner := [];
    if !JumpsOut(g, x, tag) {
      inner :| (x, inner) in InlineBodies(g, r) && LoopFrom(code, j + 1, x, inner);
      LoopEmitted(code, entryIndex, j + 1, x, inner);
    }
  }

  /** The loop in the body of an out-of-line element runs from the start of the body, over the
      entries of all its children. */
  lemma RenderedBodyLoopsLand(g: Grammar, r: Ranking, out: seq<Entry>, entryIndex: seq<nat>, code: seq<Op>, i: nat)
    requires Renderable(g, r) && Closed(PiecesOf(g, r)) && Rendered(PiecesOf(g, r), out, entryIndex)
    requires code == Code(PiecesOf(g, r), Order(PiecesOf(g, r)), |Order(PiecesOf(g, r))|)
    requires i < |Order(PiecesOf(g, r))| && Loops(g[Order(PiecesOf(g, r))[i]].compound)
    ensures var x := Order(PiecesOf(g, r))[i];
            && LiveBody(g, r, x) && x < |entryIndex| && LoopLands(code, out, entryIndex[x], x, BodyInner(g, r, x))
  {
    var p := PiecesOf(g, r);
    var x := OrderedLive(g, r, p, i);
    BodyLoop(g, r, x);
    StartNoted(p, Order(p), i, entryIndex);
    BodyAt(p, Order(p), i);
    BodyLands(code, Start(p, Order(p), i), p.bodies[x], x, entryIndex, BodyInner(g, r, x));
  }

  lemma StartNoted(p: Pieces, order: seq<nat>, i: nat, entryIndex: seq<nat>)
    requires Indexed(p, order, |order|, entryIndex) && i < |order|
    ensures order[i] < |entryIndex| && entryIndex[order[i]] == Start(p, order, i)
  {
    NotedAt(order, i, Starts(p, order), entryIndex);
  }

  lemma OrderedLive(g: Grammar, r: Ranking, p: Pieces, i: nat) returns (x: nat)
    requires Renderable(g, r) && p == PiecesOf(g, r) && Closed(p) && i < |Order(p)|
    ensures x == Order(p)[i] && x < |g| && LiveBody(g, r, x) && p.bodies[x] == Body(g, r, x)
  {
    x := Order(p)[i];
    PiecesLive(g, r);
    DiscoveredIn(p, LiveBodies(g, r), |g|);
    assert x in LiveBodies(g, r);
  }

  lemma BodyLands(code: seq<Op>, start: nat, body: seq<Op>, x: nat, entryIndex: seq<nat>, inner: seq<Op>)
    requires StandsAt(code, start, body) && LoopFrom(body, 0, x, inner)
    ensures LoopLands(code, Emit(code, 0, entryIndex), start, x, inner)
  {
    StandsSits(code, start, body);
    FromShift(body, code, start, 0, x, inner);
    LoopEmitted(code, entryIndex, start, x, inner);
  }

  lemma StandsSits(code: seq<Op>, at: nat, body: seq<Op>)
    requires StandsAt(code, at, body)
    ensures Sits(body, code, at)
  {
    forall i | 0 <= i < |body| ensures code[at + i] == body[i] {
      assert code[at..at + |body|][i] == code[at + i];
    }
  }

  /** Nothing else jumps back: such a jump stands only behind the end of a loop. */
  lemma OnlyLoopsJumpBack(g: Grammar, r: Ranking, code: seq<Op>, k: nat)
    requires Renderable(g, r) && Closed(PiecesOf(g, r))
    requires code == Code(PiecesOf(g, r), Order(PiecesOf(g, r)), |Order(PiecesOf(g, r))|)
    requires k < |code| && code[k].LoopBack?
    ensures EndBefore(g, code, k)
  {
    MachineClosed(g, r, PiecesOf(g, r), code);
  }
}
