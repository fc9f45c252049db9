/** The renderer of `scripts/asn1_compiler.c`: two passes over the elements with a linked list
    of out-of-line elements threaded through them. The links are never cleared between the
    passes, so the second pass appends to a list whose stale tails are still in place. */
module Asn1Render {
  import opened Asn1Layout
  import opened Asn1List
  import opened Asn1Ranking
  import opened Asn1State
  import opened Wrappers

  class Renderer {
    const g: Grammar
    const list: ElementList
    const entryIndex: array<nat>
    var nrEntries: nat
    var out: seq<Entry>

    ghost predicate Valid(s: Schedule, second: bool)
      reads list, list.rendered, list.renderNext
    {
      list.Valid(s, second) && list.n == |g| == entryIndex.Length
    }

    ghost function Here(): Now
      reads this, list
    {
      Now(list.m, nrEntries, out)
    }

    constructor (g: Grammar)
      ensures this.g == g && entryIndex.Length == |g| && list.n == |g| && nrEntries == 0 && out == []
      ensures fresh(list) && fresh(list.rendered) && fresh(list.renderNext) && fresh(entryIndex)
      ensures FreshList()
    {
      this.g := g;
      list := new ElementList(|g|);
      entryIndex := new nat[|g|];
      nrEntries, out := 0, [];
    }

    /** `render_opcode`. */
    method RenderOpcode(op: Op, emit: bool, ghost s: Schedule)
      requires !op.JumpTo? && !op.LoopBack? && list.m <= |s.order|
      modifies this
      ensures Here() == After(old(Here()), s, [op], emit, entryIndex[..])
    {
      if emit { out := out + [Plain(op)]; }
      nrEntries := nrEntries + 1;
      FoundNone(s.order[..list.m], [op]);
      assert emit ==> Emit([op], old(nrEntries), entryIndex[..]) == [Plain(op)];
    }

    /** The `_jump_target` that closes a loop begun at `entry`. */
    method RenderLoopBack(entry: nat, emit: bool, ghost s: Schedule)
      requires entry <= nrEntries && list.m <= |s.order|
      modifies this
      ensures Here() == After(old(Here()), s, [LoopBack(old(nrEntries) - entry)], emit, entryIndex[..])
    {
      ghost var op := LoopBack(nrEntries - entry);
      if emit { out := out + [Target(entry)]; }
      nrEntries := nrEntries + 1;
      FoundNone(s.order[..list.m], [op]);
      assert emit ==> Emit([op], old(nrEntries), entryIndex[..]) == [Target(entry)];
    }

    method RenderTarget(e: nat, emit: bool)
      requires e < |g| == entryIndex.Length
      modifies this
      ensures nrEntries == old(nrEntries) + 1
      ensures out == if emit then old(out) + Emit([JumpTo(e)], old(nrEntries), entryIndex[..]) else old(out)
    {
      if emit { out := out + [Target(entryIndex[e])]; }
      assert emit ==> Emit([JumpTo(e)], nrEntries, entryIndex[..]) == [Target(entryIndex[e])];
      nrEntries := nrEntries + 1;
    }

    /** The `_jump_target` of an out-of-line element, which is put on the list the first time. */
    method RenderJump(e: nat, emit: bool, ghost s: Schedule, ghost second: bool)
      requires Valid(s, second) && e < |g| && OnTrack(s, list.m, list.popped, [JumpTo(e)])
      modifies this, list, list.rendered, list.renderNext
      ensures Valid(s, second) && list.popped == old(list.popped)
      ensures Here() == After(old(Here()), s, [JumpTo(e)], emit, entryIndex[..])
    {
      JumpNext(s, |g|, list.m, list.popped, list.rendered[..], e);
      RenderTarget(e, emit);
      if !list.rendered[e] {
        list.Enqueue(e, s, second);
      }
    }

    /** The opcode and the tag of an element. */
    method RenderTag(e: nat, tag: Tag, emit: bool, ghost s: Schedule)
      requires list.m <= |s.order|
      modifies this
      ensures Here() == After(old(Here()), s, [Match(e, tag), TagEntry(e, tag)], emit, entryIndex[..])
    {
      AfterPair(Here(), s, Match(e, tag), TagEntry(e, tag), emit, entryIndex[..]);
      RenderOpcode(Match(e, tag), emit, s);
      RenderOpcode(TagEntry(e, tag), emit, s);
    }

    /** The first switch of `render_element` and the tag, when no jump follows. */
    method RenderPlainOpening(e: nat, tag: Tag, emit: bool, ghost s: Schedule)
      requires list.m <= |s.order| && e < |g| && IsTag(g, tag) && !JumpsOut(g, e, tag)
      modifies this
      ensures Here() == After(old(Here()), s, Opening(g, e, tag), emit, entryIndex[..])
    {
      var el := g[e];
      ghost var ops := Opening(g, e, tag);
      if el.compound.TagOverride? || el.compound.Choice? || (el.compound.TypeRef? && el.untagged) {
        AfterNothing(Here(), s, emit, entryIndex[..]);
      } else if el.compound.Any? {
        RenderOpcode(Match(e, tag), emit, s);
      } else {
        assert ops == [Match(e, tag), TagEntry(e, tag)];
        RenderTag(e, tag, emit, s);
      }
    }

    /** The first switch of `render_element` and the tag: opcode, tag, and for an out-of-line
        element its jump. */
    method RenderOpening(e: nat, tag: Tag, emit: bool, ghost s: Schedule, ghost second: bool)
      requires Valid(s, second) && e < |g| && IsTag(g, tag) && OnTrack(s, list.m, list.popped, Opening(g, e, tag))
      modifies this, list, list.rendered, list.renderNext
      ensures Valid(s, second) && list.popped == old(list.popped)
      ensures Here() == After(old(Here()), s, Opening(g, e, tag), emit, entryIndex[..])
    {
      if JumpsOut(g, e, tag) {
        AfterAppend(Here(), s, [Match(e, tag), TagEntry(e, tag)], [JumpTo(e)], emit, entryIndex[..], list.popped);
        RenderTag(e, tag, emit, s);
        RenderJump(e, emit, s, second);
      } else {
        RenderPlainOpening(e, tag, emit, s);
      }
    }

    /** The opcode that ends a sequence or a loop, and the jump back to `entry`. */
    method RenderEndOnly(e: nat, entry: nat, emit: bool, ghost s: Schedule)
      requires list.m <= |s.order| && e < |g| && entry <= nrEntries
      modifies this
      ensures Here() == After(old(Here()), s, EndOnly(g, e, old(nrEntries) - entry), emit, entryIndex[..])
    {
      if g[e].compound.Sequence? {
        RenderOpcode(End(e), emit, s);
      } else if Loops(g[e].compound) {
        AfterPair(Here(), s, End(e), LoopBack(nrEntries - entry + 1), emit, entryIndex[..]);
        RenderOpcode(End(e), emit, s);
        RenderLoopBack(entry, emit, s);
      } else {
        AfterNothing(Here(), s, emit, entryIndex[..]);
      }
    }

    /** The `_action` entry of an element that has an action. */
    method RenderAction(e: nat, emit: bool, ghost s: Schedule)
      requires list.m <= |s.order| && e < |g|
      modifies this
      ensures Here() == After(old(Here()), s, ActionOps(g, e), emit, entryIndex[..])
    {
      if g[e].action {
        RenderOpcode(ActionRef(e), emit, s);
      } else {
        AfterNothing(Here(), s, emit, entryIndex[..]);
      }
    }

    /** Both. */
    method RenderEnd(e: nat, entry: nat, emit: bool, ghost s: Schedule)
      requires list.m <= |s.order| && e < |g| && entry <= nrEntries
      modifies this
      ensures Here() == After(old(Here()), s, EndOps(g, e, old(nrEntries) - entry), emit, entryIndex[..])
    {
      EndHasNoJumps(g, e, nrEntries - entry);
      AfterNoJumps(Here(), s, EndOnly(g, e, nrEntries - entry), ActionOps(g, e), emit, entryIndex[..]);
      RenderEndOnly(e, entry, emit, s);
      RenderAction(e, emit, s);
    }

    /** What a TYPE_REF ends with, and a CHOICE after its ASN1_OP_COND_FAIL. */
    method RenderActs(e: nat, emit: bool, ghost s: Schedule)
      requires list.m <= |s.order| && e < |g|
      modifies this
      ensures Here() == After(old(Here()), s, ActOps(g, e), emit, entryIndex[..])
    {
      if g[e].action {
        AfterPair(Here(), s, Act(e), ActionRef(e), emit, entryIndex[..]);
        RenderOpcode(Act(e), emit, s);
        RenderOpcode(ActionRef(e), emit, s);
      } else {
        AfterNothing(Here(), s, emit, entryIndex[..]);
      }
    }

    /** What a CHOICE ends with. */
    method RenderChoiceEnd(e: nat, tag: Tag, emit: bool, ghost s: Schedule)
      requires list.m <= |s.order| && e < |g| && IsTag(g, tag)
      modifies this
      ensures Here() == After(old(Here()), s, FailOps(g, e, tag) + ActOps(g, e), emit, entryIndex[..])
    {
      AfterNoJumps(Here(), s, FailOps(g, e, tag), ActOps(g, e), emit, entryIndex[..]);
      if !Skippable(g, e, tag) {
        RenderOpcode(CondFail, emit, s);
      } else {
        AfterNothing(Here(), s, emit, entryIndex[..]);
      }
      RenderActs(e, emit, s);
    }

    /** What `render_element` adds after the entries of the elements inside; `entry` is where
        those started. */
    method RenderClosing(e: nat, tag: Tag, entry: nat, emit: bool, ghost s: Schedule)
      requires list.m <= |s.order| && e < |g| && IsTag(g, tag) && entry <= nrEntries
      modifies this
      ensures Here() == After(old(Here()), s, Closing(g, e, tag, old(nrEntries) - entry), emit, entryIndex[..])
    {
      if g[e].compound.TagOverride? || JumpsOut(g, e, tag) {
        AfterNothing(Here(), s, emit, entryIndex[..]);
      } else if g[e].compound.Choice? {
        RenderChoiceEnd(e, tag, emit, s);
      } else if g[e].compound.TypeRef? {
        RenderActs(e, emit, s);
      } else {
        RenderEnd(e, entry, emit, s);
      }
    }

    /** `render_element`. */
    method RenderElement(e: nat, tag: Tag, emit: bool, ghost r: Ranking, ghost s: Schedule, ghost second: bool)
      requires Renderable(g, r) && Live(g, r, e, tag)
      requires Valid(s, second) && OnTrack(s, list.m, list.popped, Ops(g, r, e, tag))
      modifies this, list, list.rendered, list.renderNext
      ensures Valid(s, second) && list.popped == old(list.popped)
      ensures Here() == After(old(Here()), s, Ops(g, r, e, tag), emit, entryIndex[..])
      decreases r.rank(e, tag), 2
    {
      AfterAppend(Here(), s, Opening(g, e, tag), Rest(g, r, e, tag), emit, entryIndex[..], list.popped);
      RenderOpening(e, tag, emit, s, second);
      RenderRest(e, tag, emit, r, s, second);
    }

    /** What follows the opening. */
    method RenderRest(e: nat, tag: Tag, emit: bool, ghost r: Ranking, ghost s: Schedule, ghost second: bool)
      requires Renderable(g, r) && Live(g, r, e, tag)
      requires Valid(s, second) && OnTrack(s, list.m, list.popped, Rest(g, r, e, tag))
      modifies this, list, list.rendered, list.renderNext
      ensures Valid(s, second) && list.popped == old(list.popped)
      ensures Here() == After(old(Here()), s, Rest(g, r, e, tag), emit, entryIndex[..])
      decreases r.rank(e, tag), 1
    {
      ghost var inner := Inside(g, r, e, tag);
      AfterAppend(Here(), s, inner, Closing(g, e, tag, |inner|), emit, entryIndex[..], list.popped);
      var entry := nrEntries;
      RenderInside(e, tag, emit, r, s, second);
      assert nrEntries - entry == |inner|;
      RenderClosing(e, tag, entry, emit, s);
    }

    /** The elements inside: the second switch of `render_element`. */
    method RenderInside(e: nat, tag: Tag, emit: bool, ghost r: Ranking, ghost s: Schedule, ghost second: bool)
      requires Renderable(g, r) && Live(g, r, e, tag) && Valid(s, second)
      requires OnTrack(s, list.m, list.popped, Inside(g, r, e, tag))
      modifies this, list, list.rendered, list.renderNext
      ensures Valid(s, second) && list.popped == old(list.popped)
      ensures Here() == After(old(Here()), s, Inside(g, r, e, tag), emit, entryIndex[..])
      decreases r.rank(e, tag), 0
    {
      var el := g[e];
      ghost var bound, cs := r.rank(e, tag), CallsOf(g, e, tag);
      assert CallRanked(g, r, e, tag);
      if el.compound.TagOverride? {
        SingleCall(g, r, bound, cs, Call(el.children[0], Some(e)));
        RenderElement(el.children[0], Some(e), emit, r, s, second);
      } else if el.compound.TypeRef? {
        var tag' := if el.untagged then tag else None;
        SingleCall(g, r, bound, cs, Call(el.target, tag'));
        RenderElement(el.target, tag', emit, r, s, second);
      } else if el.compound.Choice? {
        RenderChildren(el.children, true, emit, r, bound, s, second);
      } else if el.compound.Sequence? && !OutOfLine(g, e, tag) {
        RenderChildren(el.children, false, emit, r, bound, s, second);
      } else if Loops(el.compound) && !OutOfLine(g, e, tag) {
        SingleCall(g, r, bound, cs, Call(el.children[0], None));
        RenderElement(el.children[0], None, emit, r, s, second);
      } else {
        AfterNothing(Here(), s, emit, entryIndex[..]);
      }
    }

    /** The loops over `e->children`. */
    method RenderChildren(es: seq<nat>, self: bool, emit: bool, ghost r: Ranking, ghost bound: nat, ghost s: Schedule, ghost second: bool)
      requires Renderable(g, r) && Ranked(g, r, bound, ListCalls(es, self)) && Valid(s, second)
      requires OnTrack(s, list.m, list.popped, CallOps(g, r, bound, ListCalls(es, self)))
      modifies this, list, list.rendered, list.renderNext
      ensures Valid(s, second) && list.popped == old(list.popped)
      ensures Here() == After(old(Here()), s, CallOps(g, r, bound, ListCalls(es, self)), emit, entryIndex[..])
      decreases bound, 0, |es|
    {
      var i := 0;
      ghost var cs, idx := ListCalls(es, self), entryIndex[..];
      ghost var goal := After(Here(), s, CallOps(g, r, bound, cs), emit, idx);
      assert cs[0..] == cs;
      while i < |es|
        invariant i <= |es| && Valid(s, second) && list.popped == old(list.popped) && entryIndex[..] == idx
        invariant Remaining(g, r, s, bound, cs[i..], Here(), list.popped, goal, emit, idx)
      {
        assert cs[i..][0] == cs[i] && cs[i..][1..] == cs[i + 1..];
        RenderChild(es[i], if self then Some(es[i]) else None, emit, r, bound, s, second, cs[i..], goal, idx);
        i := i + 1;
      }
      RemainingNone(g, r, s, bound, cs[i..], Here(), list.popped, goal, emit, idx);
    }

    /** One child: the first of the calls that remain. */
    method RenderChild(e: nat, tag: Tag, emit: bool, ghost r: Ranking, ghost bound: nat, ghost s: Schedule, ghost second: bool,
                       ghost cs: seq<Call>, ghost goal: Now, ghost idx: seq<nat>)
      requires Valid(s, second) && cs != [] && cs[0] == Call(e, tag) && entryIndex[..] == idx
      requires Remaining(g, r, s, bound, cs, Here(), list.popped, goal, emit, idx)
      modifies this, list, list.rendered, list.renderNext
      ensures Valid(s, second) && list.popped == old(list.popped)
      ensures Remaining(g, r, s, bound, cs[1..], Here(), list.popped, goal, emit, idx)
      decreases bound, 0, 0
    {
      RemainingNext(g, r, s, bound, cs, Here(), list.popped, goal, emit, idx);
      RenderElement(e, tag, emit, r, s, second);
    }

    /** A return behind `ops`. */
    method RenderReturn(emit: bool, ghost s: Schedule, ghost start: Now, ghost ops: seq<Op>)
      requires start.m <= |s.order| && NoJumps(ops) && Here() == After(start, s, ops, emit, entryIndex[..])
      modifies this
      ensures Here() == After(start, s, ops + [Return], emit, entryIndex[..])
    {
      AfterPlain(start, s, ops, Return, emit, entryIndex[..]);
      RenderOpcode(Return, emit, s);
    }

    /** What follows the children of an out-of-line element. */
    method RenderBodyEnd(x: nat, entry: nat, emit: bool, ghost s: Schedule)
      requires list.m <= |s.order| && x < |g| && entry <= nrEntries
      modifies this
      ensures Here() == After(old(Here()), s, BodyEnd(g, x, old(nrEntries) - entry), emit, entryIndex[..])
    {
      ghost var start, ops := Here(), EndOps(g, x, nrEntries - entry);
      EndNoJumps(g, x, nrEntries - entry);
      RenderEnd(x, entry, emit, s);
      RenderReturn(emit, s, start, ops);
    }

    /** The body of one out-of-line element. */
    method RenderBody(x: nat, emit: bool, ghost r: Ranking, ghost s: Schedule, ghost second: bool)
      requires Renderable(g, r) && LiveBody(g, r, x) && Valid(s, second) && OnTrack(s, list.m, list.popped, Body(g, r, x))
      modifies this, list, list.rendered, list.renderNext
      ensures Valid(s, second) && list.popped == old(list.popped)
      ensures Here() == After(old(Here()), s, Body(g, r, x), emit, entryIndex[..])
    {
      ghost var inner := CallOps(g, r, r.limit, ListCalls(g[x].children, false));
      AfterAppend(Here(), s, inner, BodyEnd(g, x, |inner|), emit, entryIndex[..], list.popped);
      var entry := nrEntries;
      RenderChildren(g[x].children, false, emit, r, r.limit, s, second);
      RenderBodyEnd(x, entry, emit, s);
    }

    /** `p` is what `g` renders to, `s` the order in which its out-of-line elements come. */
    ghost predicate Described(r: Ranking, p: Pieces, s: Schedule) {
      Renderable(g, r) && p == PiecesOf(g, r) && Scheduled(p, s) && AllIn(s.order, LiveBodies(g, r))
    }

    /** A pass has rendered the root and the first `j` bodies. */
    ghost predicate InPass(p: Pieces, s: Schedule, j: nat, second: bool)
      reads this, list, list.rendered, list.renderNext, entryIndex
    {
      Valid(s, second) && Progress(p, s, j, second, list.popped, Here(), entryIndex[..])
    }

    /** The start of a pass: the root element and ASN1_OP_COMPLETE. Only the second emits. */
    method RenderRoot(ghost r: Ranking, ghost p: Pieces, ghost s: Schedule, second: bool)
      requires Described(r, p, s) && Valid(s, second)
      requires list.m == 0 && list.popped == 0 && out == []
      requires Indexed(p, s.order, if second then |s.order| else 0, entryIndex[..])
      modifies this, list, list.rendered, list.renderNext
      ensures InPass(p, s, 0, second)
    {
      nrEntries := 0;
      RootState(p, s, second, entryIndex[..]);
      AfterAppend(Here(), s, Ops(g, r, 0, None), [Complete], second, entryIndex[..], 0);
      RenderElement(0, None, second, r, s, second);
      RenderOpcode(Complete, second, s);
    }

    /** Takes the next element off the list and notes where its body starts. */
    method TakeNext(ghost r: Ranking, ghost p: Pieces, ghost s: Schedule, ghost j: nat, second: bool) returns (e: nat)
      requires Described(r, p, s) && j < |s.order| && InPass(p, s, j, second)
      modifies list, entryIndex
      ensures e == s.order[j] && Valid(s, second) && list.popped == j + 1
      ensures Taken(p, s, j, second, Here(), entryIndex[..])
    {
      ghost var before := entryIndex[..];
      e := list.Dequeue(s, second);
      entryIndex[e] := nrEntries;
      assert entryIndex[..] == before[e := nrEntries];
      TakenNext(p, s, j, second, Here(), before);
    }

    lemma NextLive(r: Ranking, p: Pieces, s: Schedule, e: nat)
      requires Described(r, p, s) && e in s.order
      ensures LiveBody(g, r, e) && e < |p.bodies| && p.bodies[e] == Body(g, r, e)
    {
      assert e in LiveBodies(g, r);
    }

    /** The body of the element taken off. */
    method RenderTaken(e: nat, ghost r: Ranking, ghost p: Pieces, ghost s: Schedule, ghost j: nat, second: bool)
      requires Described(r, p, s) && j < |s.order| && e == s.order[j] && Valid(s, second) && list.popped == j + 1
      requires list.m == s.size[j] && list.m <= |s.order|
      modifies this, list, list.rendered, list.renderNext
      ensures Valid(s, second) && list.popped == j + 1 && e < |p.bodies|
      ensures Here() == After(old(Here()), s, p.bodies[e], second, entryIndex[..])
    {
      NextFits(p, s, j, e, list.m, list.popped);
      NextLive(r, p, s, e);
      RenderBody(e, second, r, s, second);
    }

    method RenderNextBody(e: nat, ghost r: Ranking, ghost p: Pieces, ghost s: Schedule, ghost j: nat, second: bool)
      requires Described(r, p, s) && j < |s.order| && e == s.order[j] && Valid(s, second) && list.popped == j + 1
      requires Taken(p, s, j, second, Here(), entryIndex[..])
      modifies this, list, list.rendered, list.renderNext
      ensures InPass(p, s, j + 1, second)
    {
      ghost var start := Here();
      TakenAt(p, s, j, second, start, entryIndex[..]);
      RenderTaken(e, r, p, s, j, second);
      NextState(p, s, j, e, second, entryIndex[..], start, Here());
    }

    /** The body of the loop of `render_out_of_line_list`. */
    method RenderNext(ghost r: Ranking, ghost p: Pieces, ghost s: Schedule, ghost j: nat, second: bool)
      requires Described(r, p, s) && j < |s.order| && InPass(p, s, j, second)
      modifies this, list, list.rendered, list.renderNext, entryIndex
      ensures InPass(p, s, j + 1, second)
    {
      var e := TakeNext(r, p, s, j, second);
      RenderNextBody(e, r, p, s, j, second);
    }

    /** `render_out_of_line_list`. */
    method RenderOutOfLineList(ghost r: Ranking, ghost p: Pieces, ghost s: Schedule, second: bool)
      requires Described(r, p, s) && InPass(p, s, 0, second)
      modifies this, list, list.rendered, list.renderNext, entryIndex
      ensures InPass(p, s, |s.order|, second)
    {
      ghost var j := 0;
      StillPending(p, s, j, second);
      while list.renderList.Some?
        invariant j <= |s.order| && InPass(p, s, j, second) && (list.renderList.Some? <==> j < |s.order|)
        decreases |s.order| - j
      {
        RenderNext(r, p, s, j, second);
        j := j + 1;
        StillPending(p, s, j, second);
      }
    }

    /** The list is empty exactly when every body has been rendered. */
    lemma StillPending(p: Pieces, s: Schedule, j: nat, second: bool)
      requires InPass(p, s, j, second)
      ensures list.renderList.Some? <==> j < |s.order|
    {
      list.Pending(s, second);
    }

    /** One pass over the root and the bodies. */
    method RenderPass(ghost r: Ranking, ghost p: Pieces, ghost s: Schedule, second: bool)
      requires Described(r, p, s) && Valid(s, second)
      requires list.m == 0 && list.popped == 0 && out == []
      requires Indexed(p, s.order, if second then |s.order| else 0, entryIndex[..])
      modifies this, list, list.rendered, list.renderNext, entryIndex
      ensures InPass(p, s, |s.order|, second)
    {
      RenderRoot(r, p, s, second);
      RenderOutOfLineList(r, p, s, second);
    }

    lemma Describes(r: Ranking, p: Pieces, s: Schedule)
      requires Renderable(g, r) && p == PiecesOf(g, r)
      ensures Closed(p) && (s == ScheduleOf(p) ==> Described(r, p, s))
    {
      PiecesLive(g, r);
      ScheduleExists(p);
      DiscoveredIn(p, LiveBodies(g, r), |g|);
    }

    /** The state after the second pass is the finished machine. */
    lemma PassRendered(p: Pieces, s: Schedule)
      requires InPass(p, s, |s.order|, true) && s == ScheduleOf(p)
      ensures Rendered(p, out, entryIndex[..])
    {
    }

    /** `render`: the first pass computes the indices, the second emits the machine. The links
        of the list are those the first pass left. */
    method Render(ghost r: Ranking)
      requires Renderable(g, r) && FreshList() && out == []
      modifies this, list, list.rendered, list.renderNext, entryIndex
      ensures Closed(PiecesOf(g, r))
      ensures Rendered(PiecesOf(g, r), out, entryIndex[..])
      ensures list.renderList.None? && list.m == list.popped == |Order(PiecesOf(g, r))|
    {
      ghost var p := PiecesOf(g, r);
      Describes(r, p, Schedule([], []));
      ghost var s := ScheduleOf(p);
      Describes(r, p, s);
      list.m, list.popped := 0, 0;
      FreshThreaded(s, |g|, list.rendered[..], list.renderNext[..]);
      RenderPass(r, p, s, false);
      list.ClearRendered(s);
      RenderPass(r, p, s, true);
      list.Pending(s, true);
      PassRendered(p, s);
    }

    /** Before the first pass: nothing rendered, no links. */
    ghost predicate FreshList()
      reads this, list, list.rendered, list.renderNext
    {
      && list.n == |g| == entryIndex.Length == list.rendered.Length == list.renderNext.Length
      && list.renderList.None? && list.renderListP.None?
      && (forall x | 0 <= x < |g| :: !list.rendered[x]) && (forall x | 0 <= x < |g| :: list.renderNext[x].None?)
    }
  }

  /** The machine: the root, then every out-of-line element once, and the entry index of each
      is where its body starts. */
  ghost predicate Rendered(p: Pieces, out: seq<Entry>, entryIndex: seq<nat>)
    requires Closed(p)
  {
    && Indexed(p, Order(p), |Order(p)|, entryIndex)
    && out == Emit(Code(p, Order(p), |Order(p)|), 0, entryIndex)
  }

  /** In the rendered machine every jump target of an out-of-line element is the index at which
      its body starts, and the body stands there. */
  lemma RenderedJumpsLand(p: Pieces, out: seq<Entry>, entryIndex: seq<nat>, k: nat) returns (i: nat)
    requires Closed(p) && Rendered(p, out, entryIndex)
    requires k < |out| && Code(p, Order(p), |Order(p)|)[k].JumpTo?
    ensures i < |Order(p)| && Order(p)[i] == Code(p, Order(p), |Order(p)|)[k].x
    ensures out[k] == Target(Start(p, Order(p), i))
    ensures StandsAt(Code(p, Order(p), |Order(p)|), Start(p, Order(p), i), p.bodies[Order(p)[i]])
  {
    ScheduleExists(p);
    i := JumpsLand(p, ScheduleOf(p), entryIndex, k);
  }

  /** A whole grammar: it is rendered to its machine if every call reached from the root can be
      rendered, which is what rendering needs to end. */
  method RenderGrammar(g: Grammar) returns (out: seq<Entry>, entryIndex: seq<nat>)
    requires WellFormed(g) && g != [] && forall c | Reached(g, c) :: Sound(g, c)
    ensures Renderable(g, ByLongest(g)) && Closed(PiecesOf(g, ByLongest(g)))
    ensures Rendered(PiecesOf(g, ByLongest(g)), out, entryIndex)
  {
    SoundRenderable(g);
    var renderer := new Renderer(g);
    renderer.Render(ByLongest(g));
    out, entryIndex := renderer.out, renderer.entryIndex[..];
  }
}
