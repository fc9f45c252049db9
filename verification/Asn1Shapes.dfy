/** What each kind of element renders to in `scripts/asn1_compiler.c`, entry by entry. */
module Asn1Shapes {
  import opened Asn1Layout
  import opened Asn1State
  import opened Wrappers

  lemma OpsParts(g: Grammar, r: Ranking, e: nat, tag: Tag, inner: seq<Op>)
    requires Renderable(g, r) && Live(g, r, e, tag) && inner == Inside(g, r, e, tag)
    ensures Ops(g, r, e, tag) == Opening(g, e, tag) + (inner + Closing(g, e, tag, |inner|))
  {
  }

  lemma InsideOne(g: Grammar, r: Ranking, e: nat, tag: Tag, c: Call)
    requires Renderable(g, r) && Live(g, r, e, tag) && CallsOf(g, e, tag) == [c]
    ensures Live(g, r, c.e, c.tag) && r.rank(c.e, c.tag) < r.rank(e, tag) && Inside(g, r, e, tag) == Ops(g, r, c.e, c.tag)
  {
    assert CallRanked(g, r, e, tag);
    SingleCall(g, r, r.rank(e, tag), CallsOf(g, e, tag), c);
  }

  lemma Assoc(a: seq<Op>, b: seq<Op>, c: seq<Op>)
    ensures a + (b + c) == a + b + c
  {
  }

  /** The entries of all children, in order, each rendered as its own tag or without one. */
  ghost function ChildOps(g: Grammar, r: Ranking, e: nat, tag: Tag, self: bool): seq<Op>
    requires Renderable(g, r) && Live(g, r, e, tag) && CallsOf(g, e, tag) == ListCalls(g[e].children, self)
  {
    assert CallRanked(g, r, e, tag);
    CallOps(g, r, r.rank(e, tag), ListCalls(g[e].children, self))
  }

  lemma InsideAll(g: Grammar, r: Ranking, e: nat, tag: Tag, self: bool)
    requires Renderable(g, r) && Live(g, r, e, tag) && CallsOf(g, e, tag) == ListCalls(g[e].children, self)
    ensures Inside(g, r, e, tag) == ChildOps(g, r, e, tag, self)
  {
  }

  lemma InsideNothing(g: Grammar, r: Ranking, e: nat, tag: Tag)
    requires Renderable(g, r) && Live(g, r, e, tag) && CallsOf(g, e, tag) == []
    ensures Inside(g, r, e, tag) == []
  {
    assert CallRanked(g, r, e, tag);
  }

  /** A primitive: its opcode, its tag, its action. */
  lemma PrimitiveShape(g: Grammar, r: Ranking, e: nat, tag: Tag)
    requires Renderable(g, r) && Live(g, r, e, tag) && g[e].compound.NotCompound?
    ensures Ops(g, r, e, tag) == [Match(e, tag), TagEntry(e, tag)] + if g[e].action then [ActionRef(e)] else []
  {
    InsideNothing(g, r, e, tag);
    OpsParts(g, r, e, tag, []);
    assert Closing(g, e, tag, 0) == if g[e].action then [ActionRef(e)] else [];
  }

  /** ANY: the same without a tag. */
  lemma AnyShape(g: Grammar, r: Ranking, e: nat, tag: Tag)
    requires Renderable(g, r) && Live(g, r, e, tag) && g[e].compound.Any?
    ensures Ops(g, r, e, tag) == [Match(e, tag)] + if g[e].action then [ActionRef(e)] else []
  {
    InsideNothing(g, r, e, tag);
    OpsParts(g, r, e, tag, []);
    assert Closing(g, e, tag, 0) == if g[e].action then [ActionRef(e)] else [];
  }

  /** An element that only overrides a tag: its child with this tag, and nothing else. */
  lemma OverrideShape(g: Grammar, r: Ranking, e: nat, tag: Tag)
    requires Renderable(g, r) && Live(g, r, e, tag) && g[e].compound.TagOverride?
    ensures g[e].children != [] && Live(g, r, g[e].children[0], Some(e))
    ensures Ops(g, r, e, tag) == Ops(g, r, g[e].children[0], Some(e))
  {
    assert CallRanked(g, r, e, tag);
    InsideOne(g, r, e, tag, Call(g[e].children[0], Some(e)));
    OpsParts(g, r, e, tag, Inside(g, r, e, tag));
    Bare(Inside(g, r, e, tag));
  }

  lemma Bare(ops: seq<Op>)
    ensures [] + (ops + []) == ops
  {
  }

  /** A reference: opcode and tag, or neither with the tag passed on; the element of the type; and its
      own action, called by an opcode of its own. */
  lemma ReferenceShape(g: Grammar, r: Ranking, e: nat, tag: Tag)
    requires Renderable(g, r) && Live(g, r, e, tag) && g[e].compound.TypeRef?
    ensures var passed := if g[e].untagged then tag else None;
            && Live(g, r, g[e].target, passed)
            && Ops(g, r, e, tag) == (if g[e].untagged then [] else [Match(e, tag), TagEntry(e, tag)])
                 + Ops(g, r, g[e].target, passed) + if g[e].action then [Act(e), ActionRef(e)] else []
  {
    InsideOne(g, r, e, tag, Call(g[e].target, if g[e].untagged then tag else None));
    var inner := Inside(g, r, e, tag);
    OpsParts(g, r, e, tag, inner);
    Assoc(Opening(g, e, tag), inner, Closing(g, e, tag, |inner|));
  }

  /** A choice: each alternative as its own tag; failure behind them, unless all may be skipped; and
      its action. */
  lemma ChoiceShape(g: Grammar, r: Ranking, e: nat, tag: Tag)
    requires Renderable(g, r) && Live(g, r, e, tag) && g[e].compound.Choice?
    ensures Ops(g, r, e, tag) == ChildOps(g, r, e, tag, true)
              + (if g[e].skippable || (tag.Some? && g[tag.value].skippable) then [] else [CondFail])
              + if g[e].action then [Act(e), ActionRef(e)] else []
  {
    InsideAll(g, r, e, tag, true);
    var inner := ChildOps(g, r, e, tag, true);
    OpsParts(g, r, e, tag, inner);
    Alone(inner + Closing(g, e, tag, |inner|));
    Assoc(inner, FailOps(g, e, tag), ActOps(g, e));
  }

  lemma Alone(ops: seq<Op>)
    ensures [] + ops == ops
  {
  }

  /** A sequence: rendered once and not skipped, opcode and tag, all children, an end and its action. */
  lemma SequenceShape(g: Grammar, r: Ranking, e: nat, tag: Tag)
    requires Renderable(g, r) && Live(g, r, e, tag) && g[e].compound.Sequence?
    requires !g[e].shared && !g[e].skippable && !(tag.Some? && g[tag.value].skippable)
    ensures Ops(g, r, e, tag) == [Match(e, tag), TagEntry(e, tag)] + ChildOps(g, r, e, tag, false)
              + ([End(e)] + if g[e].action then [ActionRef(e)] else [])
  {
    InsideAll(g, r, e, tag, false);
    var inner := ChildOps(g, r, e, tag, false);
    OpsParts(g, r, e, tag, inner);
    Assoc(Opening(g, e, tag), inner, Closing(g, e, tag, |inner|));
  }
}
