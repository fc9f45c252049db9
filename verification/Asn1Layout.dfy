/** The bytecode layout that `scripts/asn1_compiler.c` renders from its tree of elements:
    which entries an element renders to, and in which order out-of-line elements follow. */
module Asn1Layout {
  import opened Sequences
  import opened Wrappers

  /** The `compound` field, without SET, for which the renderer exits. */
  datatype Compound = NotCompound | SetOf | Sequence | SequenceOf | Choice | Any | TypeRef | TagOverride

  /** A parsed element: the fields rendering depends on. Elements are numbered; `target` is the
      element of the type a TYPE_REF names, `shared` says that its type is referenced
      more than once, `untagged` that a TYPE_REF has no tag of its own. */
  datatype Element = Element(
    compound: Compound,
    children: seq<nat>,
    target: nat,
    shared: bool,
    skippable: bool,
    action: bool,
    untagged: bool)

  type Grammar = seq<Element>

  /** The tag argument of `render_element`: NULL or an element. */
  type Tag = Option<nat>

  predicate Loops(c: Compound) { c.SequenceOf? || c.SetOf? }

  predicate WellFormed(g: Grammar) {
    forall e | 0 <= e < |g| ::
      && (forall i | 0 <= i < |g[e].children| :: g[e].children[i] < |g|)
      && (g[e].compound.TypeRef? ==> g[e].target < |g|)
  }

  predicate IsTag(g: Grammar, tag: Tag) { tag.Some? ==> tag.value < |g| }

  predicate Skippable(g: Grammar, e: nat, tag: Tag)
    requires e < |g| && IsTag(g, tag)
  {
    g[e].skippable || (tag.Some? && g[tag.value].skippable)
  }

  predicate OutOfLine(g: Grammar, e: nat, tag: Tag)
    requires e < |g| && IsTag(g, tag)
  {
    g[e].shared || Skippable(g, e, tag)
  }

  /** One entry of the machine. Opcode names are left to the elements they come from.
      `JumpTo` is the `_jump_target` of an out-of-line element, `LoopBack` the one that
      closes a loop, `distance` entries back. */
  datatype Op =
    | Match(e: nat, tag: Tag)
    | TagEntry(e: nat, tag: Tag)
    | JumpTo(x: nat)
    | LoopBack(distance: nat)
    | End(e: nat)
    | Act(e: nat)
    | ActionRef(e: nat)
    | CondFail
    | Complete
    | Return

  // ----- Which recursive calls rendering an element makes -----

  /** A call of `render_element`. */
  datatype Call = Call(e: nat, tag: Tag)

  /** Calls for a list of children, each passed as its own tag (`self`) or without a tag. */
  function ListCalls(es: seq<nat>, self: bool): (cs: seq<Call>)
    ensures |cs| == |es|
    ensures forall i | 0 <= i < |es| :: cs[i] == Call(es[i], if self then Some(es[i]) else None)
  {
    seq(|es|, i requires 0 <= i < |es| => Call(es[i], if self then Some(es[i]) else None))
  }

  /** The element is replaced by a jump to its body. */
  predicate JumpsOut(g: Grammar, e: nat, tag: Tag)
    requires e < |g| && IsTag(g, tag)
  {
    (g[e].compound.Sequence? || Loops(g[e].compound)) && OutOfLine(g, e, tag)
  }

  function FirstCall(es: seq<nat>, tag: Tag): seq<Call> {
    if es == [] then [] else [Call(es[0], tag)]
  }

  /** The calls for one element: TYPE_REF passes its tag on when it has none itself, CHOICE
      passes each alternative as its own tag, a loop renders its first child only. */
  function CallsOf(g: Grammar, e: nat, tag: Tag): seq<Call>
    requires WellFormed(g) && e < |g| && IsTag(g, tag)
  {
    var el := g[e];
    if JumpsOut(g, e, tag) then []
    else
      match el.compound
      case TagOverride => FirstCall(el.children, Some(e))
      case TypeRef => [Call(el.target, if el.untagged then tag else None)]
      case Choice => ListCalls(el.children, true)
      case Sequence => ListCalls(el.children, false)
      case SequenceOf => FirstCall(el.children, None)
      case SetOf => FirstCall(el.children, None)
      case Any => []
      case NotCompound => []
  }

  /** The element has the child that is rendered without looking whether there is one. */
  predicate HasChild(g: Grammar, e: nat, tag: Tag)
    requires e < |g| && IsTag(g, tag)
  {
    g[e].compound.TagOverride? || (Loops(g[e].compound) && !JumpsOut(g, e, tag)) ==> g[e].children != []
  }

  /** Why rendering ends: the calls that are `live` make only live calls of a lower rank. */
  datatype Ranking = Ranking(live: (nat, Tag) -> bool, rank: (nat, Tag) -> nat, limit: nat)

  ghost predicate Ranked(g: Grammar, r: Ranking, bound: nat, cs: seq<Call>) {
    forall i | 0 <= i < |cs| ::
      cs[i].e < |g| && IsTag(g, cs[i].tag) && r.live(cs[i].e, cs[i].tag) && r.rank(cs[i].e, cs[i].tag) < bound
  }

  /** The body of an out-of-line element makes live calls only. */
  ghost predicate LiveBody(g: Grammar, r: Ranking, x: nat) {
    x < |g| && Ranked(g, r, r.limit, ListCalls(g[x].children, false))
  }

  /** A live call, with what it needs. */
  ghost predicate Live(g: Grammar, r: Ranking, e: nat, tag: Tag) {
    e < |g| && IsTag(g, tag) && r.live(e, tag)
  }

  ghost predicate CallRanked(g: Grammar, r: Ranking, e: nat, tag: Tag)
    requires WellFormed(g) && e < |g| && IsTag(g, tag)
  {
    && r.rank(e, tag) < r.limit && HasChild(g, e, tag) && Ranked(g, r, r.rank(e, tag), CallsOf(g, e, tag))
    && (JumpsOut(g, e, tag) ==> LiveBody(g, r, e))
  }

  /** The root can be rendered. Elements it does not reach need not be. */
  ghost predicate Renderable(g: Grammar, r: Ranking) {
    && WellFormed(g) && Live(g, r, 0, None)
    && forall e: nat, tag: Tag | Live(g, r, e, tag) :: CallRanked(g, r, e, tag)
  }

  /** A type that refers to itself without end does not matter while nothing refers to it. */
  lemma UnreachedRecursion()
    ensures var g := [Element(NotCompound, [], 0, false, false, false, false), Element(Choice, [1], 0, false, false, false, false)];
            Renderable(g, Ranking((e, tag) => e == 0, (e, tag) => 0, 1))
  {
    var g := [Element(NotCompound, [], 0, false, false, false, false), Element(Choice, [1], 0, false, false, false, false)];
    assert forall tag: Tag | IsTag(g, tag) :: CallsOf(g, 0, tag) == [];
  }

  // ----- The entries an element renders to -----

  function ActionOps(g: Grammar, e: nat): seq<Op>
    requires e < |g|
  {
    if g[e].action then [ActionRef(e)] else []
  }

  /** The entries before those of the calls: the opcode, the tag, the jump of an
      out-of-line element. */
  function Opening(g: Grammar, e: nat, tag: Tag): seq<Op>
    requires e < |g| && IsTag(g, tag)
  {
    match g[e].compound
    case TagOverride => []
    case Choice => []
    case Any => [Match(e, tag)]
    case TypeRef => if g[e].untagged then [] else [Match(e, tag), TagEntry(e, tag)]
    case NotCompound => [Match(e, tag), TagEntry(e, tag)]
    case _ => if JumpsOut(g, e, tag) then [Match(e, tag), TagEntry(e, tag)] + [JumpTo(e)] else [Match(e, tag), TagEntry(e, tag)]
  }

  /** The end of a sequence or a loop, `n` entries after its start. */
  function EndOnly(g: Grammar, e: nat, n: nat): seq<Op>
    requires e < |g|
  {
    if g[e].compound.Sequence? then [End(e)]
    else if Loops(g[e].compound) then [End(e), LoopBack(n + 1)]
    else []
  }

  /** The same, and the element's action. */
  function EndOps(g: Grammar, e: nat, n: nat): seq<Op>
    requires e < |g|
  {
    EndOnly(g, e, n) + ActionOps(g, e)
  }

  function FailOps(g: Grammar, e: nat, tag: Tag): seq<Op>
    requires e < |g| && IsTag(g, tag)
  {
    if Skippable(g, e, tag) then [] else [CondFail]
  }

  function ActOps(g: Grammar, e: nat): seq<Op>
    requires e < |g|
  {
    if g[e].action then [Act(e), ActionRef(e)] else []
  }

  /** The entries after them; `n` is the number of entries the calls rendered. */
  function Closing(g: Grammar, e: nat, tag: Tag, n: nat): seq<Op>
    requires e < |g| && IsTag(g, tag)
  {
    if g[e].compound.TagOverride? || JumpsOut(g, e, tag) then []
    else if g[e].compound.Choice? then FailOps(g, e, tag) + ActOps(g, e)
    else if g[e].compound.TypeRef? then ActOps(g, e)
    else EndOps(g, e, n)
  }

  ghost function Ops(g: Grammar, r: Ranking, e: nat, tag: Tag): seq<Op>
    requires Renderable(g, r) && Live(g, r, e, tag)
    decreases r.rank(e, tag), |CallsOf(g, e, tag)| + 3
  {
    Opening(g, e, tag) + Rest(g, r, e, tag)
  }

  ghost function Rest(g: Grammar, r: Ranking, e: nat, tag: Tag): seq<Op>
    requires Renderable(g, r) && Live(g, r, e, tag)
    decreases r.rank(e, tag), |CallsOf(g, e, tag)| + 2
  {
    Inside(g, r, e, tag) + Closing(g, e, tag, |Inside(g, r, e, tag)|)
  }

  ghost function Inside(g: Grammar, r: Ranking, e: nat, tag: Tag): seq<Op>
    requires Renderable(g, r) && Live(g, r, e, tag)
    decreases r.rank(e, tag), |CallsOf(g, e, tag)| + 1
  {
    assert CallRanked(g, r, e, tag);
    CallOps(g, r, r.rank(e, tag), CallsOf(g, e, tag))
  }

  ghost function CallOps(g: Grammar, r: Ranking, bound: nat, cs: seq<Call>): seq<Op>
    requires Renderable(g, r) && Ranked(g, r, bound, cs)
    decreases bound, |cs|
  {
    if cs == [] then [] else Ops(g, r, cs[0].e, cs[0].tag) + CallOps(g, r, bound, cs[1..])
  }

  /** The ranking only shows that rendering ends; the entries do not depend on it. */
  lemma {:induction false} OpsUnique(g: Grammar, r: Ranking, q: Ranking, e: nat, tag: Tag)
    requires Renderable(g, r) && Renderable(g, q) && Live(g, r, e, tag) && Live(g, q, e, tag)
    ensures Ops(g, r, e, tag) == Ops(g, q, e, tag)
    decreases r.rank(e, tag), |CallsOf(g, e, tag)| + 1
  {
    assert CallRanked(g, r, e, tag) && CallRanked(g, q, e, tag);
    CallOpsUnique(g, r, q, r.rank(e, tag), q.rank(e, tag), CallsOf(g, e, tag));
    assert Inside(g, r, e, tag) == Inside(g, q, e, tag);
  }

  lemma {:induction false} CallOpsUnique(g: Grammar, r: Ranking, q: Ranking, rBound: nat, qBound: nat, cs: seq<Call>)
    requires Renderable(g, r) && Renderable(g, q) && Ranked(g, r, rBound, cs) && Ranked(g, q, qBound, cs)
    ensures CallOps(g, r, rBound, cs) == CallOps(g, q, qBound, cs)
    decreases rBound, |cs|
  {
    if cs != [] {
      OpsUnique(g, r, q, cs[0].e, cs[0].tag);
      CallOpsUnique(g, r, q, rBound, qBound, cs[1..]);
    }
  }

  function BodyEnd(g: Grammar, x: nat, n: nat): seq<Op>
    requires x < |g|
  {
    EndOps(g, x, n) + [Return]
  }

  /** The body of an out-of-line element: all its children, an end, and a return. */
  ghost function Body(g: Grammar, r: Ranking, x: nat): (ops: seq<Op>)
    requires Renderable(g, r) && LiveBody(g, r, x)
  {
    var inner := CallOps(g, r, r.limit, ListCalls(g[x].children, false));
    inner + BodyEnd(g, x, |inner|)
  }

  /** What comes first: the root element and the end of the machine. */
  ghost function RootOps(g: Grammar, r: Ranking): seq<Op>
    requires Renderable(g, r)
  {
    Ops(g, r, 0, None) + [Complete]
  }

  // ----- The order in which out-of-line elements are found -----

  /** The list of elements found so far, after the jumps in `ops`: each is noted once. */
  function Found(found: seq<nat>, ops: seq<Op>): seq<nat>
    decreases |ops|
  {
    if ops == [] then found
    else Found(if ops[0].JumpTo? && ops[0].x !in found then found + [ops[0].x] else found, ops[1..])
  }

  predicate Below(s: seq<nat>, n: nat) { forall i | 0 <= i < |s| :: s[i] < n }

  predicate JumpsBelow(ops: seq<Op>, n: nat) { forall i | 0 <= i < |ops| :: ops[i].JumpTo? ==> ops[i].x < n }

  lemma {:induction false} FoundAppend(found: seq<nat>, a: seq<Op>, b: seq<Op>)
    ensures Found(found, a + b) == Found(Found(found, a), b)
    decreases |a|
  {
    if a == [] {
      assert a + b == b;
    } else {
      assert (a + b)[1..] == a[1..] + b;
      FoundAppend(if a[0].JumpTo? && a[0].x !in found then found + [a[0].x] else found, a[1..], b);
    }
  }

  lemma {:induction false} FoundGrows(found: seq<nat>, ops: seq<Op>)
    ensures found <= Found(found, ops)
    ensures forall i | 0 <= i < |ops| :: ops[i].JumpTo? ==> ops[i].x in Found(found, ops)
    decreases |ops|
  {
    if ops != [] {
      var next := if ops[0].JumpTo? && ops[0].x !in found then found + [ops[0].x] else found;
      FoundGrows(next, ops[1..]);
      forall i | 0 <= i < |ops| && ops[i].JumpTo? ensures ops[i].x in Found(found, ops) {
        if i == 0 { assert ops[0].x in next; } else { assert ops[1..][i - 1] == ops[i]; }
      }
    }
  }

  lemma {:induction false} FoundDistinct(found: seq<nat>, ops: seq<Op>, n: nat)
    requires Distinct(found) && Below(found, n) && JumpsBelow(ops, n)
    ensures Distinct(Found(found, ops)) && Below(Found(found, ops), n)
    decreases |ops|
  {
    if ops != [] {
      FoundDistinct(if ops[0].JumpTo? && ops[0].x !in found then found + [ops[0].x] else found, ops[1..], n);
    }
  }

  function Range(n: nat): set<nat> { if n == 0 then {} else Range(n - 1) + {n - 1} }

  lemma {:induction false} RangeIs(n: nat)
    ensures |Range(n)| == n && forall x: nat :: x in Range(n) <==> x < n
  {
    if n > 0 { RangeIs(n - 1); }
  }

  lemma DistinctBounded(s: seq<nat>, n: nat)
    requires Distinct(s) && Below(s, n)
    ensures |s| <= n
  {
    RangeIs(n);
    DistinctWithin(s, Range(n));
  }

  // ----- Jumps lead to bodies that can be rendered -----

  /** All jumps in `ops` are to elements of `to`. */
  ghost predicate JumpsIn(ops: seq<Op>, to: iset<nat>) {
    forall i | 0 <= i < |ops| && ops[i].JumpTo? :: ops[i].x in to
  }

  lemma JumpsConcat(a: seq<Op>, b: seq<Op>, to: iset<nat>)
    requires JumpsIn(a, to) && JumpsIn(b, to)
    ensures JumpsIn(a + b, to)
  {
  }

  ghost function LiveBodies(g: Grammar, r: Ranking): iset<nat> {
    iset x: nat | LiveBody(g, r, x)
  }

  lemma OpeningJumps(g: Grammar, r: Ranking, e: nat, tag: Tag)
    requires Renderable(g, r) && Live(g, r, e, tag)
    ensures JumpsIn(Opening(g, e, tag), LiveBodies(g, r))
  {
    assert CallRanked(g, r, e, tag);
  }

  predicate NoJumps(ops: seq<Op>) { forall i | 0 <= i < |ops| :: !ops[i].JumpTo? }

  lemma ClosingHasNoJumps(g: Grammar, e: nat, tag: Tag, n: nat)
    requires e < |g| && IsTag(g, tag)
    ensures NoJumps(Closing(g, e, tag, n))
  {
  }

  lemma {:induction false} OpsJumpsLive(g: Grammar, r: Ranking, e: nat, tag: Tag)
    requires Renderable(g, r) && Live(g, r, e, tag)
    ensures JumpsIn(Ops(g, r, e, tag), LiveBodies(g, r))
    decreases r.rank(e, tag), |CallsOf(g, e, tag)| + 1
  {
    var inner := Inside(g, r, e, tag);
    assert CallRanked(g, r, e, tag);
    CallJumpsLive(g, r, r.rank(e, tag), CallsOf(g, e, tag));
    OpeningJumps(g, r, e, tag);
    ClosingHasNoJumps(g, e, tag, |inner|);
    JumpsConcat(inner, Closing(g, e, tag, |inner|), LiveBodies(g, r));
    JumpsConcat(Opening(g, e, tag), Rest(g, r, e, tag), LiveBodies(g, r));
  }

  lemma {:induction false} CallJumpsLive(g: Grammar, r: Ranking, bound: nat, cs: seq<Call>)
    requires Renderable(g, r) && Ranked(g, r, bound, cs)
    ensures JumpsIn(CallOps(g, r, bound, cs), LiveBodies(g, r))
    decreases bound, |cs|
  {
    if cs != [] {
      OpsJumpsLive(g, r, cs[0].e, cs[0].tag);
      CallJumpsLive(g, r, bound, cs[1..]);
      JumpsConcat(Ops(g, r, cs[0].e, cs[0].tag), CallOps(g, r, bound, cs[1..]), LiveBodies(g, r));
    }
  }

  lemma BodyJumpsLive(g: Grammar, r: Ranking, x: nat)
    requires Renderable(g, r) && LiveBody(g, r, x)
    ensures JumpsIn(Body(g, r, x), LiveBodies(g, r))
  {
    var inner := CallOps(g, r, r.limit, ListCalls(g[x].children, false));
    CallJumpsLive(g, r, r.limit, ListCalls(g[x].children, false));
    JumpsConcat(inner, BodyEnd(g, x, |inner|), LiveBodies(g, r));
  }

  // ----- The pieces of a machine, and the order they come in -----

  /** The entries of the root and of the body of every element. */
  datatype Pieces = Pieces(root: seq<Op>, bodies: seq<seq<Op>>)

  predicate Closed(p: Pieces) {
    JumpsBelow(p.root, |p.bodies|) && forall x | 0 <= x < |p.bodies| :: JumpsBelow(p.bodies[x], |p.bodies|)
  }

  /** The body of an element, if it can be rendered. */
  ghost function BodyIfLive(g: Grammar, r: Ranking, x: nat): seq<Op>
    requires Renderable(g, r)
  {
    if LiveBody(g, r, x) then Body(g, r, x) else []
  }

  /** The pieces of a grammar. */
  ghost function PiecesOf(g: Grammar, r: Ranking): (p: Pieces)
    requires Renderable(g, r)
    ensures |p.bodies| == |g| && p.root == RootOps(g, r)
    ensures forall x: nat | x < |g| :: p.bodies[x] == BodyIfLive(g, r, x)
  {
    Pieces(RootOps(g, r), seq(|g|, x requires 0 <= x < |g| => BodyIfLive(g, r, x)))
  }

  lemma PiecesLive(g: Grammar, r: Ranking)
    requires Renderable(g, r)
    ensures Closed(PiecesOf(g, r)) && StaysIn(PiecesOf(g, r), LiveBodies(g, r))
  {
    OpsJumpsLive(g, r, 0, None);
    JumpsConcat(Ops(g, r, 0, None), [Complete], LiveBodies(g, r));
    forall x: nat | x < |g| ensures JumpsIn(BodyIfLive(g, r, x), LiveBodies(g, r)) {
      if LiveBody(g, r, x) { BodyJumpsLive(g, r, x); }
    }
  }

  /** What is found when the body of the `j`-th element found so far, if there is one, is rendered. */
  ghost function FoundByBody(p: Pieces, before: seq<nat>, j: nat): (found: seq<nat>)
    requires Closed(p) && Distinct(before) && Below(before, |p.bodies|)
    ensures Distinct(found) && Below(found, |p.bodies|) && before <= found
    ensures |before| <= j ==> found == before
  {
    if j < |before| then
      FoundDistinct(before, p.bodies[before[j]], |p.bodies|);
      FoundGrows(before, p.bodies[before[j]]);
      Found(before, p.bodies[before[j]])
    else before
  }

  /** The out-of-line elements found by the root and the first `j` bodies. */
  ghost function Discovered(p: Pieces, j: nat): (found: seq<nat>)
    requires Closed(p)
    ensures Distinct(found) && Below(found, |p.bodies|)
  {
    if j == 0 then
      FoundDistinct([], p.root, |p.bodies|);
      Found([], p.root)
    else
      FoundByBody(p, Discovered(p, j - 1), j - 1)
  }

  lemma {:induction false} DiscoveredGrows(p: Pieces, i: nat, j: nat)
    requires Closed(p) && i <= j
    ensures Discovered(p, i) <= Discovered(p, j)
    decreases j
  {
    if i < j { DiscoveredGrows(p, i, j - 1); }
  }

  /** All of them: there are no more than there are elements. */
  ghost function Order(p: Pieces): seq<nat>
    requires Closed(p)
  {
    Discovered(p, |p.bodies|)
  }

  /** Once the bodies have caught up with the list, nothing more is found. */
  lemma {:induction false} CaughtUp(p: Pieces, i: nat, j: nat)
    requires Closed(p) && i <= j && |Discovered(p, i)| <= i
    ensures Discovered(p, j) == Discovered(p, i)
    decreases j
  {
    if i < j { CaughtUp(p, i, j - 1); }
  }

  lemma OrderIsPrefixed(p: Pieces, i: nat)
    requires Closed(p)
    ensures Discovered(p, i) <= Order(p)
    ensures |Discovered(p, i)| <= i ==> Order(p) == Discovered(p, i)
    ensures i < |Order(p)| ==> i < |Discovered(p, i)|
  {
    DistinctBounded(Discovered(p, i), |p.bodies|);
    DistinctBounded(Order(p), |p.bodies|);
    if i <= |p.bodies| {
      DiscoveredGrows(p, i, |p.bodies|);
      if |Discovered(p, i)| <= i { CaughtUp(p, i, |p.bodies|); }
    } else {
      CaughtUp(p, |p.bodies|, i);
    }
  }

  // ----- What is found can be rendered -----

  ghost predicate AllIn(found: seq<nat>, to: iset<nat>) {
    forall i | 0 <= i < |found| :: found[i] in to
  }

  lemma {:induction false} FoundAllIn(found: seq<nat>, ops: seq<Op>, to: iset<nat>)
    requires AllIn(found, to) && JumpsIn(ops, to)
    ensures AllIn(Found(found, ops), to)
    decreases |ops|
  {
    if ops != [] {
      FoundAllIn(if ops[0].JumpTo? && ops[0].x !in found then found + [ops[0].x] else found, ops[1..], to);
    }
  }

  /** The root and all bodies jump to elements of `to` only. */
  ghost predicate StaysIn(p: Pieces, to: iset<nat>) {
    JumpsIn(p.root, to) && forall x | 0 <= x < |p.bodies| :: JumpsIn(p.bodies[x], to)
  }

  lemma {:induction false} DiscoveredIn(p: Pieces, to: iset<nat>, j: nat)
    requires Closed(p) && StaysIn(p, to)
    ensures AllIn(Discovered(p, j), to)
    decreases j
  {
    if j == 0 {
      FoundAllIn([], p.root, to);
    } else {
      DiscoveredIn(p, to, j - 1);
      var before := Discovered(p, j - 1);
      if j - 1 < |before| { FoundAllIn(before, p.bodies[before[j - 1]], to); }
    }
  }

  // ----- The machine does not depend on the ranking -----

  /** Bodies that both machines can jump to are the same. */
  ghost predicate Alike(p: Pieces, q: Pieces, to: iset<nat>, to': iset<nat>) {
    && Closed(p) && Closed(q) && StaysIn(p, to) && StaysIn(q, to')
    && p.root == q.root && |p.bodies| == |q.bodies|
    && forall x: nat | x < |p.bodies| && x in to && x in to' :: p.bodies[x] == q.bodies[x]
  }

  lemma BodyFoundAlike(p: Pieces, q: Pieces, to: iset<nat>, to': iset<nat>, before: seq<nat>, j: nat)
    requires Alike(p, q, to, to') && AllIn(before, to) && AllIn(before, to')
    requires Distinct(before) && Below(before, |p.bodies|)
    ensures FoundByBody(p, before, j) == FoundByBody(q, before, j)
  {
    if j < |before| { assert p.bodies[before[j]] == q.bodies[before[j]]; }
  }

  lemma NextAlike(p: Pieces, q: Pieces, to: iset<nat>, to': iset<nat>, before: seq<nat>, j: nat)
    requires Alike(p, q, to, to') && before == Discovered(p, j) == Discovered(q, j)
    requires AllIn(before, to) && AllIn(before, to')
    ensures Discovered(p, j + 1) == Discovered(q, j + 1)
  {
    BodyFoundAlike(p, q, to, to', before, j);
    assert Discovered(p, j + 1) == FoundByBody(p, before, j);
    assert Discovered(q, j + 1) == FoundByBody(q, before, j);
  }

  lemma StepAlike(p: Pieces, q: Pieces, to: iset<nat>, to': iset<nat>, j: nat)
    requires Alike(p, q, to, to') && Discovered(p, j) == Discovered(q, j)
    ensures Discovered(p, j + 1) == Discovered(q, j + 1)
  {
    DiscoveredIn(p, to, j);
    DiscoveredIn(q, to', j);
    NextAlike(p, q, to, to', Discovered(p, j), j);
  }

  lemma RootAlike(p: Pieces, q: Pieces, to: iset<nat>, to': iset<nat>)
    requires Alike(p, q, to, to')
    ensures Discovered(p, 0) == Discovered(q, 0)
  {
  }

  lemma {:induction false} DiscoveredAlike(p: Pieces, q: Pieces, to: iset<nat>, to': iset<nat>, j: nat)
    requires Alike(p, q, to, to')
    ensures Discovered(p, j) == Discovered(q, j)
    decreases j
  {
    if j == 0 {
      RootAlike(p, q, to, to');
    } else {
      DiscoveredAlike(p, q, to, to', j - 1);
      StepAlike(p, q, to, to', j - 1);
    }
  }

  lemma BodyUnique(g: Grammar, r: Ranking, q: Ranking, x: nat)
    requires Renderable(g, r) && Renderable(g, q) && LiveBody(g, r, x) && LiveBody(g, q, x)
    ensures Body(g, r, x) == Body(g, q, x)
  {
    CallOpsUnique(g, r, q, r.limit, q.limit, ListCalls(g[x].children, false));
  }

  lemma PiecesAlike(g: Grammar, r: Ranking, q: Ranking)
    requires Renderable(g, r) && Renderable(g, q)
    ensures Alike(PiecesOf(g, r), PiecesOf(g, q), LiveBodies(g, r), LiveBodies(g, q))
  {
    PiecesLive(g, r);
    PiecesLive(g, q);
    OpsUnique(g, r, q, 0, None);
    forall x: nat | x < |g| && x in LiveBodies(g, r) && x in LiveBodies(g, q)
      ensures BodyIfLive(g, r, x) == BodyIfLive(g, q, x)
    {
      BodyUnique(g, r, q, x);
    }
  }

  // ----- The schedule of a pass -----

  /** The elements in the order found, and how many are found by the root and the first
      `i` bodies. */
  datatype Schedule = Schedule(order: seq<nat>, size: seq<nat>)

  predicate UpTo(i: int, j: int) { 0 <= i <= j }

  ghost predicate Proper(s: Schedule, n: nat) {
    && Distinct(s.order) && Below(s.order, n) && |s.size| == |s.order| + 1
    && (forall i | 0 <= i < |s.order| :: i < s.size[i] <= |s.order|)
    && s.size[|s.order|] == |s.order|
    && (forall i, j {:trigger UpTo(i, j)} | UpTo(i, j) && j < |s.size| :: s.size[i] <= s.size[j])
  }

  ghost function ScheduleOf(p: Pieces): Schedule
    requires Closed(p)
  {
    Schedule(Order(p), seq(|Order(p)| + 1, i requires 0 <= i => |Discovered(p, i)|))
  }

  lemma ScheduleProper(p: Pieces)
    requires Closed(p)
    ensures Proper(ScheduleOf(p), |p.bodies|)
  {
    var s := ScheduleOf(p);
    forall i | 0 <= i <= |s.order| ensures s.size[i] <= |s.order| && (i < |s.order| ==> i < s.size[i]) {
      OrderIsPrefixed(p, i);
    }
    forall i, j | UpTo(i, j) && j < |s.size| ensures s.size[i] <= s.size[j] {
      DiscoveredGrows(p, i, j);
    }
    CatchesUp(p);
  }

  lemma EnoughFound(p: Pieces, n: nat)
    requires Closed(p) && n <= |Order(p)|
    ensures |Discovered(p, n)| >= n
  {
    if n > 0 {
      OrderIsPrefixed(p, n - 1);
      DiscoveredGrows(p, n - 1, n);
    }
  }

  lemma WholePrefix(a: seq<nat>, b: seq<nat>)
    requires a <= b && |a| >= |b|
    ensures a == b
  {
  }

  lemma CatchesUp(p: Pieces)
    requires Closed(p)
    ensures Discovered(p, |Order(p)|) == Order(p)
  {
    DistinctBounded(Order(p), |p.bodies|);
    DiscoveredGrows(p, |Order(p)|, |p.bodies|);
    EnoughFound(p, |Order(p)|);
    WholePrefix(Discovered(p, |Order(p)|), Order(p));
  }

  /** The jumps in `ops` are found in the order of the schedule, none beyond the first
      `size[popped]` elements. */
  ghost predicate OnTrack(s: Schedule, m: nat, popped: nat, ops: seq<Op>) {
    && m <= |s.order| && popped < |s.size| && Found(s.order[..m], ops) <= s.order
    && |Found(s.order[..m], ops)| <= s.size[popped]
  }

  /** The `j`-th body finds exactly the elements that come next. */
  ghost predicate BodyFits(p: Pieces, s: Schedule, j: nat)
    requires Closed(p) && Proper(s, |p.bodies|) && j < |s.order|
  {
    && OnTrack(s, s.size[j], j + 1, p.bodies[s.order[j]])
    && |Found(s.order[..s.size[j]], p.bodies[s.order[j]])| == s.size[j + 1]
  }

  /** A schedule for the grammar: the root, then body after body. */
  ghost predicate Scheduled(p: Pieces, s: Schedule) {
    && Closed(p) && Proper(s, |p.bodies|)
    && OnTrack(s, 0, 0, p.root) && |Found([], p.root)| == s.size[0]
    && forall j {:trigger BodyFits(p, s, j)} | 0 <= j < |s.order| :: BodyFits(p, s, j)
  }

  lemma TrackFollows(s: Schedule, before: seq<nat>, popped: nat, ops: seq<Op>)
    requires before <= s.order && Found(before, ops) <= s.order
    requires popped < |s.size| && |Found(before, ops)| <= s.size[popped]
    ensures OnTrack(s, |before|, popped, ops) && Found(s.order[..|before|], ops) == Found(before, ops)
  {
    assert s.order[..|before|] == before;
  }

  lemma BodyFitsIf(p: Pieces, s: Schedule, j: nat, before: seq<nat>, next: seq<nat>)
    requires Closed(p) && Proper(s, |p.bodies|) && j < |s.order|
    requires before <= s.order && next <= s.order && |before| == s.size[j] && |next| == s.size[j + 1]
    requires next == Found(before, p.bodies[s.order[j]])
    ensures BodyFits(p, s, j)
  {
    TrackFollows(s, before, j + 1, p.bodies[s.order[j]]);
  }

  lemma BodyIsScheduled(p: Pieces, j: nat)
    requires Closed(p) && Proper(ScheduleOf(p), |p.bodies|) && j < |Order(p)|
    ensures BodyFits(p, ScheduleOf(p), j)
  {
    OrderIsPrefixed(p, j);
    OrderIsPrefixed(p, j + 1);
    assert Discovered(p, j)[j] == Order(p)[j];
    BodyFitsIf(p, ScheduleOf(p), j, Discovered(p, j), Discovered(p, j + 1));
  }

  /** Every machine whose jumps lead to its elements has a schedule. */
  lemma ScheduleExists(p: Pieces)
    requires Closed(p)
    ensures Scheduled(p, ScheduleOf(p))
  {
    var s := ScheduleOf(p);
    ScheduleProper(p);
    OrderIsPrefixed(p, 0);
    assert s.order[..0] == [];
    forall j | 0 <= j < |s.order| ensures BodyFits(p, s, j) {
      BodyIsScheduled(p, j);
    }
  }

  // ----- The machine -----

  /** An entry as emitted: an opcode, or the index a jump target evaluates to. */
  datatype Entry = Plain(op: Op) | Target(index: int)

  function EmitOne(op: Op, at: nat, entryIndex: seq<nat>): Entry {
    match op
    case JumpTo(x) => Target(if x < |entryIndex| then entryIndex[x] else 0)
    case LoopBack(distance) => Target(at - distance)
    case _ => Plain(op)
  }

  /** The entries of `ops`, emitted from position `at` on. */
  function Emit(ops: seq<Op>, at: nat, entryIndex: seq<nat>): (out: seq<Entry>)
    ensures |out| == |ops| && forall k | 0 <= k < |ops| :: out[k] == EmitOne(ops[k], at + k, entryIndex)
  {
    seq(|ops|, k requires 0 <= k < |ops| => EmitOne(ops[k], at + k, entryIndex))
  }

  lemma EmitAppend(a: seq<Op>, b: seq<Op>, at: nat, entryIndex: seq<nat>)
    ensures Emit(a + b, at, entryIndex) == Emit(a, at, entryIndex) + Emit(b, at + |a|, entryIndex)
  {
  }

  /** The machine up to and including the first `j` bodies. */
  ghost function Code(p: Pieces, order: seq<nat>, j: nat): seq<Op>
    requires Closed(p) && Below(order, |p.bodies|) && j <= |order|
  {
    if j == 0 then p.root else Code(p, order, j - 1) + p.bodies[order[j - 1]]
  }

  lemma {:induction false} CodeAlike(p: Pieces, q: Pieces, to: iset<nat>, to': iset<nat>, order: seq<nat>, j: nat)
    requires Alike(p, q, to, to') && AllIn(order, to) && AllIn(order, to')
    requires Below(order, |p.bodies|) && j <= |order|
    ensures Code(p, order, j) == Code(q, order, j)
    decreases j
  {
    if j > 0 { CodeAlike(p, q, to, to', order, j - 1); }
  }

  /** Whatever ranking shows that rendering ends, the machine is the same. */
  lemma MachineUnique(g: Grammar, r: Ranking, q: Ranking)
    requires Renderable(g, r) && Renderable(g, q)
    ensures Closed(PiecesOf(g, r)) && Closed(PiecesOf(g, q))
    ensures var order := Order(PiecesOf(g, r));
            && order == Order(PiecesOf(g, q))
            && Code(PiecesOf(g, r), order, |order|) == Code(PiecesOf(g, q), order, |order|)
  {
    var p, p', to, to' := PiecesOf(g, r), PiecesOf(g, q), LiveBodies(g, r), LiveBodies(g, q);
    PiecesAlike(g, r, q);
    DiscoveredAlike(p, p', to, to', |g|);
    DiscoveredIn(p, to, |g|);
    DiscoveredIn(p', to', |g|);
    CodeAlike(p, p', to, to', Order(p), |Order(p)|);
  }

  /** The index where the body of the `i`-th out-of-line element starts. */
  ghost function Start(p: Pieces, order: seq<nat>, i: nat): nat
    requires Closed(p) && Below(order, |p.bodies|) && i < |order|
  {
    |Code(p, order, i)|
  }

  lemma {:induction false} CodePrefix(p: Pieces, order: seq<nat>, i: nat, j: nat)
    requires Closed(p) && Below(order, |p.bodies|) && i <= j <= |order|
    ensures Code(p, order, i) <= Code(p, order, j)
    decreases j
  {
    if i < j {
      CodePrefix(p, order, i, j - 1);
      PrefixAppend(Code(p, order, i), Code(p, order, j - 1), p.bodies[order[j - 1]]);
    }
  }

  lemma PrefixAppend(a: seq<Op>, b: seq<Op>, c: seq<Op>)
    requires a <= b
    ensures a <= b + c
  {
  }

  predicate StandsAt(code: seq<Op>, at: nat, body: seq<Op>) {
    at + |body| <= |code| && code[at..at + |body|] == body
  }

  lemma StandsInPrefix(a: seq<Op>, body: seq<Op>, code: seq<Op>)
    requires a + body <= code
    ensures StandsAt(code, |a|, body)
  {
    assert a + body == code[..|a + body|];
  }

  /** Every body stands where it should, once. */
  lemma BodyAt(p: Pieces, order: seq<nat>, i: nat)
    requires Closed(p) && Below(order, |p.bodies|) && i < |order|
    ensures StandsAt(Code(p, order, |order|), Start(p, order, i), p.bodies[order[i]])
  {
    CodePrefix(p, order, i + 1, |order|);
    StandsInPrefix(Code(p, order, i), p.bodies[order[i]], Code(p, order, |order|));
  }

  lemma FoundIn(s: Schedule, m: nat, popped: nat, ops: seq<Op>, k: nat)
    requires OnTrack(s, m, popped, ops) && k < |ops| && ops[k].JumpTo?
    ensures ops[k].x in s.order
  {
    FoundGrows(s.order[..m], ops);
  }

  /** Every jump of the machine leads to an element of the schedule. */
  lemma {:induction false} JumpsFound(p: Pieces, s: Schedule, j: nat, k: nat)
    requires Scheduled(p, s) && j <= |s.order|
    requires k < |Code(p, s.order, j)| && Code(p, s.order, j)[k].JumpTo?
    ensures Code(p, s.order, j)[k].x in s.order
    decreases j
  {
    if j == 0 {
      FoundIn(s, 0, 0, p.root, k);
    } else {
      var n := |Code(p, s.order, j - 1)|;
      if k < n {
        JumpsFound(p, s, j - 1, k);
      } else {
        assert BodyFits(p, s, j - 1);
        FoundIn(s, s.size[j - 1], j, p.bodies[s.order[j - 1]], k - n);
      }
    }
  }

  ghost function Starts(p: Pieces, order: seq<nat>): (starts: seq<nat>)
    requires Closed(p) && Below(order, |p.bodies|)
    ensures |starts| == |order| && forall i | 0 <= i < |order| :: starts[i] == Start(p, order, i)
  {
    seq(|order|, i requires 0 <= i < |order| => Start(p, order, i))
  }

  /** The first `j` elements of `order` have their entry of `starts` as entry index. */
  predicate Noted(order: seq<nat>, j: nat, starts: seq<nat>, entryIndex: seq<nat>)
    requires Below(order, |entryIndex|) && |starts| == |order| && j <= |order|
  {
    forall i | 0 <= i < j :: entryIndex[order[i]] == starts[i]
  }

  lemma NotedStep(order: seq<nat>, j: nat, m: nat, starts: seq<nat>, entryIndex: seq<nat>)
    requires Distinct(order) && Below(order, |entryIndex|) && |starts| == |order|
    requires j < |order| && (m == j || m == |order|) && Noted(order, m, starts, entryIndex)
    ensures var idx := entryIndex[order[j] := starts[j]];
            && Noted(order, if m == j then j + 1 else m, starts, idx)
            && (j < m ==> idx == entryIndex)
  {
    var idx := entryIndex[order[j] := starts[j]];
    forall i | 0 <= i < (if m == j then j + 1 else m) ensures idx[order[i]] == starts[i] {
      assert i < j ==> order[i] != order[j];
    }
  }

  /** The entry indices of the first `j` out-of-line elements are where their bodies start. */
  ghost predicate Indexed(p: Pieces, order: seq<nat>, j: nat, entryIndex: seq<nat>) {
    && Closed(p) && Below(order, |p.bodies|) && j <= |order| && |entryIndex| == |p.bodies|
    && Noted(order, j, Starts(p, order), entryIndex)
  }

  /** In a machine emitted with these indices, every jump target is the index at which the
      body of its element starts. */
  lemma JumpsLand(p: Pieces, s: Schedule, entryIndex: seq<nat>, k: nat) returns (i: nat)
    requires Scheduled(p, s) && Indexed(p, s.order, |s.order|, entryIndex)
    requires k < |Code(p, s.order, |s.order|)| && Code(p, s.order, |s.order|)[k].JumpTo?
    ensures i < |s.order| && s.order[i] == Code(p, s.order, |s.order|)[k].x
    ensures Emit(Code(p, s.order, |s.order|), 0, entryIndex)[k] == Target(Start(p, s.order, i))
    ensures StandsAt(Code(p, s.order, |s.order|), Start(p, s.order, i), p.bodies[s.order[i]])
  {
    JumpsFound(p, s, |s.order|, k);
    i := IndexIn(s.order, Code(p, s.order, |s.order|)[k].x);
    NotedAt(s.order, i, Starts(p, s.order), entryIndex);
    BodyAt(p, s.order, i);
  }

  lemma NotedAt(order: seq<nat>, i: nat, starts: seq<nat>, entryIndex: seq<nat>)
    requires Below(order, |entryIndex|) && |starts| == |order| && i < |order| && Noted(order, |order|, starts, entryIndex)
    ensures order[i] < |entryIndex| && entryIndex[order[i]] == starts[i]
  {
  }

  lemma IndexIn(order: seq<nat>, x: nat) returns (i: nat)
    requires x in order
    ensures i < |order| && order[i] == x
  {
    i :| 0 <= i < |order| && order[i] == x;
  }
}
