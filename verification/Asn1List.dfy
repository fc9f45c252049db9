/** The linked list of out-of-line elements of `scripts/asn1_compiler.c`. Its links are never
    cleared between the two passes, so the second pass appends to a list whose stale tails are
    still in place. */
module Asn1List {
  import opened Asn1Layout
  import opened Wrappers

  // ----- The linked list -----

  /** The link the first pass leaves behind the `i`-th element found: none if the list had run
      empty by the time it was taken off. */
  function FinalLink(s: Schedule, i: nat): Option<nat>
    requires i < |s.order| && i < |s.size| && s.size[i] <= |s.order|
  {
    if s.size[i] <= i + 1 then None else Some(s.order[i + 1])
  }

  /** The flag ELEMENT_RENDERED is set for the first `m` elements. */
  ghost predicate Marks(s: Schedule, n: nat, m: nat, rendered: seq<bool>)
    requires m <= |s.order| && |rendered| == n
  {
    forall x | 0 <= x < n :: rendered[x] <==> x in s.order[..m]
  }

  /** The links: in the first pass those behind the first `m` elements, in the second all. */
  ghost predicate Links(s: Schedule, n: nat, m: nat, second: bool, next: seq<Option<nat>>)
    requires Proper(s, n) && |next| == n
  {
    forall i {:trigger next[s.order[i]]} | 0 <= i < |s.order| :: next[s.order[i]] == if second || i + 1 < m then FinalLink(s, i) else None
  }

  /** The list after `m` elements were found and `popped` of them taken off. In the second
      pass every element, found or not, has its final link already. */
  ghost predicate Threaded(s: Schedule, n: nat, m: nat, popped: nat, second: bool,
                           rendered: seq<bool>, next: seq<Option<nat>>, head: Option<nat>, tail: Option<nat>)
  {
    && Proper(s, n) && |rendered| == n && |next| == n
    && popped <= m <= |s.order| && m <= s.size[popped] && (popped > 0 ==> s.size[popped - 1] <= m)
    && Marks(s, n, m, rendered) && Links(s, n, m, second, next)
    && (if popped < m then head == Some(s.order[popped]) && tail == Some(s.order[m - 1]) else head.None? && tail.None?)
  }

  lemma MarksGrow(s: Schedule, n: nat, m: nat, rendered: seq<bool>)
    requires Proper(s, n) && m < |s.order| && |rendered| == n && Marks(s, n, m, rendered)
    ensures s.order[m] < n && !rendered[s.order[m]] && Marks(s, n, m + 1, rendered[s.order[m] := true])
  {
    assert s.order[..m + 1] == s.order[..m] + [s.order[m]];
    assert s.order[m] !in s.order[..m];
  }

  /** The list is not empty: the new link is the final one. */
  lemma LinksGrow(s: Schedule, n: nat, m: nat, second: bool, next: seq<Option<nat>>)
    requires Proper(s, n) && 0 < m < |s.order| && |next| == n && Links(s, n, m, second, next) && m + 1 <= s.size[m - 1]
    ensures s.order[m - 1] < n && Links(s, n, m + 1, second, next[s.order[m - 1] := Some(s.order[m])])
  {
    var next' := next[s.order[m - 1] := Some(s.order[m])];
    forall i | 0 <= i < |s.order| ensures next'[s.order[i]] == if second || i + 1 < m + 1 then FinalLink(s, i) else None {
      if i < m - 1 { assert s.order[i] != s.order[m - 1]; }
      if m - 1 < i { assert s.order[m - 1] != s.order[i]; }
    }
  }

  /** The list has run empty: the last element found keeps no link, finally too. */
  lemma LinksBreak(s: Schedule, n: nat, m: nat, second: bool, next: seq<Option<nat>>)
    requires Proper(s, n) && m < |s.order| && |next| == n && Links(s, n, m, second, next)
    requires m > 0 ==> s.size[m - 1] <= m
    ensures Links(s, n, m + 1, second, next)
  {
  }

  /** Appending the next element found, through the tail pointer. */
  lemma EnqueueThreaded(s: Schedule, n: nat, m: nat, popped: nat, second: bool,
                        rendered: seq<bool>, next: seq<Option<nat>>, head: Option<nat>, tail: Option<nat>)
    requires Threaded(s, n, m, popped, second, rendered, next, head, tail) && m < s.size[popped]
    ensures s.order[m] < n && !rendered[s.order[m]] && (tail.Some? ==> tail.value < n)
    ensures var x := s.order[m];
            Threaded(s, n, m + 1, popped, second, rendered[x := true],
                     if tail.Some? then next[tail.value := Some(x)] else next,
                     if tail.Some? then head else Some(x), Some(x))
  {
    MarksGrow(s, n, m, rendered);
    if tail.Some? {
      assert UpTo(popped, m - 1);
      LinksGrow(s, n, m, second, next);
    } else {
      LinksBreak(s, n, m, second, next);
    }
  }

  /** Taking the first element off when all bodies before it are done. */
  lemma DequeueThreaded(s: Schedule, n: nat, m: nat, popped: nat, second: bool,
                        rendered: seq<bool>, next: seq<Option<nat>>, head: Option<nat>, tail: Option<nat>)
    requires Threaded(s, n, m, popped, second, rendered, next, head, tail) && popped < m == s.size[popped]
    ensures head == Some(s.order[popped]) && s.order[popped] < n
    ensures var rest := next[s.order[popped]];
            Threaded(s, n, m, popped + 1, second, rendered, next, rest, if rest.Some? then tail else None)
  {
    assert UpTo(popped, popped + 1);
  }

  lemma FreshThreaded(s: Schedule, n: nat, rendered: seq<bool>, next: seq<Option<nat>>)
    requires Proper(s, n) && |rendered| == n && |next| == n
    requires (forall x | 0 <= x < n :: !rendered[x]) && (forall x | 0 <= x < n :: next[x].None?)
    ensures Threaded(s, n, 0, 0, false, rendered, next, None, None)
  {
  }

  /** After the first pass every link is final, so the second may start. */
  lemma SecondThreaded(s: Schedule, n: nat, rendered: seq<bool>, cleared: seq<bool>, next: seq<Option<nat>>,
                       head: Option<nat>, tail: Option<nat>)
    requires Threaded(s, n, |s.order|, |s.order|, false, rendered, next, head, tail)
    requires |cleared| == n && forall x | 0 <= x < n :: !cleared[x]
    ensures Threaded(s, n, 0, 0, true, cleared, next, head, tail)
  {
    forall i | 0 <= i < |s.order| ensures next[s.order[i]] == FinalLink(s, i) {
    }
  }

  /** `render_list`, `render_list_p`, and the fields `flags` (ELEMENT_RENDERED) and `render_next`
      of the elements. */
  class ElementList {
    const n: nat
    const rendered: array<bool>
    const renderNext: array<Option<nat>>
    var renderList: Option<nat>
    /** `render_list_p`: the head of the list, or the link of an element. */
    var renderListP: Option<nat>
    ghost var m: nat
    ghost var popped: nat

    ghost predicate Valid(s: Schedule, second: bool)
      reads this, rendered, renderNext
    {
      && rendered.Length == n && renderNext.Length == n
      && Threaded(s, n, m, popped, second, rendered[..], renderNext[..], renderList, renderListP)
    }

    /** The list runs empty exactly when every element of the schedule has been taken off. */
    lemma Pending(s: Schedule, second: bool)
      requires Valid(s, second) && m == s.size[popped]
      ensures renderList.Some? <==> popped < |s.order|
      ensures popped == |s.order| ==> m == |s.order|
    {
    }

    constructor (n: nat)
      ensures fresh(rendered) && fresh(renderNext) && this.n == n
      ensures rendered.Length == n && renderNext.Length == n && renderList.None? && renderListP.None?
      ensures (forall x | 0 <= x < n :: !rendered[x]) && (forall x | 0 <= x < n :: renderNext[x].None?)
    {
      this.n := n;
      rendered := new bool[n](_ => false);
      renderNext := new Option<nat>[n](_ => None);
      renderList, renderListP, m, popped := None, None, 0, 0;
    }

    /** Marks an element and appends it to the list. */
    method Enqueue(e: nat, ghost s: Schedule, ghost second: bool)
      requires Valid(s, second) && m < s.size[popped] && e == s.order[m]
      modifies this`renderList, this`renderListP, this`m, rendered, renderNext
      ensures Valid(s, second) && m == old(m) + 1
    {
      EnqueueThreaded(s, n, m, popped, second, rendered[..], renderNext[..], renderList, renderListP);
      ghost var was, links := rendered[..], renderNext[..];
      rendered[e] := true;
      if renderListP.None? {
        renderList := Some(e);
      } else {
        renderNext[renderListP.value] := Some(e);
      }
      assert rendered[..] == was[e := true];
      assert renderNext[..] == if renderListP.Some? then links[renderListP.value := Some(e)] else links;
      renderListP := Some(e);
      m := m + 1;
    }

    /** Between the passes the flags are cleared, the links are not. */
    method ClearRendered(ghost s: Schedule)
      requires Valid(s, false) && popped == |s.order|
      modifies this`m, this`popped, rendered
      ensures Valid(s, true) && m == 0 && popped == 0
    {
      ghost var was := rendered[..];
      forall x | 0 <= x < n { rendered[x] := false; }
      SecondThreaded(s, n, was, rendered[..], renderNext[..], renderList, renderListP);
      m, popped := 0, 0;
    }

    /** Takes the first element off; its own link stays. */
    method Dequeue(ghost s: Schedule, ghost second: bool) returns (e: nat)
      requires Valid(s, second) && popped < m == s.size[popped]
      modifies this`renderList, this`renderListP, this`popped
      ensures Valid(s, second) && popped == old(popped) + 1 && e == s.order[old(popped)] && e < n
    {
      DequeueThreaded(s, n, m, popped, second, rendered[..], renderNext[..], renderList, renderListP);
      e := renderList.value;
      renderList := renderNext[e];
      if renderList.None? { renderListP := None; }
      popped := popped + 1;
    }
  }
}
