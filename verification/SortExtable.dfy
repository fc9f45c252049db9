/** The sorting of relative exception tables in `scripts/sortextable.c`. Each word of an entry is
    an address relative to the word itself, so entries are made relative to the table, sorted,
    and made relative to their words again. */
module SortExtable {
  import opened Wrappers

  /** `(int32_t)`. */
  function Signed(x: u32): int { if x < 0x8000_0000 then x else x - 0x1_0000_0000 }

  // ----- Tables -----

  /** An entry has two words, or three on x86. */
  datatype Shape = Pairs | Triples {
    function Words(): nat { if Pairs? then 2 else 3 }
    /** The word at which entry `j` starts. */
    function Start(j: nat): nat { if Pairs? then 2 * j else 3 * j }
    function Count(words: nat): nat { if Pairs? then words / 2 else words / 3 }
    predicate Fits(words: nat) { words == Start(Count(words)) }
  }

  type Entry = seq<u32>

  function Entries(shape: Shape, s: seq<u32>): (es: seq<Entry>)
    requires shape.Fits(|s|)
    ensures |es| == shape.Count(|s|)
    ensures forall j | 0 <= j < |es| :: es[j] == s[shape.Start(j)..shape.Start(j) + shape.Words()]
  {
    seq(shape.Count(|s|), j requires 0 <= j < shape.Count(|s|) => s[shape.Start(j)..shape.Start(j) + shape.Words()])
  }

  /** The addresses a table stands for: each word plus its own place, in bytes. */
  function Absolute(s: seq<u32>): (a: seq<u32>)
    ensures |a| == |s|
  {
    seq(|s|, p requires 0 <= p < |s| => Wrap32(s[p] + 4 * p))
  }

  function Relative(s: seq<u32>): (a: seq<u32>)
    ensures |a| == |s|
  {
    seq(|s|, p requires 0 <= p < |s| => Wrap32(s[p] - 4 * p))
  }

  /** Making a table relative loses nothing, whatever its words were. */
  lemma AbsoluteRelative(s: seq<u32>)
    ensures Absolute(Relative(s)) == s && Relative(Absolute(s)) == s
  {
    forall p | 0 <= p < |s| ensures Absolute(Relative(s))[p] == s[p] && Relative(Absolute(s))[p] == s[p] {
      WrapBack(s[p], 4 * p);
    }
  }

  lemma WrapBack(x: u32, d: int)
    ensures Wrap32(Wrap32(x - d) + d) == x && Wrap32(Wrap32(x + d) - d) == x
  {
  }

  /** The address word `p` stands for, in a table that begins at `base`. */
  function Address(base: int, s: seq<u32>, p: nat): u32
    requires p < |s|
  {
    Wrap32(base + 4 * p + s[p])
  }

  /** Made absolute, every word is the address it stands for, counted from the start of the table. */
  lemma AbsoluteIsAddress(base: int, s: seq<u32>, p: nat)
    requires p < |s|
    ensures Wrap32(base + Absolute(s)[p]) == Address(base, s, p)
  {
    var x: int := s[p] + 4 * p;
    assert x == B32 * (x / B32) + x % B32;
    assert base + x == B32 * (x / B32) + (base + x % B32);
  }

  /** `(int32_t)` takes every 32-bit number back from its word. */
  lemma SignedIs(v: int)
    requires -0x8000_0000 <= v < 0x8000_0000
    ensures Signed(Wrap32(v)) == v
  {
    if v < 0 { assert Wrap32(v) == v + B32; }
  }

  /** The order of `compare_relative_table`. */
  predicate Ascending(es: seq<Entry>) {
    && (forall i | 0 <= i < |es| :: es[i] != [])
    && (forall i, j | 0 <= i < j < |es| :: Signed(es[i][0]) <= Signed(es[j][0]))
  }

  // ----- qsort -----

  function Compare(a: Entry, b: Entry): int
    requires a != [] && b != []
  {
    if Signed(a[0]) < Signed(b[0]) then -1 else if Signed(a[0]) > Signed(b[0]) then 1 else 0
  }

  function Insert(e: Entry, es: seq<Entry>): seq<Entry>
    requires e != [] && forall i | 0 <= i < |es| :: es[i] != []
  {
    if es == [] then [e]
    else if Compare(e, es[0]) <= 0 then [e] + es
    else [es[0]] + Insert(e, es[1..])
  }

  /** The first entry after an insertion is the new one or the old first one. */
  lemma InsertFirst(e: Entry, es: seq<Entry>)
    requires e != [] && forall i | 0 <= i < |es| :: es[i] != []
    ensures Insert(e, es) != [] && (Insert(e, es)[0] == e || (es != [] && Insert(e, es)[0] == es[0]))
  {
  }

  lemma {:induction false} InsertAscending(e: Entry, es: seq<Entry>)
    requires e != [] && Ascending(es)
    ensures Ascending(Insert(e, es))
    decreases |es|
  {
    if es == [] {
    } else if Compare(e, es[0]) <= 0 {
      FirstIsLeast(e, es);
    } else {
      InsertAscending(e, es[1..]);
      InsertFirst(e, es[1..]);
      FirstIsLeast(es[0], Insert(e, es[1..]));
    }
  }

  lemma FirstIsLeast(e: Entry, rest: seq<Entry>)
    requires e != [] && Ascending(rest)
    requires (rest != [] ==> Signed(e[0]) <= Signed(rest[0][0]))
    ensures Ascending([e] + rest)
  {
    var all := [e] + rest;
    forall i, j | 0 <= i < j < |all| ensures Signed(all[i][0]) <= Signed(all[j][0]) {
      assert all[j] == rest[j - 1];
      if i == 0 { assert Signed(rest[0][0]) <= Signed(rest[j - 1][0]); } else { assert all[i] == rest[i - 1]; }
    }
  }

  lemma {:induction false} InsertSame(e: Entry, es: seq<Entry>)
    requires e != [] && forall i | 0 <= i < |es| :: es[i] != []
    ensures multiset(Insert(e, es)) == multiset(es) + multiset{e}
    decreases |es|
  {
    if es != [] && Compare(e, es[0]) > 0 {
      InsertSame(e, es[1..]);
      assert es == [es[0]] + es[1..];
    }
  }

  lemma InsertKeeps(e: Entry, es: seq<Entry>)
    requires e != [] && Ascending(es)
    ensures Ascending(Insert(e, es)) && multiset(Insert(e, es)) == multiset(es) + multiset{e}
  {
    InsertAscending(e, es);
    InsertSame(e, es);
  }

  lemma InsertMore(es: seq<Entry>, i: nat, sorted: seq<Entry>)
    requires i < |es| && es[i] != [] && Ascending(sorted) && multiset(sorted) == multiset(es[..i])
    ensures Ascending(Insert(es[i], sorted)) && multiset(Insert(es[i], sorted)) == multiset(es[..i + 1])
  {
    assert es[..i + 1] == es[..i] + [es[i]];
    InsertKeeps(es[i], sorted);
  }

  method SortEntries(es: seq<Entry>) returns (sorted: seq<Entry>)
    requires forall j | 0 <= j < |es| :: es[j] != []
    ensures Ascending(sorted) && multiset(sorted) == multiset(es)
  {
    sorted := [];
    var i := 0;
    assert es[..|es|] == es;
    while i < |es|
      invariant i <= |es| && Ascending(sorted) && multiset(sorted) == multiset(es[..i])
    {
      InsertMore(es, i, sorted);
      sorted := Insert(es[i], sorted);
      i := i + 1;
    }
  }

  /** `qsort` as the C library promises it: a permutation of the entries, in ascending order.
      Which permutation, for equal entries, is left open by the contract. */
  method QSort(image: array<u32>, shape: Shape)
    requires shape.Fits(image.Length)
    modifies image
    ensures Ascending(Entries(shape, image[..]))
    ensures multiset(Entries(shape, image[..])) == multiset(old(Entries(shape, image[..])))
  {
    var es := Entries(shape, image[..]);
    var sorted := SortEntries(es);
    Sizes(es, sorted, shape.Words());
    Store(image, shape, sorted);
  }

  lemma Sizes(es: seq<Entry>, sorted: seq<Entry>, k: nat)
    requires multiset(sorted) == multiset(es) && forall j | 0 <= j < |es| :: |es[j]| == k
    ensures |sorted| == |es| && forall j | 0 <= j < |sorted| :: |sorted[j]| == k
  {
    assert |multiset(sorted)| == |multiset(es)|;
    forall j | 0 <= j < |sorted| ensures |sorted[j]| == k {
      assert sorted[j] in multiset(es);
    }
  }

  method Store(image: array<u32>, shape: Shape, es: seq<Entry>)
    requires shape.Fits(image.Length) && |es| == shape.Count(image.Length)
    requires forall j | 0 <= j < |es| :: |es[j]| == shape.Words()
    modifies image
    ensures Entries(shape, image[..]) == es
  {
    var j := 0;
    while j < |es|
      invariant j <= |es|
      invariant forall i | 0 <= i < j :: image[shape.Start(i)..shape.Start(i) + shape.Words()] == es[i]
    {
      var at := shape.Start(j);
      image[at], image[at + 1] := es[j][0], es[j][1];
      if shape.Triples? { image[at + 2] := es[j][2]; }
      j := j + 1;
    }
  }

  // ----- The two sorts -----

  /** The first loop of `sort_relative_table`. */
  method Normalize(image: array<u32>)
    modifies image
    ensures image[..] == Absolute(old(image[..]))
  {
    ghost var table := image[..];
    var i := 0;
    while i < image.Length
      invariant i <= image.Length
      invariant forall p | 0 <= p < i :: image[p] == Absolute(table)[p]
      invariant forall p | i <= p < image.Length :: image[p] == table[p]
    {
      image[i] := Wrap32(image[i] + 4 * i);
      i := i + 1;
    }
  }

  /** Its second loop. */
  method Denormalize(image: array<u32>)
    modifies image
    ensures image[..] == Relative(old(image[..]))
  {
    ghost var table := image[..];
    var i := 0;
    while i < image.Length
      invariant i <= image.Length
      invariant forall p | 0 <= p < i :: image[p] == Relative(table)[p]
      invariant forall p | i <= p < image.Length :: image[p] == table[p]
    {
      image[i] := Wrap32(image[i] - 4 * i);
      i := i + 1;
    }
  }

  /** `sort_relative_table`: the same addresses in entries of the same form, in ascending order. */
  method SortRelativeTable(image: array<u32>)
    requires Pairs.Fits(image.Length)
    modifies image
    ensures Ascending(Entries(Pairs, Absolute(image[..])))
    ensures multiset(Entries(Pairs, Absolute(image[..]))) == multiset(old(Entries(Pairs, Absolute(image[..]))))
  {
    Normalize(image);
    QSort(image, Pairs);
    AbsoluteRelative(image[..]);
    Denormalize(image);
  }

  /** The first loop of `x86_sort_relative_table`, three words at a time. */
  method X86Normalize(image: array<u32>)
    requires Triples.Fits(image.Length)
    modifies image
    ensures image[..] == Absolute(old(image[..]))
  {
    ghost var table, j := image[..], 0;
    var i := 0;
    while i < image.Length
      invariant i == 3 * j <= image.Length
      invariant forall p | 0 <= p < i :: image[p] == Absolute(table)[p]
      invariant forall p | i <= p < image.Length :: image[p] == table[p]
    {
      image[i] := Wrap32(image[i] + 4 * i);
      image[i + 1] := Wrap32(image[i + 1] + 4 * i + 4);
      image[i + 2] := Wrap32(image[i + 2] + 4 * i + 8);
      i, j := i + 3, j + 1;
    }
  }

  /** Its second loop. */
  method X86Denormalize(image: array<u32>)
    requires Triples.Fits(image.Length)
    modifies image
    ensures image[..] == Relative(old(image[..]))
  {
    ghost var table, j := image[..], 0;
    var i := 0;
    while i < image.Length
      invariant i == 3 * j <= image.Length
      invariant forall p | 0 <= p < i :: image[p] == Relative(table)[p]
      invariant forall p | i <= p < image.Length :: image[p] == table[p]
    {
      image[i] := Wrap32(image[i] - 4 * i);
      image[i + 1] := Wrap32(image[i + 1] - (4 * i + 4));
      image[i + 2] := Wrap32(image[i + 2] - (4 * i + 8));
      i, j := i + 3, j + 1;
    }
  }

  /** `x86_sort_relative_table`. */
  method X86SortRelativeTable(image: array<u32>)
    requires Triples.Fits(image.Length)
    modifies image
    ensures Ascending(Entries(Triples, Absolute(image[..])))
    ensures multiset(Entries(Triples, Absolute(image[..]))) == multiset(old(Entries(Triples, Absolute(image[..]))))
  {
    X86Normalize(image);
    QSort(image, Triples);
    AbsoluteRelative(image[..]);
    X86Denormalize(image);
  }
}
