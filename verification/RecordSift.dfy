/** `sift_rel_mcount`, `tot_relsize` and `do_func` of `scripts/recordmcount.h`: the calls of mcount
    are collected from the relocations of all sections into two buffers sized beforehand. */
module RecordSift {
  import opened Wrappers

  /** A relocation: `r_offset` and the symbol of `r_info`. */
  datatype Rel = Rel(offset: nat, sym: nat)

  /** What `has_rel_mcount` and the section name say: not a relocation section of code, one of a
      `__mcount_loc` that is there already, one of code that is not traced, one that is. */
  datatype Kind = Other | Already | Untraced | Traced

  /** The symbol relocations are made against: `find_secsym_ndx`. */
  datatype Base = NoBase | Base(sym: nat, value: nat)

  /** A section header, with the relocations in the section. `mcount` says which symbols are
      named like mcount. */
  datatype Section = Section(kind: Kind, size: nat, entsize: nat, rels: seq<Rel>, mcount: nat -> bool, base: Base)

  /** The target: the width `w` of an address, the relocation type, `mcount_adjust`, whether the
      second of two MIPS symbols is to be dropped, whether untraced calls are made nops, and
      whether they are to be warned of. */
  datatype Target = Target(w: nat, reltype: nat, adjust: int, mips: bool, nops: bool, warn: bool) {
    predicate Valid() { w == 4 || w == 8 }
    function RelSize(): nat { 2 * w }
    function RelaSize(): nat { 3 * w }
    function Limit(): (n: nat)
      ensures n > 1
    {
      if w == 4 then B32 else B64
    }
  }

  /** The relocations of a traced section fill it, and their size is at least that of `Elf_Rel`. */
  predicate WellFormed(t: Target, s: Section) {
    t.Valid() && s.entsize >= t.RelSize() && |s.rels| == s.size / s.entsize
  }

  // ----- Which relocations are calls -----

  /** `mcountsym` once the first `i` relocations were seen: the first symbol named like mcount. */
  function FirstSym(s: Section, i: nat): nat
    requires i <= |s.rels|
  {
    if i == 0 then 0
    else if FirstSym(s, i - 1) != 0 then FirstSym(s, i - 1)
    else if s.mcount(s.rels[i - 1].sym) then s.rels[i - 1].sym
    else 0
  }

  predicate Matched(s: Section, i: nat)
    requires i < |s.rels|
  {
    FirstSym(s, i + 1) == s.rels[i].sym
  }

  /** `old_r_offset` before relocation `i`: the offset of the last one matched. It is kept from
      section to section. */
  function OldOffset(s: Section, old0: nat, i: nat): nat
    requires i <= |s.rels|
  {
    if i == 0 then old0
    else if Matched(s, i - 1) then s.rels[i - 1].offset
    else OldOffset(s, old0, i - 1)
  }

  /** `MIPS_is_fake_mcount`; its first `old_r_offset` is all ones. */
  predicate Fake(t: Target, old0: nat, offset: nat) {
    t.mips && old0 != t.Limit() - 1 && (offset - old0) % t.Limit() == 4
  }

  predicate Picked(t: Target, s: Section, old0: nat, i: nat)
    requires i < |s.rels|
  {
    Matched(s, i) && !Fake(t, OldOffset(s, old0, i), s.rels[i].offset)
  }

  // ----- What is recorded -----

  /** A new relocation; only RELA has an addend. */
  datatype Addend = NoAddend | Addend(value: nat)
  datatype Entry = Entry(offset: nat, sym: nat, reltype: nat, addend: Addend)

  /** Both buffers: the location slots, the entries and the byte where each begins, the end. */
  datatype Record = Record(slots: seq<nat>, entries: seq<Entry>, starts: seq<nat>, end: nat)

  const EMPTY := Record([], [], [], 0)

  /** The address of a call, relative to the base symbol. */
  function CallAddress(t: Target, b: Base, offset: nat): nat
    requires b.Base?
  {
    (offset - b.value + t.adjust) % t.Limit()
  }

  function Added(t: Target, r: Record, entsize: nat, b: Base, offset: nat): Record
    requires b.Base?
  {
    var a := CallAddress(t, b, offset);
    var rela := entsize == t.RelaSize();
    Record(r.slots + [if rela then 0 else a],
           r.entries + [Entry(t.w * |r.slots|, b.sym, t.reltype, if rela then Addend(a) else NoAddend)],
           r.starts + [r.end], r.end + entsize)
  }

  /** The record after the first `i` relocations of a section. */
  function Sifted(t: Target, s: Section, r: Record, old0: nat, i: nat): Record
    requires s.base.Base? && i <= |s.rels|
  {
    if i == 0 then r
    else if Picked(t, s, old0, i - 1) then Added(t, Sifted(t, s, r, old0, i - 1), s.entsize, s.base, s.rels[i - 1].offset)
    else Sifted(t, s, r, old0, i - 1)
  }

  predicate Counts(s: Section) { s.kind.Traced? }

  /** How far `nop_mcount` goes through the relocations: to the first call, if it only warns. */
  function NopLength(t: Target, s: Section, old0: nat, i: nat): (n: nat)
    requires i <= |s.rels|
    ensures i <= n <= |s.rels|
    decreases |s.rels| - i
  {
    if i == |s.rels| then i
    else if !t.nops && Picked(t, s, old0, i) then i + 1
    else NopLength(t, s, old0, i + 1)
  }

  /** `old_r_offset` after an untraced section: `nop_mcount` compares and sets it, too. */
  function NopOffset(t: Target, s: Section, old0: nat): nat {
    if s.kind.Untraced? && (t.nops || t.warn) then OldOffset(s, old0, NopLength(t, s, old0, 0)) else old0
  }

  /** The record and the old offset after the first `k` sections. */
  datatype Progress = Progress(record: Record, old0: nat)

  function SiftedAll(t: Target, sections: seq<Section>, old0: nat, k: nat): Progress
    requires k <= |sections| && forall i | 0 <= i < k :: Counts(sections[i]) ==> sections[i].base.Base?
  {
    if k == 0 then Progress(EMPTY, old0)
    else
      var before, s := SiftedAll(t, sections, old0, k - 1), sections[k - 1];
      if Counts(s) then
        Progress(Sifted(t, s, before.record, before.old0, |s.rels|), OldOffset(s, before.old0, |s.rels|))
      else Progress(before.record, NopOffset(t, s, before.old0))
  }

  function Total(sections: seq<Section>, k: nat): nat
    requires k <= |sections|
  {
    if k == 0 then 0 else Total(sections, k - 1) + (if Counts(sections[k - 1]) then sections[k - 1].size else 0)
  }

  // ----- The buffers never overflow -----

  /** Where the room of entry `k` ends. */
  function EndOf(r: Record, k: int): nat {
    if 0 <= k && k + 1 < |r.starts| then r.starts[k + 1] else r.end
  }

  /** Two addresses of slot space never exceed the relocation space used; entry `k` points at
      slot `k`; entries do not overlap. */
  predicate Tidy(t: Target, r: Record) {
    && |r.slots| == |r.entries| == |r.starts| && 2 * (t.w * |r.slots|) <= r.end
    && (forall k | 0 <= k < |r.entries| :: r.entries[k].offset == t.w * k)
    && (forall k {:trigger EndOf(r, k)} | 0 <= k < |r.starts| :: r.starts[k] + t.RelSize() <= EndOf(r, k))
  }

  lemma AddedTidy(t: Target, r: Record, entsize: nat, b: Base, offset: nat)
    requires t.Valid() && Tidy(t, r) && entsize >= t.RelSize() && b.Base?
    ensures Tidy(t, Added(t, r, entsize, b, offset))
  {
    var n, m := Added(t, r, entsize, b, offset), |r.starts|;
    assert n.starts[m] == r.end && n.end == r.end + entsize;
    forall k | 0 <= k < |n.starts| ensures n.starts[k] + t.RelSize() <= EndOf(n, k) {
      if k < m { assert EndOf(n, k) == EndOf(r, k); }
    }
  }

  lemma {:induction false} SiftedTidy(t: Target, s: Section, r: Record, old0: nat, i: nat)
    requires WellFormed(t, s) && s.base.Base? && i <= |s.rels| && Tidy(t, r)
    ensures Tidy(t, Sifted(t, s, r, old0, i)) && r.end <= Sifted(t, s, r, old0, i).end <= r.end + s.entsize * i
  {
    if i > 0 {
      SiftedTidy(t, s, r, old0, i - 1);
      AddedTidy(t, Sifted(t, s, r, old0, i - 1), s.entsize, s.base, s.rels[i - 1].offset);
      assert s.entsize * i == s.entsize * (i - 1) + s.entsize;
    }
  }

  /** The room used only grows. */
  lemma {:induction false} SiftedGrows(t: Target, s: Section, r: Record, old0: nat, i: nat, j: nat)
    requires s.base.Base? && i <= j <= |s.rels|
    ensures Sifted(t, s, r, old0, i).end <= Sifted(t, s, r, old0, j).end
    decreases j
  {
    if i < j { SiftedGrows(t, s, r, old0, i, j - 1); }
  }

  ghost predicate Ready(t: Target, sections: seq<Section>) {
    t.Valid() && forall i | 0 <= i < |sections| :: Counts(sections[i]) ==> WellFormed(t, sections[i])
  }

  predicate Based(sections: seq<Section>, k: nat)
    requires k <= |sections|
  {
    forall i | 0 <= i < k :: Counts(sections[i]) ==> sections[i].base.Base?
  }

  lemma Whole(t: Target, s: Section)
    requires WellFormed(t, s)
    ensures s.entsize * |s.rels| <= s.size
  {
  }

  /** After `k` sections no more is used than they have relocation bytes: entries stay below
      `Total`, slots below half of it. */
  lemma {:induction false} NeverOverflows(t: Target, sections: seq<Section>, old0: nat, k: nat)
    requires Ready(t, sections) && k <= |sections| && Based(sections, k)
    ensures var r := SiftedAll(t, sections, old0, k).record;
            Tidy(t, r) && r.end <= Total(sections, k) && t.w * |r.slots| <= Total(sections, k) / 2
    decreases k
  {
    if k > 0 {
      NeverOverflows(t, sections, old0, k - 1);
      var before, s := SiftedAll(t, sections, old0, k - 1), sections[k - 1];
      if Counts(s) {
        SiftedTidy(t, s, before.record, before.old0, |s.rels|);
        Whole(t, s);
      }
    }
  }

  lemma {:induction false} TotalGrows(sections: seq<Section>, j: nat, k: nat)
    requires j <= k <= |sections|
    ensures Total(sections, j) <= Total(sections, k)
    decreases k
  {
    if j < k { TotalGrows(sections, j, k - 1); }
  }

  // ----- The buffers -----

  datatype Cell = Blank | Begin(entry: Entry)

  class Buffers {
    const t: Target
    /** The location slots, `totrelsz >> 1` bytes of them. */
    const mloc: array<nat>
    /** The new relocations, by the byte where each begins; `totrelsz` bytes. */
    const mrel: array<Cell>
    var mlocp: nat
    var mrelp: nat
    var oldOffset: nat
    ghost var record: Record

    ghost predicate Valid()
      reads this, mloc, mrel
    {
      && t.Valid() && mloc.Length == mrel.Length / 2 / t.w
      && Tidy(t, record) && mlocp == |record.slots| <= mloc.Length && mloc[..mlocp] == record.slots
      && mrelp == record.end <= mrel.Length
      && forall k | 0 <= k < |record.starts| :: record.starts[k] < mrelp && mrel[record.starts[k]] == Begin(record.entries[k])
    }

    constructor (t: Target, total: nat, old0: nat)
      requires t.Valid()
      ensures Valid() && fresh(mloc) && fresh(mrel) && record == EMPTY && this.t == t && mrel.Length == total
      ensures oldOffset == old0
    {
      this.t := t;
      mloc := new nat[total / 2 / t.w];
      mrel := new Cell[total];
      mlocp, mrelp, oldOffset, record := 0, 0, old0, EMPTY;
    }

    /** Writes one slot and one relocation, if there is room for the relocation: then there is
        room for the slot, too. Without room the program would write behind its buffer. */
    method Put(entsize: nat, b: Base, offset: nat) returns (ok: bool)
      requires Valid() && b.Base? && entsize >= t.RelSize()
      modifies this`mlocp, this`mrelp, this`record, mloc, mrel
      ensures Valid() && ok == (old(record).end + entsize <= mrel.Length)
      ensures record == if ok then Added(t, old(record), entsize, b, offset) else old(record)
    {
      ok := mrelp + entsize <= mrel.Length;
      if !ok { return; }
      AddedTidy(t, record, entsize, b, offset);
      SlotFits(t, mlocp, mrelp + entsize, mrel.Length);
      var addend := CallAddress(t, b, offset);
      if entsize == t.RelaSize() {
        mrel[mrelp] := Begin(Entry(t.w * mlocp, b.sym, t.reltype, Addend(addend)));
        mloc[mlocp] := 0;
      } else {
        mrel[mrelp] := Begin(Entry(t.w * mlocp, b.sym, t.reltype, NoAddend));
        mloc[mlocp] := addend;
      }
      mlocp, mrelp := mlocp + 1, mrelp + entsize;
      record := Added(t, record, entsize, b, offset);
    }

    /** `sift_rel_mcount`, up to the first write without room. */
    method Sift(s: Section) returns (ok: bool)
      requires Valid() && WellFormed(t, s) && s.base.Base?
      modifies this, mloc, mrel
      ensures Valid() && ok == (Sifted(t, s, old(record), old(oldOffset), |s.rels|).end <= mrel.Length)
      ensures ok ==> record == Sifted(t, s, old(record), old(oldOffset), |s.rels|)
      ensures ok ==> oldOffset == OldOffset(s, old(oldOffset), |s.rels|)
    {
      ghost var before, old0 := record, oldOffset;
      var mcountsym, i := 0, 0;
      while i < |s.rels|
        invariant i <= |s.rels| && Valid() && mcountsym == FirstSym(s, i)
        invariant oldOffset == OldOffset(s, old0, i) && record == Sifted(t, s, before, old0, i)
      {
        var rel := s.rels[i];
        if mcountsym == 0 && s.mcount(rel.sym) { mcountsym := rel.sym; }
        if mcountsym == rel.sym {
          var fake := Fake(t, oldOffset, rel.offset);
          oldOffset := rel.offset;
          if !fake {
            ok := Put(s.entsize, s.base, rel.offset);
            if !ok {
              SiftedGrows(t, s, before, old0, i + 1, |s.rels|);
              return;
            }
          }
        }
        i := i + 1;
      }
      ok := true;
    }

    /** `nop_mcount`, as far as `old_r_offset` is concerned. */
    method NopMcount(s: Section)
      requires s.kind.Untraced? && (t.nops || t.warn)
      modifies this`oldOffset
      ensures oldOffset == NopOffset(t, s, old(oldOffset))
    {
      ghost var old0 := oldOffset;
      var mcountsym, i := 0, 0;
      while i < |s.rels|
        invariant i <= |s.rels| && mcountsym == FirstSym(s, i) && oldOffset == OldOffset(s, old0, i)
        invariant NopLength(t, s, old0, 0) == NopLength(t, s, old0, i)
      {
        var rel := s.rels[i];
        if mcountsym == 0 && s.mcount(rel.sym) { mcountsym := rel.sym; }
        if mcountsym == rel.sym {
          var fake := Fake(t, oldOffset, rel.offset);
          oldOffset := rel.offset;
          if !fake && !t.nops { return; }
        }
        i := i + 1;
      }
    }

    /** What `do_func` does with one section. */
    method SiftSection(sections: seq<Section>, ghost old0: nat, k: nat) returns (fate: Fate)
      requires Valid() && Ready(t, sections) && k < |sections| && Based(sections, k)
      requires Progress(record, oldOffset) == SiftedAll(t, sections, old0, k)
      modifies this, mloc, mrel
      ensures fate.Baseless? <==> Counts(sections[k]) && sections[k].base.NoBase?
      ensures fate.Baseless? ==> oldOffset == old(oldOffset)
      ensures fate.Overran? ==> Based(sections, k + 1) && SiftedAll(t, sections, old0, k + 1).record.end > mrel.Length
      ensures fate.Passed? ==> Valid() && Based(sections, k + 1) && Progress(record, oldOffset) == SiftedAll(t, sections, old0, k + 1)
    {
      var s := sections[k];
      if s.kind.Untraced? && (t.warn || t.nops) { NopMcount(s); }
      if !Counts(s) { return Passed; }
      if s.base.NoBase? { return Baseless; }
      var ok := Sift(s);
      return if ok then Passed else Overran;
    }
  }

  datatype Fate = Passed | Baseless | Overran

  lemma SlotFits(t: Target, slots: nat, end: nat, total: nat)
    requires t.Valid() && 2 * (t.w * slots) + t.RelSize() <= end <= total
    ensures slots < total / 2 / t.w
  {
  }

  // ----- All sections -----

  predicate HasAlready(sections: seq<Section>) {
    exists i :: 0 <= i < |sections| && sections[i].kind.Already?
  }

  /** `unsigned totrelsz`: the sizes of the traced sections, in 32 bits. A `__mcount_loc` that is
      there already ends the work on the file, successfully. */
  method TotRelSize(sections: seq<Section>) returns (already: bool, total: nat)
    ensures already <==> HasAlready(sections)
    ensures !already ==> total == Total(sections, |sections|) % B32
  {
    already, total := false, 0;
    var k := 0;
    while k < |sections|
      invariant k <= |sections| && total == Total(sections, k) % B32
      invariant forall i | 0 <= i < k :: !sections[i].kind.Already?
    {
      if sections[k].kind.Already? { return true, total; }
      if Counts(sections[k]) { total := (total + sections[k].size) % B32; }
      k := k + 1;
    }
  }

  /** Every relocation of a traced section is a call, and they fill it to the last byte. */
  predicate AllCalls(sections: seq<Section>) {
    forall i | 0 <= i < |sections| && Counts(sections[i]) :: FullOfCalls(sections[i])
  }

  predicate FullOfCalls(s: Section) {
    && s.size == s.entsize * |s.rels|
    && forall i | 0 <= i < |s.rels| :: s.mcount(s.rels[i].sym) && s.rels[i].sym == s.rels[0].sym != 0
  }

  lemma {:induction false} CallsPicked(t: Target, s: Section, old0: nat, i: nat)
    requires FullOfCalls(s) && !t.mips && i < |s.rels|
    ensures Picked(t, s, old0, i) && FirstSym(s, i + 1) == s.rels[0].sym
  {
    if i > 0 { CallsPicked(t, s, old0, i - 1); }
  }

  lemma {:induction false} CallsFill(t: Target, s: Section, r: Record, old0: nat, i: nat)
    requires FullOfCalls(s) && !t.mips && s.base.Base? && i <= |s.rels|
    ensures Sifted(t, s, r, old0, i).end == r.end + s.entsize * i
  {
    if i > 0 {
      CallsFill(t, s, r, old0, i - 1);
      CallsPicked(t, s, old0, i - 1);
      assert s.entsize * i == s.entsize * (i - 1) + s.entsize;
    }
  }

  lemma {:induction false} CallsFillAll(t: Target, sections: seq<Section>, old0: nat, k: nat)
    requires AllCalls(sections) && !t.mips && k <= |sections| && Based(sections, k)
    ensures SiftedAll(t, sections, old0, k).record.end == Total(sections, k)
    decreases k
  {
    if k > 0 {
      CallsFillAll(t, sections, old0, k - 1);
      var before, s := SiftedAll(t, sections, old0, k - 1), sections[k - 1];
      if Counts(s) { CallsFill(t, s, before.record, before.old0, |s.rels|); }
    }
  }

  /** When all relocations are calls, the buffer of `tot_relsize` bytes, a sum in 32 bits, holds
      what is recorded exactly if the sum stays below 4 GiB. */
  lemma WorstCaseFits(t: Target, sections: seq<Section>, old0: nat)
    requires AllCalls(sections) && !t.mips && Based(sections, |sections|)
    ensures SiftedAll(t, sections, old0, |sections|).record.end <= Total(sections, |sections|) % B32
       <==> Total(sections, |sections|) < B32
  {
    CallsFillAll(t, sections, old0, |sections|);
  }

  /** `Overrun`: the 32-bit sum was too small, and the program has left its buffers. */
  datatype Outcome = AlreadyDone | NoBaseSymbol | Collected | Overrun

  /** The record of some first sections needs more room than there is. */
  ghost predicate Exceeds(t: Target, sections: seq<Section>, old0: nat, room: nat) {
    exists k: nat :: k <= |sections| && Based(sections, k) && SiftedAll(t, sections, old0, k).record.end > room
  }

  /** That takes relocations of 4 GiB or more. */
  lemma ExceedsOnlyLarge(t: Target, sections: seq<Section>, old0: nat)
    requires Ready(t, sections) && Exceeds(t, sections, old0, Total(sections, |sections|) % B32)
    ensures Total(sections, |sections|) >= B32
  {
    var total := Total(sections, |sections|);
    var k: nat :| k <= |sections| && Based(sections, k) && SiftedAll(t, sections, old0, k).record.end > total % B32;
    NeverOverflows(t, sections, old0, k);
    TotalGrows(sections, k, |sections|);
  }

  /** The section at which `do_func` gives up for want of a base symbol. */
  ghost predicate FirstBaseless(sections: seq<Section>, k: nat) {
    k < |sections| && Based(sections, k) && !Based(sections, k + 1)
  }

  /** `do_func` up to the call of `append_func`: how it ends, for all files. `old_r_offset` is
      static: `old0` when it comes from the files before, `after` for those that follow. */
  method DoFunc(t: Target, sections: seq<Section>, old0: nat) returns (outcome: Outcome, buffers: Buffers?, after: nat)
    requires Ready(t, sections)
    ensures outcome.AlreadyDone? <==> HasAlready(sections)
    ensures outcome.AlreadyDone? ==> after == old0
    ensures outcome.Overrun? <==> !HasAlready(sections) && Exceeds(t, sections, old0, Total(sections, |sections|) % B32)
    ensures outcome.Overrun? ==> Total(sections, |sections|) >= B32
    ensures outcome.Collected? ==>
              && Based(sections, |sections|) && buffers != null && buffers.Valid() && buffers.t == t
              && Progress(buffers.record, after) == SiftedAll(t, sections, old0, |sections|)
              && buffers.mrel.Length == Total(sections, |sections|) % B32
    ensures outcome.NoBaseSymbol? ==>
              exists k :: FirstBaseless(sections, k) && after == SiftedAll(t, sections, old0, k).old0
  {
    after := old0;
    var already, total := TotRelSize(sections);
    if already { return AlreadyDone, null, after; }
    var b := new Buffers(t, total, old0);
    var k := 0;
    while k < |sections|
      invariant k <= |sections| && b.Valid() && b.t == t && b.mrel.Length == total
      invariant fresh(b) && fresh(b.mloc) && fresh(b.mrel)
      invariant Based(sections, k) && Progress(b.record, b.oldOffset) == SiftedAll(t, sections, old0, k)
      invariant forall j: nat | j <= k && Based(sections, j) :: SiftedAll(t, sections, old0, j).record.end <= total
    {
      var fate := b.SiftSection(sections, old0, k);
      if fate.Baseless? {
        assert FirstBaseless(sections, k);
        return NoBaseSymbol, null, b.oldOffset;
      }
      if fate.Overran? {
        ExceedsOnlyLarge(t, sections, old0);
        return Overrun, null, b.oldOffset;
      }
      k := k + 1;
    }
    return Collected, b, b.oldOffset;
  }

  // ----- Which relocations are recorded -----

  /** Relocation `i` names mcount. */
  predicate Call(s: Section, i: nat)
    requires i < |s.rels|
  {
    s.mcount(s.rels[i].sym)
  }

  predicate CalledBefore(s: Section, i: nat)
    requires i <= |s.rels|
  {
    exists j: nat :: j < i && Call(s, j)
  }

  /** A relocation against symbol 0 before any call: no symbol was found yet, which is also 0. */
  predicate EarlyZero(s: Section, i: nat)
    requires i < |s.rels|
  {
    s.rels[i].sym == 0 && !CalledBefore(s, i)
  }

  /** The section names mcount by one symbol only. */
  ghost predicate OneName(s: Section) {
    forall i: nat, j: nat | i < |s.rels| && j < |s.rels| && Call(s, i) && Call(s, j) :: s.rels[i].sym == s.rels[j].sym
  }

  /** The offset of the last call, or of the last relocation taken for one, before relocation `i`. */
  function LastTaken(s: Section, old0: nat, i: nat): nat
    requires i <= |s.rels|
  {
    if i == 0 then old0
    else if Call(s, i - 1) || EarlyZero(s, i - 1) then s.rels[i - 1].offset
    else LastTaken(s, old0, i - 1)
  }

  lemma {:induction false} FirstSymIs(s: Section, i: nat)
    requires i <= |s.rels| && !s.mcount(0)
    ensures FirstSym(s, i) != 0 ==> exists j: nat :: j < i && Call(s, j) && s.rels[j].sym == FirstSym(s, i)
    ensures FirstSym(s, i) == 0 <==> !CalledBefore(s, i)
  {
    if i > 0 {
      FirstSymIs(s, i - 1);
      if Call(s, i - 1) { assert CalledBefore(s, i); }
      if CalledBefore(s, i - 1) { assert CalledBefore(s, i); }
    }
  }

  lemma {:induction false} FirstSymStays(s: Section, i: nat, j: nat)
    requires i <= j <= |s.rels| && FirstSym(s, i) != 0
    ensures FirstSym(s, j) == FirstSym(s, i)
    decreases j
  {
    if i < j { FirstSymStays(s, i, j - 1); }
  }

  /** What is matched: a call by the first name of mcount, or an early symbol 0. */
  lemma MatchedIff(s: Section, i: nat)
    requires !s.mcount(0) && i < |s.rels|
    ensures Matched(s, i) <==> EarlyZero(s, i) || (Call(s, i) && s.rels[i].sym == FirstSym(s, i + 1))
  {
    FirstSymIs(s, i);
    FirstSymIs(s, i + 1);
  }

  lemma {:induction false} OldOffsetIs(s: Section, old0: nat, i: nat)
    requires !s.mcount(0) && i <= |s.rels| && (OneName(s) || !CalledBefore(s, i))
    ensures OldOffset(s, old0, i) == LastTaken(s, old0, i)
  {
    if i > 0 {
      if CalledBefore(s, i - 1) { assert CalledBefore(s, i); }
      OldOffsetIs(s, old0, i - 1);
      MatchedIff(s, i - 1);
      FirstSymIs(s, i);
      if Call(s, i - 1) { assert CalledBefore(s, i); }
    }
  }

  /** In a section with one name for mcount: recorded are the calls and the early symbols 0, but on
      MIPS none that is 4 bytes behind the one before it. */
  lemma RecordedIff(t: Target, s: Section, old0: nat, i: nat)
    requires !s.mcount(0) && i < |s.rels| && (OneName(s) || EarlyZero(s, i))
    ensures Picked(t, s, old0, i) <==>
            (Call(s, i) || EarlyZero(s, i)) && !Fake(t, LastTaken(s, old0, i), s.rels[i].offset)
  {
    OldOffsetIs(s, old0, i);
    MatchedIff(s, i);
    FirstSymIs(s, i + 1);
    if Call(s, i) { assert CalledBefore(s, i + 1); }
  }

  ghost predicate OnlyCallsRecorded(t: Target, s: Section, old0: nat) {
    forall i: nat | i < |s.rels| && Picked(t, s, old0, i) :: Call(s, i)
  }

  ghost predicate AllCallsRecorded(t: Target, s: Section, old0: nat) {
    forall i: nat | i < |s.rels| && Call(s, i) :: Picked(t, s, old0, i)
  }

  /** Only calls of mcount are recorded, exactly if no relocation against symbol 0 comes before the
      first call; on MIPS it may if it is 4 bytes behind the one before it. */
  lemma OnlyCallsIff(t: Target, s: Section, old0: nat)
    requires !s.mcount(0)
    ensures OnlyCallsRecorded(t, s, old0)
       <==> forall i: nat | i < |s.rels| && EarlyZero(s, i) :: Fake(t, LastTaken(s, old0, i), s.rels[i].offset)
  {
    forall i: nat | i < |s.rels|
      ensures Picked(t, s, old0, i) && !Call(s, i) <==> EarlyZero(s, i) && !Fake(t, LastTaken(s, old0, i), s.rels[i].offset)
    {
      MatchedIff(s, i);
      if EarlyZero(s, i) { RecordedIff(t, s, old0, i); }
    }
  }

  /** All calls of mcount are recorded, exactly if they use one symbol and, on MIPS, none is 4 bytes
      behind the one before it. */
  lemma AllCallsIff(t: Target, s: Section, old0: nat)
    requires !s.mcount(0)
    ensures AllCallsRecorded(t, s, old0)
       <==> OneName(s) && forall i: nat | i < |s.rels| && Call(s, i) :: !Fake(t, LastTaken(s, old0, i), s.rels[i].offset)
  {
    if AllCallsRecorded(t, s, old0) { AllRecordedOneName(t, s, old0); }
    if OneName(s) {
      forall i: nat | i < |s.rels| && Call(s, i)
        ensures Picked(t, s, old0, i) <==> !Fake(t, LastTaken(s, old0, i), s.rels[i].offset)
      {
        RecordedIff(t, s, old0, i);
      }
    }
  }

  lemma AllRecordedOneName(t: Target, s: Section, old0: nat)
    requires !s.mcount(0) && AllCallsRecorded(t, s, old0)
    ensures OneName(s)
  {
    forall i: nat | i < |s.rels| && Call(s, i) ensures s.rels[i].sym == FirstSym(s, |s.rels|) {
      assert Picked(t, s, old0, i);
      assert FirstSym(s, i + 1) == s.rels[i].sym != 0;
      FirstSymStays(s, i + 1, |s.rels|);
    }
  }

  // ----- Sections for which it goes wrong -----

  /** A relocation against symbol 0 at the start of a section is recorded as a call. */
  lemma EarlyZeroRecorded(t: Target, base: Base)
    requires t.Valid() && !t.mips
    ensures var s := Section(Traced, 2 * t.RelSize(), t.RelSize(), [Rel(0, 0), Rel(16, 7)], x => x == 7, base);
            WellFormed(t, s) && Picked(t, s, t.Limit() - 1, 0) && !Call(s, 0)
  {
  }

  /** A call by a second name, say `__fentry__` after `mcount`, is not recorded. */
  lemma SecondNameMissed(t: Target, base: Base)
    requires t.Valid()
    ensures var s := Section(Traced, 2 * t.RelSize(), t.RelSize(), [Rel(0, 7), Rel(16, 8)], x => x == 7 || x == 8, base);
            WellFormed(t, s) && Call(s, 1) && !Picked(t, s, t.Limit() - 1, 1)
  {
    var s := Section(Traced, 2 * t.RelSize(), t.RelSize(), [Rel(0, 7), Rel(16, 8)], x => x == 7 || x == 8, base);
    assert FirstSym(s, 1) == 7;
  }

  /** On MIPS a call is missed because the file before ended with one 4 bytes below it. */
  lemma EarlierFileHidesCall(t: Target, base: Base)
    requires t.Valid() && t.mips
    ensures var s := Section(Traced, t.RelSize(), t.RelSize(), [Rel(4, 7)], x => x == 7, base);
            WellFormed(t, s) && Call(s, 0) && Picked(t, s, t.Limit() - 1, 0) && !Picked(t, s, 0, 0)
  {
    var s := Section(Traced, t.RelSize(), t.RelSize(), [Rel(4, 7)], x => x == 7, base);
    assert FirstSym(s, 1) == 7;
  }

  /** A section of 2^28 calls, 2 GiB of relocations of a 32-bit file. */
  function HugeSection(base: Base): Section {
    Section(Traced, 0x8000_0000, 8, seq(0x1000_0000, _ => Rel(0, 7)), x => x == 7, base)
  }

  /** Two of them: the sum in 32 bits is 0, and the first call is written behind the buffer. */
  lemma TwoHugeOverrun(t: Target, old0: nat, base: Base)
    requires t.w == 4 && !t.mips && base.Base?
    ensures var sections := [HugeSection(base), HugeSection(base)];
            Ready(t, sections) && Total(sections, 2) % B32 == 0 && Exceeds(t, sections, old0, 0)
  {
    var sections := [HugeSection(base), HugeSection(base)];
    assert Total(sections, 0) == 0;
    assert Total(sections, 1) == Total(sections, 0) + 0x8000_0000;
    assert Total(sections, 2) == Total(sections, 1) + 0x8000_0000;
    WorstCaseFits(t, sections, old0);
    assert Based(sections, 2);
  }
}
