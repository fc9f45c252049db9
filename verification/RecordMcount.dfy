/** `do_func` of `scripts/recordmcount.h` as a whole: the calls collected from the sections, in bytes,
    and what a reader finds of them in the file written. */
module RecordMcount {
  import opened Wrappers
  import opened RecordFile
  import opened RecordAppend
  import S = RecordSift

  // ----- The record in bytes -----

  /** Where item `k` of an array begins. */
  function ItemAt(size: nat, k: nat): (at: nat)
    ensures k > 0 ==> at >= size
  {
    if k == 0 then 0 else ItemAt(size, k - 1) + size
  }

  /** `Elf_r_info`; a 64-bit MIPS stores the symbol first in either byte order. */
  function InfoBytes(f: Format, mips: bool, sym: nat, reltype: nat): (b: seq<byte>)
    ensures |b| == f.W()
  {
    if mips && f.wide then Word(f, sym, 4) + [0, 0, 0, reltype % 256]
    else if f.wide then Word(f, sym * B32 + reltype, 8)
    else Word(f, sym * 256 + reltype % 256, 4)
  }

  function EntryBytes(f: Format, mips: bool, e: S.Entry): (b: seq<byte>)
    ensures |b| == if e.addend.Addend? then 3 * f.W() else 2 * f.W()
  {
    Word(f, e.offset, f.W()) + InfoBytes(f, mips, e.sym, e.reltype)
    + match e.addend { case NoAddend => [] case Addend(a) => Word(f, a, f.W()) }
  }

  function LocBytes(f: Format, slots: seq<nat>): (b: seq<byte>)
    ensures |b| == ItemAt(f.W(), |slots|)
  {
    if slots == [] then []
    else LocBytes(f, slots[..|slots| - 1]) + Word(f, slots[|slots| - 1], f.W())
  }

  function EntrySize(f: Format, e: S.Entry): nat { if e.addend.Addend? then 3 * f.W() else 2 * f.W() }

  /** The size of the first `k` relocations. */
  function SizeOf(f: Format, entries: seq<S.Entry>, k: nat): nat
    requires k <= |entries|
  {
    if k == 0 then 0 else SizeOf(f, entries, k - 1) + EntrySize(f, entries[k - 1])
  }

  /** The first `k` relocations one after the other, each in its own size. */
  function BytesOf(f: Format, mips: bool, entries: seq<S.Entry>, k: nat): (b: seq<byte>)
    requires k <= |entries|
    ensures |b| == SizeOf(f, entries, k)
  {
    if k == 0 then [] else BytesOf(f, mips, entries, k - 1) + EntryBytes(f, mips, entries[k - 1])
  }

  function RelBytes(f: Format, mips: bool, entries: seq<S.Entry>): (b: seq<byte>)
    ensures |b| == SizeOf(f, entries, |entries|)
  {
    BytesOf(f, mips, entries, |entries|)
  }

  lemma PieceAppend(b: seq<byte>, p: nat, c: seq<byte>, d: seq<byte>)
    requires PieceAt(b, p, c)
    ensures PieceAt(b + d, p, c)
  {
  }

  lemma PieceLast(b: seq<byte>, d: seq<byte>)
    ensures PieceAt(b + d, |b|, d)
  {
  }

  lemma PieceOfPiece(out: seq<byte>, p: nat, b: seq<byte>, q: nat, c: seq<byte>)
    requires PieceAt(out, p, b) && PieceAt(b, q, c)
    ensures PieceAt(out, p + q, c)
  {
    forall i | 0 <= i < |c| ensures out[p + q + i] == c[i] {
      assert b[q + i] == c[i];
    }
  }

  lemma {:induction false} LocPiece(f: Format, slots: seq<nat>, k: nat)
    requires k < |slots|
    ensures PieceAt(LocBytes(f, slots), ItemAt(f.W(), k), Word(f, slots[k], f.W()))
    decreases |slots|
  {
    var n := |slots| - 1;
    if k < n {
      LocPiece(f, slots[..n], k);
      PieceAppend(LocBytes(f, slots[..n]), ItemAt(f.W(), k), Word(f, slots[k], f.W()), Word(f, slots[n], f.W()));
    } else {
      PieceLast(LocBytes(f, slots[..n]), Word(f, slots[n], f.W()));
    }
  }

  lemma {:induction false} BytesPiece(f: Format, mips: bool, entries: seq<S.Entry>, k: nat, n: nat)
    requires k < n <= |entries|
    ensures PieceAt(BytesOf(f, mips, entries, n), SizeOf(f, entries, k), EntryBytes(f, mips, entries[k]))
    decreases n
  {
    var front, last := BytesOf(f, mips, entries, n - 1), EntryBytes(f, mips, entries[n - 1]);
    if k < n - 1 {
      BytesPiece(f, mips, entries, k, n - 1);
      PieceAppend(front, SizeOf(f, entries, k), EntryBytes(f, mips, entries[k]), last);
    } else {
      PieceLast(front, last);
    }
  }

  // ----- The record in the buffers -----

  /** The size of a relocation is that of `Elf_Rel` or `Elf_Rela`. */
  predicate Regular(f: Format, entsize: nat) { entsize == 2 * f.W() || entsize == 3 * f.W() }

  predicate AllRegular(f: Format, sections: seq<S.Section>) {
    forall i | 0 <= i < |sections| && S.Counts(sections[i]) :: Regular(f, sections[i].entsize)
  }

  /** The relocations stand side by side, each for one slot, with values that fit their words. */
  ghost predicate Dense(f: Format, t: S.Target, r: S.Record) {
    && |r.slots| == |r.entries| == |r.starts| && r.end == SizeOf(f, r.entries, |r.entries|)
    && (forall k | 0 <= k < |r.starts| :: r.starts[k] == SizeOf(f, r.entries, k))
    && forall k | 0 <= k < |r.slots| :: r.slots[k] < t.Limit()
  }

  lemma AddedDense(f: Format, t: S.Target, r: S.Record, entsize: nat, b: S.Base, offset: nat)
    requires Dense(f, t, r) && t.w == f.W() && b.Base? && Regular(f, entsize)
    ensures Dense(f, t, S.Added(t, r, entsize, b, offset))
  {
    var next := S.Added(t, r, entsize, b, offset);
    forall k | 0 <= k <= |r.entries| ensures SizeOf(f, next.entries, k) == SizeOf(f, r.entries, k) {
      SizeKept(f, r.entries, next.entries, k);
    }
  }

  lemma {:induction false} SizeKept(f: Format, entries: seq<S.Entry>, longer: seq<S.Entry>, k: nat)
    requires entries <= longer && k <= |entries|
    ensures SizeOf(f, longer, k) == SizeOf(f, entries, k)
  {
    if k > 0 { SizeKept(f, entries, longer, k - 1); }
  }

  lemma {:induction false} SiftedDense(f: Format, t: S.Target, s: S.Section, r: S.Record, old0: nat, i: nat)
    requires Dense(f, t, r) && t.w == f.W() && Regular(f, s.entsize)
    requires s.base.Base? && i <= |s.rels|
    ensures Dense(f, t, S.Sifted(t, s, r, old0, i))
  {
    if i > 0 {
      SiftedDense(f, t, s, r, old0, i - 1);
      if S.Picked(t, s, old0, i - 1) {
        AddedDense(f, t, S.Sifted(t, s, r, old0, i - 1), s.entsize, s.base, s.rels[i - 1].offset);
      }
    }
  }

  lemma {:induction false} AllDense(f: Format, t: S.Target, sections: seq<S.Section>, old0: nat, k: nat)
    requires AllRegular(f, sections) && t.w == f.W() && k <= |sections| && S.Based(sections, k)
    ensures Dense(f, t, S.SiftedAll(t, sections, old0, k).record)
    decreases k
  {
    if k > 0 {
      AllDense(f, t, sections, old0, k - 1);
      var before, s := S.SiftedAll(t, sections, old0, k - 1), sections[k - 1];
      if S.Counts(s) { SiftedDense(f, t, s, before.record, before.old0, |s.rels|); }
    }
  }

  /** `n` relocations in the buffer, from byte `at` on. */
  function EntriesIn(f: Format, cells: seq<S.Cell>, at: nat, n: nat): seq<S.Entry>
    decreases n
  {
    if n == 0 || at >= |cells| || cells[at].Blank? then []
    else [cells[at].entry] + EntriesIn(f, cells, at + EntrySize(f, cells[at].entry), n - 1)
  }

  /** Relocation `k` begins where the sizes of those before it add up to. */
  predicate BeginsAt(f: Format, cells: seq<S.Cell>, entries: seq<S.Entry>, k: nat)
    requires k < |entries|
  {
    SizeOf(f, entries, k) < |cells| && cells[SizeOf(f, entries, k)] == S.Begin(entries[k])
  }

  lemma FirstEntryIn(f: Format, cells: seq<S.Cell>, at: nat, n: nat, e: S.Entry)
    requires n > 0 && at < |cells| && cells[at] == S.Begin(e)
    ensures EntriesIn(f, cells, at, n) == [e] + EntriesIn(f, cells, at + EntrySize(f, e), n - 1)
  {
  }

  lemma FrontOff<T>(s: seq<T>, k: nat)
    requires k < |s|
    ensures s[k..] == [s[k]] + s[k + 1..]
  {
  }

  lemma {:induction false} EntriesInAre(f: Format, cells: seq<S.Cell>, entries: seq<S.Entry>, k: nat, at: nat, n: nat)
    requires forall j: nat | j < |entries| :: BeginsAt(f, cells, entries, j)
    requires k + n == |entries| && at == SizeOf(f, entries, k)
    ensures EntriesIn(f, cells, at, n) == entries[k..]
    decreases n
  {
    if n > 0 {
      var e := entries[k];
      EntriesInAre(f, cells, entries, k + 1, at + EntrySize(f, e), n - 1);
      assert BeginsAt(f, cells, entries, k);
      FirstEntryIn(f, cells, at, n, e);
      FrontOff(entries, k);
    }
  }

  lemma BufferHolds(f: Format, b: S.Buffers)
    requires b.Valid() && Dense(f, b.t, b.record)
    ensures EntriesIn(f, b.mrel[..], 0, b.mlocp) == b.record.entries
  {
    var cells, entries := b.mrel[..], b.record.entries;
    forall j: nat | j < |entries| ensures BeginsAt(f, cells, entries, j) {
      assert b.record.starts[j] == SizeOf(f, entries, j);
    }
    EntriesInAre(f, cells, entries, 0, 0, b.mlocp);
    assert entries[0..] == entries;
  }

  /** `rel_entsize` at the end: that of the last traced section. */
  function LastEntsize(sections: seq<S.Section>): nat {
    if sections == [] then 0
    else
      var last := sections[|sections| - 1];
      if S.Counts(last) then last.entsize else LastEntsize(sections[..|sections| - 1])
  }

  lemma {:induction false} LastEntsizeFits(f: Format, sections: seq<S.Section>)
    requires AllRegular(f, sections)
    ensures LastEntsize(sections) < Pow256(f.W())
    decreases |sections|
  {
    if sections == [] {
    } else if S.Counts(sections[|sections| - 1]) {
      assert Regular(f, sections[|sections| - 1].entsize);
      WordLarge(f);
    } else {
      LastEntsizeFits(f, sections[..|sections| - 1]);
    }
  }

  lemma WordLarge(f: Format)
    ensures Pow256(f.W()) >= B32
  {
    assert Pow256(4) == B32;
    assert Pow256(8) == 256 * 256 * 256 * 256 * Pow256(4);
  }

  // ----- What a reader finds -----

  /** A reader of the word at `at` finds `x`. */
  predicate IsWord(f: Format, out: seq<byte>, at: nat, x: nat) {
    at + f.W() <= |out| && Read(f, out, at, f.W()) == x
  }

  /** The slots stand at `locs`, a word each. */
  ghost predicate SlotsAt(f: Format, out: seq<byte>, locs: nat, slots: seq<nat>) {
    forall k: nat | k < |slots| :: IsWord(f, out, locs + ItemAt(f.W(), k), slots[k])
  }

  /** A reader who takes relocations of `entsize` bytes finds `e` as number `k`. */
  predicate EntryAt(f: Format, mips: bool, out: seq<byte>, rels: nat, entsize: nat, k: nat, e: S.Entry) {
    EntrySize(f, e) == entsize && PieceAt(out, rels + ItemAt(entsize, k), EntryBytes(f, mips, e))
  }

  ghost predicate EntriesAt(f: Format, mips: bool, out: seq<byte>, rels: nat, entsize: nat, entries: seq<S.Entry>) {
    forall k: nat | k < |entries| :: EntryAt(f, mips, out, rels, entsize, k, entries[k])
  }

  predicate SameSize(f: Format, entries: seq<S.Entry>, entsize: nat) {
    forall k | 0 <= k < |entries| :: EntrySize(f, entries[k]) == entsize
  }

  lemma {:induction false} SameSizeAt(f: Format, entries: seq<S.Entry>, entsize: nat, k: nat)
    requires SameSize(f, entries, entsize) && k <= |entries|
    ensures SizeOf(f, entries, k) == ItemAt(entsize, k)
  {
    if k > 0 { SameSizeAt(f, entries, entsize, k - 1); }
  }

  /** Relocations written one after the other are found in steps of `entsize`, if and only if all of
      them have that size. */
  lemma EntriesAtIff(f: Format, mips: bool, out: seq<byte>, rels: nat, entsize: nat, entries: seq<S.Entry>)
    requires PieceAt(out, rels, RelBytes(f, mips, entries))
    ensures EntriesAt(f, mips, out, rels, entsize, entries) <==> SameSize(f, entries, entsize)
  {
    if EntriesAt(f, mips, out, rels, entsize, entries) {
      forall k | 0 <= k < |entries| ensures EntrySize(f, entries[k]) == entsize {
        assert EntryAt(f, mips, out, rels, entsize, k, entries[k]);
      }
    }
    if SameSize(f, entries, entsize) {
      forall k: nat | k < |entries| ensures EntryAt(f, mips, out, rels, entsize, k, entries[k]) {
        SameSizeAt(f, entries, entsize, k);
        BytesPiece(f, mips, entries, k, |entries|);
        PieceOfPiece(out, rels, RelBytes(f, mips, entries), ItemAt(entsize, k), EntryBytes(f, mips, entries[k]));
      }
    }
  }

  /** The section header at `at` gives this offset and this size. */
  predicate PointsTo(f: Format, out: seq<byte>, at: nat, offset: nat, size: nat) {
    && at + f.ShdrSize() <= |out|
    && Read(f, out, at + f.OffsetAt(), f.W()) == offset && Read(f, out, at + f.SizeAt(), f.W()) == size
  }

  /** The header at `at` is that of the locations. */
  predicate LocHeader(f: Format, out: seq<byte>, at: nat, offset: nat, size: nat) {
    PointsTo(f, out, at, offset, size) && MarksOf(f, out, at, LocMarks(f))
  }

  /** The header at `at` is that of the relocations, for the section before. */
  predicate RelHeader(f: Format, out: seq<byte>, at: nat, offset: nat, size: nat, shnum: nat, entsize: nat, link: nat) {
    && PointsTo(f, out, at, offset, size) && MarksOf(f, out, at, RelMarks(f, shnum, entsize, link))
    && Read(f, out, at + f.EntsizeAt(), f.W()) == entsize
  }

  /** The relocations are found in steps of `entsize` exactly if all have that size. */
  ghost predicate StepsFit(f: Format, mips: bool, out: seq<byte>, rels: nat, entsize: nat, entries: seq<S.Entry>) {
    EntriesAt(f, mips, out, rels, entsize, entries) <==> SameSize(f, entries, entsize)
  }

  /** The slots from `locs` on and the relocations from `rels` on, with the two headers behind the
      `shnum` at `t`. */
  ghost predicate CallsFoundAt(f: Format, mips: bool, out: seq<byte>, shnum: nat, entsize: nat, link: nat, slots: seq<nat>,
                               entries: seq<S.Entry>, t: nat, locs: nat, rels: nat) {
    && LocHeader(f, out, HeaderAt(f, t, shnum), locs, ItemAt(f.W(), |slots|)) && SlotsAt(f, out, locs, slots)
    && RelHeader(f, out, HeaderAt(f, t, shnum + 1), rels, SizeOf(f, entries, |entries|), shnum, entsize, link)
    && PieceAt(out, rels, RelBytes(f, mips, entries))
    && StepsFit(f, mips, out, rels, entsize, entries)
  }

  /** All slots are found behind the header of the section after `shnum`, and all relocations, one
      after the other, behind the next. That header gives one size for them, which is right for
      all of them, or they are not found in steps of it. */
  ghost predicate CallsFound(f: Format, mips: bool, out: seq<byte>, shnum: nat, entsize: nat, link: nat, slots: seq<nat>,
                             entries: seq<S.Entry>) {
    && f.EhdrSize() <= |out| && Read(f, out, f.ShnumAt(), 2) == shnum + 2
    && exists locs, rels ::
         CallsFoundAt(f, mips, out, shnum, entsize, link, slots, entries, Read(f, out, f.ShoffAt(), f.W()), locs, rels)
  }

  lemma LimitIs(f: Format, t: S.Target)
    requires t.w == f.W()
    ensures t.Limit() == Pow256(f.W())
  {
    FourBytes();
    assert Pow256(8) == 256 * 256 * 256 * 256 * Pow256(4);
  }

  lemma WordFound(f: Format, out: seq<byte>, p: nat, b: seq<byte>, q: nat, x: nat)
    requires PieceAt(out, p, b) && PieceAt(b, q, Word(f, x, f.W())) && x < Pow256(f.W())
    ensures IsWord(f, out, p + q, x)
  {
    PieceOfPiece(out, p, b, q, Word(f, x, f.W()));
    PieceRead(out, p + q, Word(f, x, f.W()));
    WordReads(f, x, f.W());
  }

  lemma SlotFound(f: Format, t: S.Target, out: seq<byte>, locs: nat, b: seq<byte>, slots: seq<nat>, k: nat)
    requires t.w == f.W() && k < |slots| && slots[k] < t.Limit() && b == LocBytes(f, slots) && PieceAt(out, locs, b)
    ensures IsWord(f, out, locs + ItemAt(f.W(), k), slots[k])
  {
    LocPiece(f, slots, k);
    LimitIs(f, t);
    WordFound(f, out, locs, b, ItemAt(f.W(), k), slots[k]);
  }

  lemma SlotsFound(f: Format, t: S.Target, out: seq<byte>, locs: nat, slots: seq<nat>)
    requires t.w == f.W() && PieceAt(out, locs, LocBytes(f, slots)) && forall k | 0 <= k < |slots| :: slots[k] < t.Limit()
    ensures SlotsAt(f, out, locs, slots)
  {
    forall k: nat | k < |slots| ensures IsWord(f, out, locs + ItemAt(f.W(), k), slots[k]) {
      SlotFound(f, t, out, locs, LocBytes(f, slots), slots, k);
    }
  }

  lemma LocatedPiece(f: Format, out: seq<byte>, at: nat, b: seq<byte>) returns (p: nat)
    requires Locates(f, out, at, b)
    ensures PointsTo(f, out, at, p, |b|) && PieceAt(out, p, b)
  {
    p := Read(f, out, at + f.OffsetAt(), f.W());
  }

  /** The headers of both sections, and where they point. */
  predicate BothAt(f: Format, out: seq<byte>, shnum: nat, ndx: nat, locs: seq<byte>, rels: seq<byte>, entsize: nat, link: nat,
                   t: nat, p: nat, q: nat) {
    && HeadIs(f, out, shnum + 2, ndx, t)
    && LocHeader(f, out, HeaderAt(f, t, shnum), p, |locs|) && PieceAt(out, p, locs)
    && RelHeader(f, out, HeaderAt(f, t, shnum + 1), q, |rels|, shnum, entsize, link) && PieceAt(out, q, rels)
  }

  lemma EntsizeRead(f: Format, out: seq<byte>, at: nat, m: Marks)
    requires MarksOf(f, out, at, m) && m.entsize < Pow256(f.W())
    ensures Read(f, out, at + f.EntsizeAt(), f.W()) == m.entsize
  {
  }

  lemma BytesFound(f: Format, out: seq<byte>, shnum: nat, ndx: nat, names: seq<byte>, locs: seq<byte>, locName: seq<byte>,
                   rels: seq<byte>, relName: seq<byte>, entsize: nat, link: nat) returns (t: nat, p: nat, q: nat)
    requires Found(f, out, shnum, ndx, names, locs, locName, rels, relName, LocMarks(f), RelMarks(f, shnum, entsize, link))
    requires entsize < Pow256(f.W())
    ensures BothAt(f, out, shnum, ndx, locs, rels, entsize, link, t, p, q)
  {
    t := FoundWhere(f, out, shnum, ndx, names, locs, locName, rels, relName, LocMarks(f), RelMarks(f, shnum, entsize, link));
    p := LocatedPiece(f, out, HeaderAt(f, t, shnum), locs);
    q := LocatedPiece(f, out, HeaderAt(f, t, shnum + 1), rels);
    EntsizeRead(f, out, HeaderAt(f, t, shnum + 1), RelMarks(f, shnum, entsize, link));
  }

  lemma CallsFoundBy(f: Format, mips: bool, out: seq<byte>, shnum: nat, entsize: nat, link: nat, slots: seq<nat>, entries: seq<S.Entry>,
                     n: nat, m: nat, t: nat, p: nat, q: nat)
    requires LocHeader(f, out, HeaderAt(f, t, shnum), p, n) && n == ItemAt(f.W(), |slots|) && SlotsAt(f, out, p, slots)
    requires RelHeader(f, out, HeaderAt(f, t, shnum + 1), q, m, shnum, entsize, link) && m == SizeOf(f, entries, |entries|)
    requires PieceAt(out, q, RelBytes(f, mips, entries)) && StepsFit(f, mips, out, q, entsize, entries)
    ensures CallsFoundAt(f, mips, out, shnum, entsize, link, slots, entries, t, p, q)
  {
  }

  lemma RecordFoundAt(f: Format, t: S.Target, shnum: nat, ndx: nat, entsize: nat, link: nat, r: S.Record, out: seq<byte>,
                      locs: seq<byte>, rels: seq<byte>, at: nat, p: nat, q: nat)
    requires t.w == f.W() && Dense(f, t, r) && entsize < Pow256(f.W())
    requires locs == LocBytes(f, r.slots) && rels == RelBytes(f, t.mips, r.entries)
    requires BothAt(f, out, shnum, ndx, locs, rels, entsize, link, at, p, q)
    ensures CallsFound(f, t.mips, out, shnum, entsize, link, r.slots, r.entries)
  {
    SlotsFound(f, t, out, p, r.slots);
    EntriesAtIff(f, t.mips, out, q, entsize, r.entries);
    CallsFoundBy(f, t.mips, out, shnum, entsize, link, r.slots, r.entries, |locs|, |rels|, at, p, q);
    assert at == Read(f, out, f.ShoffAt(), f.W());
  }

  /** The calls of the record are found where the sections are. */
  lemma RecordFound(f: Format, t: S.Target, m: seq<byte>, strings: seq<byte>, entsize: nat, link: nat, r: S.Record, out: seq<byte>,
                    locs: seq<byte>, rels: seq<byte>)
    requires Complete(f, m) && t.w == f.W() && Dense(f, t, r) && entsize < Pow256(f.W())
    requires locs == LocBytes(f, r.slots) && rels == RelBytes(f, t.mips, r.entries)
    requires AllFound(f, m, strings, locs, rels, entsize, link, out)
    ensures CallsFound(f, t.mips, out, HeadsIn(f, m).shnum, entsize, link, r.slots, r.entries)
  {
    var shnum, ndx, name := HeadsIn(f, m).shnum, Shstrndx(f, m), McName(entsize == f.RelaSize());
    var at, p, q := BytesFound(f, out, shnum, ndx, strings + name, locs, Ascii("__mcount_loc") + [0], rels, name, entsize, link);
    RecordFoundAt(f, t, shnum, ndx, entsize, link, r, out, locs, rels, at, p, q);
  }

  /** The call of `append_func`, for a record that is not empty, then `write_file`. */
  method AppendRecord(file: VirtualFile, f: Format, b: S.Buffers, entsize: nat, link: nat) returns (ok: bool, out: seq<byte>)
    requires file.Valid() && file.append == null && Complete(f, file.fileMap[..])
    requires b.Valid() && b.t.w == f.W() && Dense(f, b.t, b.record) && entsize < Pow256(f.W())
    modifies file, file.fileMap
    ensures ok <==> HeadsIn(f, old(file.fileMap[..])).strSize > 0
    ensures ok && Representable(f, old(file.fileMap[..]), |out|) ==>
              CallsFound(f, b.t.mips, out, HeadsIn(f, old(file.fileMap[..])).shnum, entsize, link,
                         old(b.record.slots), old(b.record.entries))
  {
    ghost var m, r := file.fileMap[..], b.record;
    BufferHolds(f, b);
    var locs := LocBytes(f, b.mloc[..b.mlocp]);
    var rels := RelBytes(f, b.t.mips, EntriesIn(f, b.mrel[..], 0, b.mlocp));
    ghost var strings;
    ok, out, strings := AppendAndWrite(file, f, locs, rels, entsize, link);
    if ok && Representable(f, m, |out|) {
      RecordFound(f, b.t, m, strings, entsize, link, r, out, locs, rels);
    }
  }

  /** `do_func`, then `write_file`: every call recorded is found in the file written, with the slot
      number `k` and the relocation number `k` for it, the latter in steps of the one entry size
      written if all relocations have it. A file without calls stays as it is. */
  method RecordCalls(file: VirtualFile, f: Format, t: S.Target, sections: seq<S.Section>, old0: nat, link: nat)
    returns (outcome: S.Outcome, ok: bool, out: seq<byte>, after: nat)
    requires file.Valid() && file.append == null && !file.updated && Complete(f, file.fileMap[..])
    requires t.w == f.W() && S.Ready(t, sections) && AllRegular(f, sections)
    modifies file, file.fileMap
    ensures outcome.AlreadyDone? <==> S.HasAlready(sections)
    ensures outcome.Overrun? <==> !S.HasAlready(sections) && S.Exceeds(t, sections, old0, S.Total(sections, |sections|) % B32)
    ensures outcome.NoBaseSymbol? ==> !S.Based(sections, |sections|)
    ensures !outcome.Collected? ==> !ok && out == [] && file.fileMap[..] == old(file.fileMap[..])
    ensures outcome.Collected? ==>
              && S.Based(sections, |sections|) && after == S.SiftedAll(t, sections, old0, |sections|).old0
              && var r := S.SiftedAll(t, sections, old0, |sections|).record;
                 && (ok <==> r.slots == [] || HeadsIn(f, old(file.fileMap[..])).strSize > 0)
                 && (r.slots == [] ==> out == [] && file.fileMap[..] == old(file.fileMap[..]))
                 && (ok && r.slots != [] && Representable(f, old(file.fileMap[..]), |out|) ==>
                       CallsFound(f, t.mips, out, HeadsIn(f, old(file.fileMap[..])).shnum, LastEntsize(sections), link, r.slots, r.entries))
  {
    var b;
    outcome, b, after := S.DoFunc(t, sections, old0);
    ok, out := false, [];
    if outcome.Collected? {
      AllDense(f, t, sections, old0, |sections|);
      LastEntsizeFits(f, sections);
      if b.mlocp == 0 {
        ok := true;
      } else {
        ok, out := AppendRecord(file, f, b, LastEntsize(sections), link);
      }
    }
  }

  // ----- A file with relocations of both sizes -----

  /** One call in a section with `Elf_Rel`, one in a section with `Elf_Rela`. */
  function MixedSections(t: S.Target, base: S.Base): seq<S.Section> {
    [S.Section(S.Traced, t.RelSize(), t.RelSize(), [S.Rel(0, 7)], x => x == 7, base),
     S.Section(S.Traced, t.RelaSize(), t.RelaSize(), [S.Rel(0, 7)], x => x == 7, base)]
  }

  /** Both calls are recorded, and no entry size fits both relocations. */
  lemma MixedSizesLost(f: Format, t: S.Target, base: S.Base, old0: nat, entsize: nat)
    requires t.w == f.W() && t.Valid() && !t.mips && base.Base?
    ensures var sections := MixedSections(t, base);
            && S.Ready(t, sections) && AllRegular(f, sections) && S.Based(sections, 2)
            && var entries := S.SiftedAll(t, sections, old0, 2).record.entries;
               |entries| == 2 && !SameSize(f, entries, entsize)
  {
    var sections := MixedSections(t, base);
    var first, second := sections[0], sections[1];
    assert S.Based(sections, 0) && S.Based(sections, 1) && S.Based(sections, 2);
    var r1 := S.Added(t, S.EMPTY, first.entsize, base, 0);
    var old1 := S.OldOffset(first, old0, 1);
    OneCall(t, first, S.EMPTY, old0);
    OneCall(t, second, r1, old1);
    var p0 := S.SiftedAll(t, sections, old0, 0);
    assert p0 == S.Progress(S.EMPTY, old0);
    assert S.SiftedAll(t, sections, old0, 1) == S.Progress(r1, old1);
    var entries := S.SiftedAll(t, sections, old0, 2).record.entries;
    assert entries == S.Added(t, r1, second.entsize, base, 0).entries;
    assert EntrySize(f, entries[0]) == 2 * f.W() && EntrySize(f, entries[1]) == 3 * f.W();
  }

  lemma OneCall(t: S.Target, s: S.Section, r: S.Record, old0: nat)
    requires t.Valid() && !t.mips && s.base.Base? && s.rels == [S.Rel(0, 7)] && s.mcount(7)
    ensures S.Sifted(t, s, r, old0, 1) == S.Added(t, r, s.entsize, s.base, 0)
  {
    assert S.FirstSym(s, 0) == 0;
    assert S.FirstSym(s, 1) == 7;
    assert S.Picked(t, s, old0, 0);
    assert S.Sifted(t, s, r, old0, 0) == r;
  }
}
