/** The file that `scripts/recordmcount.h` writes, as a linker reads it: every call recorded has a
    slot and a relocation that give its address. */
module RecordLink {
  import opened RecordAppend
  import opened RecordFile
  import opened RecordMcount
  import opened RecordResolve
  import opened Wrappers
  import S = RecordSift

  // ----- Reading a relocation -----

  /** The symbol in `r_info`. */
  function SymAt(f: Format, mips: bool, out: seq<byte>, at: nat): nat
    requires at + 2 * f.W() <= |out|
  {
    if f.wide then (if mips then Read(f, out, at + 8, 4) else Read(f, out, at + 8, 8) / B32)
    else Read(f, out, at + 4, 4) / 256
  }

  /** The type in `r_info`. */
  function TypeAt(f: Format, mips: bool, out: seq<byte>, at: nat): nat
    requires at + 2 * f.W() <= |out|
  {
    if f.wide then (if mips then out[at + 15] else Read(f, out, at + 8, 8) % B32)
    else Read(f, out, at + 4, 4) % 256
  }

  /** Symbols and types that fit `r_info`. */
  predicate InfoFits(f: Format, mips: bool, sym: nat, reltype: nat) {
    sym < (if f.wide then B32 else 0x100_0000) && reltype < if f.wide && !mips then B32 else 256
  }

  lemma PieceSplit(out: seq<byte>, at: nat, a: seq<byte>, b: seq<byte>)
    requires PieceAt(out, at, a + b)
    ensures PieceAt(out, at, a) && PieceAt(out, at + |a|, b)
  {
    forall i | 0 <= i < |a| ensures out[at + i] == a[i] { assert (a + b)[i] == a[i]; }
    forall i | 0 <= i < |b| ensures out[at + |a| + i] == b[i] { assert (a + b)[|a| + i] == b[i]; }
  }

  lemma WordAt(f: Format, out: seq<byte>, at: nat, x: nat, k: nat)
    requires PieceAt(out, at, Word(f, x, k)) && x < Pow256(k)
    ensures at + k <= |out| && Read(f, out, at, k) == x
  {
    PieceRead(out, at, Word(f, x, k));
    WordReads(f, x, k);
  }

  lemma Powers()
    ensures Pow256(4) == B32 && Pow256(8) == B64
  {
    assert Pow256(8) == 256 * 256 * 256 * 256 * Pow256(4);
  }

  lemma InfoRead(f: Format, mips: bool, out: seq<byte>, at: nat, sym: nat, reltype: nat)
    requires at + 2 * f.W() <= |out| && PieceAt(out, at + f.W(), InfoBytes(f, mips, sym, reltype)) && InfoFits(f, mips, sym, reltype)
    ensures SymAt(f, mips, out, at) == sym && TypeAt(f, mips, out, at) == reltype
  {
    Powers();
    if f.wide && mips {
      PieceSplit(out, at + 8, Word(f, sym, 4), [0, 0, 0, reltype % 256]);
      WordAt(f, out, at + 8, sym, 4);
      assert out[at + 12 + 3] == [0, 0, 0, reltype % 256][3];
    } else if f.wide {
      WordAt(f, out, at + 8, sym * B32 + reltype, 8);
    } else {
      WordAt(f, out, at + 4, sym * 256 + reltype % 256, 4);
    }
  }

  /** The words of a relocation are read back. */
  lemma EntryRead(f: Format, mips: bool, out: seq<byte>, at: nat, e: S.Entry)
    requires PieceAt(out, at, EntryBytes(f, mips, e)) && e.offset < Pow256(f.W()) && InfoFits(f, mips, e.sym, e.reltype)
    requires e.addend.Addend? ==> e.addend.value < Pow256(f.W())
    ensures at + EntrySize(f, e) <= |out| && Read(f, out, at, f.W()) == e.offset
    ensures SymAt(f, mips, out, at) == e.sym && TypeAt(f, mips, out, at) == e.reltype
    ensures e.addend.Addend? ==> Read(f, out, at + 2 * f.W(), f.W()) == e.addend.value
  {
    var w := f.W();
    var offset, info := Word(f, e.offset, w), InfoBytes(f, mips, e.sym, e.reltype);
    var addend := if e.addend.Addend? then Word(f, e.addend.value, w) else [];
    assert EntryBytes(f, mips, e) == offset + info + addend;
    PieceSplit(out, at, offset + info, addend);
    PieceSplit(out, at, offset, info);
    WordAt(f, out, at, e.offset, w);
    InfoRead(f, mips, out, at, e.sym, e.reltype);
    if e.addend.Addend? { WordAt(f, out, at + 2 * w, e.addend.value, w); }
  }

  // ----- Linking the file -----

  /** The size of the relocations of the first `k` calls. */
  function SitesSize(f: Format, sites: seq<Site>, k: nat): nat
    requires k <= |sites|
  {
    if k == 0 then 0 else SitesSize(f, sites, k - 1) + if sites[k - 1].rela then 3 * f.W() else 2 * f.W()
  }

  /** The slot at `at` and the relocation at `rel` are those of call number `k`: relocating the word
      there as the relocation says gives the address of the call and the adjustment. */
  ghost predicate LinksAt(f: Format, t: S.Target, out: seq<byte>, at: nat, rel: nat, k: nat, site: Site) {
    && at + f.W() <= |out| && rel + (if site.rela then 3 * f.W() else 2 * f.W()) <= |out| && site.base.Base?
    && Read(f, out, rel, f.W()) == t.w * k
    && SymAt(f, t.mips, out, rel) == site.base.sym && TypeAt(f, t.mips, out, rel) == t.reltype
    && var addend := if site.rela then S.Addend(Read(f, out, rel + 2 * f.W(), f.W())) else S.NoAddend;
       forall put: int :: LinksTo(t, put, site, Read(f, out, at, f.W()), addend)
  }

  /** With slots from `locs` on and relocations from `rels` on, those of call number `k`. */
  ghost predicate SiteAt(f: Format, t: S.Target, out: seq<byte>, locs: nat, rels: nat, sites: seq<Site>, k: nat)
    requires k < |sites|
  {
    LinksAt(f, t, out, locs + ItemAt(f.W(), k), rels + SitesSize(f, sites, k), k, sites[k])
  }

  ghost predicate LinkedFrom(f: Format, t: S.Target, out: seq<byte>, locs: nat, rels: nat, sites: seq<Site>) {
    forall k: nat | k < |sites| :: SiteAt(f, t, out, locs, rels, sites, k)
  }

  /** Behind the two last headers stand a slot and a relocation for each call, and nothing else. */
  ghost predicate CallsLinked(f: Format, t: S.Target, out: seq<byte>, shnum: nat, sites: seq<Site>) {
    && f.EhdrSize() <= |out|
    && var u := Read(f, out, f.ShoffAt(), f.W());
       exists locs: nat, rels: nat ::
         && PointsTo(f, out, HeaderAt(f, u, shnum), locs, ItemAt(f.W(), |sites|))
         && PointsTo(f, out, HeaderAt(f, u, shnum + 1), rels, SitesSize(f, sites, |sites|))
         && LinkedFrom(f, t, out, locs, rels, sites)
  }

  ghost predicate SitesFit(f: Format, t: S.Target, sites: seq<Site>) {
    forall k | 0 <= k < |sites| :: sites[k].base.Base? ==> InfoFits(f, t.mips, sites[k].base.sym, t.reltype)
  }

  lemma {:induction false} SizesAre(f: Format, t: S.Target, r: S.Record, sites: seq<Site>, k: nat)
    requires AllResolve(t, r, sites) && k <= |sites|
    ensures SizeOf(f, r.entries, k) == SitesSize(f, sites, k) && f.W() * k <= SitesSize(f, sites, k)
  {
    if k > 0 {
      SizesAre(f, t, r, sites, k - 1);
      assert Resolves(t, k - 1, sites[k - 1], r.slots[k - 1], r.entries[k - 1]);
    }
  }

  lemma ReadLinks(f: Format, t: S.Target, out: seq<byte>, at: nat, rel: nat, k: nat, site: Site, slot: nat, e: S.Entry)
    requires Resolves(t, k, site, slot, e) && IsWord(f, out, at, slot) && PieceAt(out, rel, EntryBytes(f, t.mips, e))
    requires t.w == f.W() && InfoFits(f, t.mips, site.base.sym, t.reltype) && e.offset < Pow256(f.W())
    ensures LinksAt(f, t, out, at, rel, k, site)
  {
    LimitIs(f, t);
    EntryRead(f, t.mips, out, rel, e);
    var addend := if site.rela then S.Addend(Read(f, out, rel + 2 * f.W(), f.W())) else S.NoAddend;
    assert addend == e.addend;
  }

  lemma EntryPlaced(f: Format, mips: bool, out: seq<byte>, rels: nat, entries: seq<S.Entry>, k: nat, at: nat)
    requires PieceAt(out, rels, RelBytes(f, mips, entries)) && k < |entries| && at == rels + SizeOf(f, entries, k)
    ensures PieceAt(out, at, EntryBytes(f, mips, entries[k]))
  {
    BytesPiece(f, mips, entries, k, |entries|);
    PieceOfPiece(out, rels, RelBytes(f, mips, entries), SizeOf(f, entries, k), EntryBytes(f, mips, entries[k]));
  }

  lemma {:induction false} LaterLarger(f: Format, sites: seq<Site>, j: nat, k: nat)
    requires j <= k <= |sites|
    ensures SitesSize(f, sites, j) <= SitesSize(f, sites, k)
    decreases k
  {
    if j < k { LaterLarger(f, sites, j, k - 1); }
  }

  /** The places of the slots fit an address, because the relocations fit the file. */
  lemma OffsetFits(f: Format, t: S.Target, out: seq<byte>, rels: nat, r: S.Record, sites: seq<Site>, k: nat)
    requires AllResolve(t, r, sites) && t.w == f.W() && |out| < Pow256(f.W()) && k < |sites|
    requires PieceAt(out, rels, RelBytes(f, t.mips, r.entries))
    ensures r.entries[k].offset < Pow256(f.W()) && SizeOf(f, r.entries, k) == SitesSize(f, sites, k)
  {
    SizesAre(f, t, r, sites, k);
    SizesAre(f, t, r, sites, |sites|);
    LaterLarger(f, sites, k, |sites|);
    assert Resolves(t, k, sites[k], r.slots[k], r.entries[k]);
  }

  lemma RelocationPlaced(f: Format, t: S.Target, r: S.Record, sites: seq<Site>, out: seq<byte>, rels: nat, k: nat, rel: nat, e: S.Entry)
    requires AllResolve(t, r, sites) && t.w == f.W() && |out| < Pow256(f.W()) && k < |sites|
    requires PieceAt(out, rels, RelBytes(f, t.mips, r.entries)) && rel == rels + SitesSize(f, sites, k) && e == r.entries[k]
    ensures PieceAt(out, rel, EntryBytes(f, t.mips, e)) && e.offset < Pow256(f.W())
  {
    OffsetFits(f, t, out, rels, r, sites, k);
    EntryPlaced(f, t.mips, out, rels, r.entries, k, rel);
  }

  lemma SlotPlaced(f: Format, out: seq<byte>, locs: nat, slots: seq<nat>, k: nat, at: nat, slot: nat)
    requires SlotsAt(f, out, locs, slots) && k < |slots| && at == locs + ItemAt(f.W(), k) && slot == slots[k]
    ensures IsWord(f, out, at, slot)
  {
  }

  lemma SiteResolves(f: Format, t: S.Target, r: S.Record, sites: seq<Site>, k: nat, site: Site, slot: nat, e: S.Entry)
    requires AllResolve(t, r, sites) && SitesFit(f, t, sites) && k < |sites|
    requires site == sites[k] && slot == r.slots[k] && e == r.entries[k]
    ensures Resolves(t, k, site, slot, e) && InfoFits(f, t.mips, site.base.sym, t.reltype)
  {
  }

  lemma SiteLinks(f: Format, t: S.Target, r: S.Record, sites: seq<Site>, out: seq<byte>, locs: nat, rels: nat, k: nat, at: nat, rel: nat)
    requires AllResolve(t, r, sites) && SitesFit(f, t, sites) && t.w == f.W() && |out| < Pow256(f.W()) && k < |sites|
    requires SlotsAt(f, out, locs, r.slots) && PieceAt(out, rels, RelBytes(f, t.mips, r.entries))
    requires at == locs + ItemAt(f.W(), k) && rel == rels + SitesSize(f, sites, k)
    ensures LinksAt(f, t, out, at, rel, k, sites[k])
  {
    var site, slot, e := sites[k], r.slots[k], r.entries[k];
    SiteResolves(f, t, r, sites, k, site, slot, e);
    SlotPlaced(f, out, locs, r.slots, k, at, slot);
    RelocationPlaced(f, t, r, sites, out, rels, k, rel, e);
    ReadLinks(f, t, out, at, rel, k, site, slot, e);
  }

  lemma AsSite(f: Format, t: S.Target, out: seq<byte>, locs: nat, rels: nat, sites: seq<Site>, k: nat, at: nat, rel: nat)
    requires k < |sites| && LinksAt(f, t, out, at, rel, k, sites[k])
    requires at == locs + ItemAt(f.W(), k) && rel == rels + SitesSize(f, sites, k)
    ensures SiteAt(f, t, out, locs, rels, sites, k)
  {
  }

  /** In the file written every call recorded resolves to its own address, plus the adjustment. */
  lemma FileResolves(f: Format, t: S.Target, sections: seq<S.Section>, old0: nat, out: seq<byte>, shnum: nat, entsize: nat, link: nat)
    requires S.Based(sections, |sections|) && t.w == f.W() && |out| < Pow256(f.W())
    requires SitesFit(f, t, AllSites(t, sections, old0, |sections|))
    requires var r := S.SiftedAll(t, sections, old0, |sections|).record;
             CallsFound(f, t.mips, out, shnum, entsize, link, r.slots, r.entries)
    ensures CallsLinked(f, t, out, shnum, AllSites(t, sections, old0, |sections|))
  {
    var r, sites := S.SiftedAll(t, sections, old0, |sections|).record, AllSites(t, sections, old0, |sections|);
    RecordResolves(t, sections, old0, |sections|);
    RecordLinked(f, t, r, sites, out, shnum, entsize, link);
  }

  lemma RecordLinked(f: Format, t: S.Target, r: S.Record, sites: seq<Site>, out: seq<byte>, shnum: nat, entsize: nat, link: nat)
    requires AllResolve(t, r, sites) && SitesFit(f, t, sites) && t.w == f.W() && |out| < Pow256(f.W())
    requires CallsFound(f, t.mips, out, shnum, entsize, link, r.slots, r.entries)
    ensures CallsLinked(f, t, out, shnum, sites)
  {
    var locs, rels := CallsAt(f, t.mips, out, shnum, entsize, link, r.slots, r.entries);
    SizesAre(f, t, r, sites, |sites|);
    AllLinked(f, t, r, sites, out, locs, rels);
  }

  lemma AllLinked(f: Format, t: S.Target, r: S.Record, sites: seq<Site>, out: seq<byte>, locs: nat, rels: nat)
    requires AllResolve(t, r, sites) && SitesFit(f, t, sites) && t.w == f.W() && |out| < Pow256(f.W())
    requires SlotsAt(f, out, locs, r.slots) && PieceAt(out, rels, RelBytes(f, t.mips, r.entries))
    ensures LinkedFrom(f, t, out, locs, rels, sites)
  {
    forall k: nat | k < |sites| ensures SiteAt(f, t, out, locs, rels, sites, k) {
      var at, rel := locs + ItemAt(f.W(), k), rels + SitesSize(f, sites, k);
      SiteLinks(f, t, r, sites, out, locs, rels, k, at, rel);
      AsSite(f, t, out, locs, rels, sites, k, at, rel);
    }
  }

  lemma CallsAt(f: Format, mips: bool, out: seq<byte>, shnum: nat, entsize: nat, link: nat, slots: seq<nat>, entries: seq<S.Entry>)
    returns (locs: nat, rels: nat)
    requires CallsFound(f, mips, out, shnum, entsize, link, slots, entries)
    ensures f.EhdrSize() <= |out|
    ensures PointsTo(f, out, HeaderAt(f, Read(f, out, f.ShoffAt(), f.W()), shnum), locs, ItemAt(f.W(), |slots|))
    ensures PointsTo(f, out, HeaderAt(f, Read(f, out, f.ShoffAt(), f.W()), shnum + 1), rels, SizeOf(f, entries, |entries|))
    ensures SlotsAt(f, out, locs, slots) && PieceAt(out, rels, RelBytes(f, mips, entries))
  {
    var u := Read(f, out, f.ShoffAt(), f.W());
    var p, q :| CallsFoundAt(f, mips, out, shnum, entsize, link, slots, entries, u, p, q);
    locs, rels := p, q;
  }
}
