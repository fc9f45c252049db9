/** What the record of `scripts/recordmcount.h` is for: linked, it holds the address of every call
    recorded, plus `mcount_adjust`. */
module RecordResolve {
  import opened RecordSift
  import opened Wrappers

  /** A call to be recorded: where it is, and what it is to be recorded against. */
  datatype Site = Site(base: Base, rela: bool, offset: nat)

  /** The calls picked among the first `i` relocations of a section, in order. */
  function Sites(t: Target, s: Section, old0: nat, i: nat): seq<Site>
    requires i <= |s.rels|
  {
    if i == 0 then []
    else if Picked(t, s, old0, i - 1) then
      Sites(t, s, old0, i - 1) + [Site(s.base, s.entsize == t.RelaSize(), s.rels[i - 1].offset)]
    else Sites(t, s, old0, i - 1)
  }

  /** Those of the first `k` sections. */
  function AllSites(t: Target, sections: seq<Section>, old0: nat, k: nat): seq<Site>
    requires k <= |sections| && Based(sections, k)
  {
    if k == 0 then []
    else
      var s := sections[k - 1];
      AllSites(t, sections, old0, k - 1)
      + if Counts(s) then Sites(t, s, SiftedAll(t, sections, old0, k - 1).old0, |s.rels|) else []
  }

  /** What a linker puts in slot `k`, the base symbol being at the address `at`. */
  function Linked(t: Target, at: int, slot: nat, addend: Addend): int {
    (at + slot + (if addend.Addend? then addend.value else 0)) % t.Limit()
  }

  /** With everything put `put` bytes further, the word linked is the address of the call and the
      adjustment. */
  predicate LinksTo(t: Target, put: int, site: Site, slot: nat, addend: Addend)
    requires site.base.Base?
  {
    Linked(t, put + site.base.value, slot, addend) == (put + site.offset + t.adjust) % t.Limit()
  }

  /** Slot `k` and its relocation: it is relocated by the address of the base symbol, and the word
      linked is the address of the call and the adjustment, wherever the section is put. */
  ghost predicate Resolves(t: Target, k: nat, site: Site, slot: nat, e: Entry) {
    && site.base.Base? && e.offset == t.w * k && e.sym == site.base.sym && e.reltype == t.reltype
    && (e.addend.Addend? <==> site.rela) && (site.rela ==> slot == 0) && slot < t.Limit()
    && (site.rela ==> e.addend.value < t.Limit())
    && forall put: int :: LinksTo(t, put, site, slot, e.addend)
  }

  ghost predicate AllResolve(t: Target, r: Record, sites: seq<Site>) {
    && |r.slots| == |r.entries| == |sites|
    && forall k: nat | k < |sites| :: Resolves(t, k, sites[k], r.slots[k], r.entries[k])
  }

  lemma AddressLinks(t: Target, put: int, b: Base, offset: nat)
    requires b.Base?
    ensures (put + b.value + CallAddress(t, b, offset)) % t.Limit() == (put + offset + t.adjust) % t.Limit()
  {
    var x, c := offset - b.value + t.adjust, put + b.value;
    if t.w == 4 {
      assert x == B32 * (x / B32) + x % B32;
      assert c + x == B32 * (x / B32) + (c + x % B32);
    } else {
      assert x == B64 * (x / B64) + x % B64;
      assert c + x == B64 * (x / B64) + (c + x % B64);
    }
  }

  lemma AddedResolves(t: Target, r: Record, entsize: nat, b: Base, offset: nat, sites: seq<Site>)
    requires AllResolve(t, r, sites) && b.Base?
    ensures AllResolve(t, Added(t, r, entsize, b, offset), sites + [Site(b, entsize == t.RelaSize(), offset)])
  {
    var site, n := Site(b, entsize == t.RelaSize(), offset), Added(t, r, entsize, b, offset);
    var k := |sites|;
    forall put: int ensures LinksTo(t, put, site, n.slots[k], n.entries[k].addend) {
      AddressLinks(t, put, b, offset);
    }
    assert Resolves(t, k, site, n.slots[k], n.entries[k]);
  }

  lemma {:induction false} SiftedResolves(t: Target, s: Section, r: Record, old0: nat, i: nat, sites: seq<Site>)
    requires AllResolve(t, r, sites) && s.base.Base? && i <= |s.rels|
    ensures AllResolve(t, Sifted(t, s, r, old0, i), sites + Sites(t, s, old0, i))
  {
    if i == 0 {
      assert sites + [] == sites;
    } else {
      SiftedResolves(t, s, r, old0, i - 1, sites);
      if Picked(t, s, old0, i - 1) {
        var before, site := Sites(t, s, old0, i - 1), Site(s.base, s.entsize == t.RelaSize(), s.rels[i - 1].offset);
        AddedResolves(t, Sifted(t, s, r, old0, i - 1), s.entsize, s.base, s.rels[i - 1].offset, sites + before);
        assert sites + before + [site] == sites + (before + [site]);
      }
    }
  }

  /** Every call picked has its slot and its relocation, in order, and no others are there; the word
      linked is the address of the call plus the adjustment. */
  lemma {:induction false} RecordResolves(t: Target, sections: seq<Section>, old0: nat, k: nat)
    requires k <= |sections| && Based(sections, k)
    ensures AllResolve(t, SiftedAll(t, sections, old0, k).record, AllSites(t, sections, old0, k))
    decreases k
  {
    if k > 0 {
      RecordResolves(t, sections, old0, k - 1);
      var before, s := SiftedAll(t, sections, old0, k - 1), sections[k - 1];
      var sites := AllSites(t, sections, old0, k - 1);
      if Counts(s) {
        SiftedResolves(t, s, before.record, before.old0, |s.rels|, sites);
      } else {
        assert sites + [] == sites;
      }
    }
  }
}
