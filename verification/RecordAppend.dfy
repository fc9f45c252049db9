/** `append_func` of `scripts/recordmcount.h`: the new section names, section headers, locations
    and relocations go behind the file, and the ELF header is changed to point at them. */
module RecordAppend {
  import opened RecordFile
  import opened Wrappers

  // ----- Words of the target -----

  /** ELFCLASS and ELFDATA: the width of an address and the order of its bytes. */
  datatype Format = Format(wide: bool, big: bool) {
    function W(): (w: nat)
      ensures w == 4 || w == 8
    {
      if wide then 8 else 4
    }
    function EhdrSize(): nat { 40 + 3 * W() }
    function ShoffAt(): nat { 24 + 2 * W() }
    function ShnumAt(): nat { 36 + 3 * W() }
    function ShstrndxAt(): nat { 38 + 3 * W() }
    function ShdrSize(): nat { if wide then 64 else 40 }
    function OffsetAt(): nat { 8 + 2 * W() }
    function SizeAt(): nat { 8 + 3 * W() }
    function EntsizeAt(): nat { 16 + 5 * W() }
    function RelaSize(): nat { 3 * W() }
  }

  function Pow256(k: nat): (p: nat)
    ensures p > 0
  {
    if k == 0 then 1 else 256 * Pow256(k - 1)
  }

  /** The low `k` bytes of `x` in the byte order of the target. */
  function Word(f: Format, x: nat, k: nat): (b: seq<byte>)
    ensures |b| == k
  {
    if k == 0 then []
    else if f.big then Word(f, x / 256, k - 1) + [x % 256]
    else [x % 256] + Word(f, x / 256, k - 1)
  }

  function WordValue(f: Format, b: seq<byte>): nat {
    if b == [] then 0
    else if f.big then b[|b| - 1] + 256 * WordValue(f, b[..|b| - 1])
    else b[0] + 256 * WordValue(f, b[1..])
  }

  lemma {:induction false} WordReads(f: Format, x: nat, k: nat)
    requires x < Pow256(k)
    ensures WordValue(f, Word(f, x, k)) == x
  {
    if k > 0 {
      WordReads(f, x / 256, k - 1);
      var b := Word(f, x, k);
      assert if f.big then b[..k - 1] == Word(f, x / 256, k - 1) else b[1..] == Word(f, x / 256, k - 1);
    }
  }

  lemma FourBytes()
    ensures Pow256(4) == B32
  {
  }

  // ----- Section headers -----

  datatype Shdr = Shdr(name: nat, kind: nat, flags: nat, addr: nat, offset: nat, size: nat, link: nat, info: nat,
                       addralign: nat, entsize: nat)

  const SHT_PROGBITS := 1
  const SHT_RELA := 4
  const SHT_REL := 9
  const SHF_ALLOC := 2

  function Encode(f: Format, h: Shdr): (b: seq<byte>)
    ensures |b| == f.ShdrSize()
  {
    var w := f.W();
    (Word(f, h.name, 4) + Word(f, h.kind, 4) + Word(f, h.flags, w) + Word(f, h.addr, w))
    + (Word(f, h.offset, w) + Word(f, h.size, w))
    + (Word(f, h.link, 4) + Word(f, h.info, 4) + Word(f, h.addralign, w) + Word(f, h.entsize, w))
  }

  function Ascii(s: string): (b: seq<byte>)
    ensures |b| == |s|
  {
    seq(|s|, i requires 0 <= i < |s| => s[i] as int % 256)
  }

  /** The name of the relocation section; the name of the other section is its end. */
  function McName(rela: bool): seq<byte> {
    (if rela then Ascii(".rela") else Ascii(".rel")) + Ascii("__mcount_loc") + [0]
  }

  /** `t += (_align & -t)`. */
  function AlignUp(f: Format, t: nat): (a: nat)
    ensures t <= a < t + f.W() && if f.wide then a % 8 == 0 else a % 4 == 0
  {
    if f.wide then 8 * ((t + 7) / 8) else 4 * ((t + 3) / 4)
  }

  // ----- What the file says about itself -----

  datatype Heads = Heads(shnum: nat, shoff: nat, strSize: nat, strOffset: nat)

  function Read(f: Format, m: seq<byte>, at: nat, k: nat): nat
    requires at + k <= |m|
  {
    WordValue(f, m[at..at + k])
  }

  /** `shstr` is where the header of the section name table is. */
  function HeadsOf(f: Format, m: seq<byte>, shstr: nat): Heads
    requires f.EhdrSize() <= |m| && shstr + f.ShdrSize() <= |m|
  {
    Heads(Read(f, m, f.ShnumAt(), 2), Read(f, m, f.ShoffAt(), f.W()),
          Read(f, m, shstr + f.SizeAt(), f.W()), Read(f, m, shstr + f.OffsetAt(), f.W()))
  }

  function TableSize(f: Format, n: nat): nat { if f.wide then 64 * n else 40 * n }

  /** Headers and section names lie inside the file. */
  predicate Inside(f: Format, size: nat, shstr: nat, h: Heads) {
    && f.EhdrSize() <= size && shstr + f.ShdrSize() <= size && f.EhdrSize() <= shstr
    && h.shoff + TableSize(f, h.shnum) <= size && h.strOffset + h.strSize <= size
  }

  /** The number of the section that holds the section names, and where its header is. */
  function Shstrndx(f: Format, m: seq<byte>): nat
    requires f.EhdrSize() <= |m|
  {
    Read(f, m, f.ShstrndxAt(), 2)
  }

  function NameHeader(f: Format, m: seq<byte>): nat
    requires f.EhdrSize() <= |m|
  {
    HeaderAt(f, Read(f, m, f.ShoffAt(), f.W()), Shstrndx(f, m))
  }

  /** `t` is where the section header table begins, `i` the number of a section. */
  function HeaderAt(f: Format, t: nat, i: nat): nat { t + TableSize(f, i) }

  predicate HasHeads(f: Format, m: seq<byte>) {
    f.EhdrSize() <= |m| && NameHeader(f, m) + f.ShdrSize() <= |m|
  }

  function HeadsIn(f: Format, m: seq<byte>): Heads
    requires HasHeads(f, m)
  {
    HeadsOf(f, m, NameHeader(f, m))
  }

  /** The input is a complete object file, with a section that holds the section names. */
  predicate Complete(f: Format, m: seq<byte>) {
    HasHeads(f, m) && Inside(f, |m|, NameHeader(f, m), HeadsIn(f, m)) && Shstrndx(f, m) < HeadsIn(f, m).shnum
  }

  /** Where everything goes. */
  datatype Layout = Layout(names: nat, table: nat, locs: nat, rels: nat, end: nat)

  function LayoutOf(f: Format, size: nat, h: Heads, name: nat, locs: nat, rels: nat): (l: Layout)
    ensures size == l.names <= l.names + h.strSize + name <= l.table
    ensures l.table < l.names + h.strSize + name + f.W() && l.table + TableSize(f, h.shnum + 2) == l.locs
    ensures l.locs + locs == l.rels && l.rels + rels == l.end
  {
    var table := AlignUp(f, size + h.strSize + name);
    var at := table + TableSize(f, h.shnum) + 2 * f.ShdrSize();
    Layout(size, table, at, at + locs, at + locs + rels)
  }

  function LocSection(f: Format, h: Heads, l: Layout, rela: bool): Shdr
    requires l.locs <= l.rels
  {
    Shdr((if rela then 1 else 0) + 4 + h.strSize, SHT_PROGBITS, SHF_ALLOC, 0, l.locs, l.rels - l.locs, 0, 0, f.W(), f.W())
  }

  function RelSection(f: Format, h: Heads, l: Layout, rela: bool, entsize: nat, link: nat): Shdr
    requires l.rels <= l.end
  {
    Shdr(h.strSize, if rela then SHT_RELA else SHT_REL, 0, 0, l.rels, l.end - l.rels, link, h.shnum, f.W(), entsize)
  }

  // ----- The operation -----

  /** What is written: the encoded words and headers, the name, the contents. */
  datatype Parts = Parts(strSize: seq<byte>, strOffset: seq<byte>, name: seq<byte>, loc: seq<byte>, rel: seq<byte>,
                         locs: seq<byte>, rels: seq<byte>, shoff: seq<byte>, shnum: seq<byte>)

  predicate Sized(f: Format, p: Parts) {
    && |p.strSize| == |p.strOffset| == |p.shoff| == f.W() && |p.shnum| == 2
    && |p.loc| == |p.rel| == f.ShdrSize()
  }

  function PartsOf(f: Format, size: nat, h: Heads, locs: seq<byte>, rels: seq<byte>, entsize: nat, link: nat): (p: Parts)
    ensures Sized(f, p) && p.locs == locs && p.rels == rels && p.name == McName(entsize == f.RelaSize())
  {
    var rela := entsize == f.RelaSize();
    var name := McName(rela);
    var l := LayoutOf(f, size, h, |name|, |locs|, |rels|);
    Parts(Word(f, h.strSize + |name|, f.W()), Word(f, size, f.W()), name,
          Encode(f, LocSection(f, h, l, rela)), Encode(f, RelSection(f, h, l, rela, entsize, link)),
          locs, rels, Word(f, l.table, f.W()), Word(f, 2 + h.shnum, 2))
  }

  function StoredTwo(m: seq<byte>, at: nat, b: seq<byte>, at': nat, b': seq<byte>): (r: seq<byte>)
    requires at + |b| <= |m| && at' + |b'| <= |m|
    ensures |r| == |m|
  {
    Stored(Stored(m, at, b), at', b')
  }

  method StoreTwo(file: VirtualFile, at: nat, b: seq<byte>, at': nat, b': seq<byte>)
    requires file.Valid() && at + |b| <= file.fileMap.Length && at' + |b'| <= file.fileMap.Length
    modifies file.fileMap, file`ideal
    ensures file.Valid() && file.fileMap[..] == StoredTwo(old(file.fileMap[..]), at, b, at', b')
    ensures file.ideal == Written(Written(old(file.ideal), at, b), at', b') && |file.ideal| == |old(file.ideal)|
  {
    file.Store(at, b);
    file.Store(at', b');
  }

  lemma TwoKept(s: seq<Cell>, at: nat, b: seq<byte>, at': nat, b': seq<byte>, p: nat, c: seq<byte>)
    requires Holds(s, p, c) && at + |b| <= p && at' + |b'| <= p
    ensures Holds(Written(Written(s, at, b), at', b'), p, c)
  {
    WrittenKeeps(s, at, b, p, c);
    WrittenKeeps(Written(s, at, b), at', b', p, c);
  }

  /** The map after the header of the section name table was redirected. */
  function Redirected(f: Format, m: seq<byte>, shstr: nat, p: Parts): (r: seq<byte>)
    requires shstr + f.ShdrSize() <= |m| && Sized(f, p)
    ensures |r| == |m|
  {
    StoredTwo(m, shstr + f.SizeAt(), p.strSize, shstr + f.OffsetAt(), p.strOffset)
  }

  /** The map after the ELF header was changed, too. */
  function Headed(f: Format, m: seq<byte>, p: Parts): (r: seq<byte>)
    requires f.EhdrSize() <= |m| && Sized(f, p)
    ensures |r| == |m|
  {
    StoredTwo(m, f.ShoffAt(), p.shoff, f.ShnumAt(), p.shnum)
  }

  function Strings(m: seq<byte>, h: Heads): seq<byte>
    requires h.strOffset + h.strSize <= |m|
  {
    m[h.strOffset..h.strOffset + h.strSize]
  }

  function Table(f: Format, m: seq<byte>, h: Heads): (b: seq<byte>)
    requires h.shoff + TableSize(f, h.shnum) <= |m|
    ensures |b| == TableSize(f, h.shnum)
  {
    m[h.shoff..h.shoff + TableSize(f, h.shnum)]
  }

  /** The finished file: the old one with its two changes, the section names, and at `table` the
      old headers, the two new ones, the locations, the relocations. */
  ghost predicate Finished(f: Format, m: seq<byte>, shstr: nat, h: Heads, p: Parts, s: seq<Cell>)
    requires Inside(f, |m|, shstr, h) && Sized(f, p)
  {
    var l := LayoutOf(f, |m|, h, |p.name|, |p.locs|, |p.rels|);
    var r := Redirected(f, m, shstr, p);
    && |s| == l.end
    && Holds(s, 0, Headed(f, r, p))
    && Holds(s, l.names, Strings(r, h) + p.name)
    && Holds(s, l.table, Table(f, r, h) + p.loc + p.rel + p.locs + p.rels)
  }

  /** A write of the next bytes behind `a`, which stand at `p` behind the map. The bytes `c`,
      between the map and `p`, stay. */
  method WriteOn(file: VirtualFile, ghost q: nat, ghost c: seq<byte>, ghost p: nat, ghost a: seq<byte>, b: seq<byte>)
    requires file.Valid() && file.append != null && file.fileMap.Length <= q <= q + |c| <= p
    requires Holds(file.ideal, q, c) && Holds(file.ideal, p, a) && file.ptr == p + |a| == |file.ideal|
    modifies file, file.fileMap, file.append
    ensures file.Valid() && file.append != null && (file.append == old(file.append) || fresh(file.append))
    ensures file.fileMap[..] == old(file.fileMap[..])
    ensures Holds(file.ideal, q, c) && Holds(file.ideal, p, a + b) && file.ptr == p + |a + b| == |file.ideal|
  {
    WrittenOn(file.ideal, p, a, b);
    WrittenKeeps(file.ideal, p + |a|, b, q, c);
    var ok := file.Write(b);
  }

  /** The body of the new section name table, written at the end of the map. */
  method WriteNames(file: VirtualFile, strings: seq<byte>, name: seq<byte>) returns (ok: bool)
    requires file.Valid() && file.append == null && |file.ideal| == file.fileMap.Length
    modifies file, file.fileMap
    ensures ok <==> strings != []
    ensures ok ==> file.Valid() && file.append != null && fresh(file.append)
    ensures ok ==> file.fileMap[..] == old(file.fileMap[..])
    ensures ok ==> var q := file.fileMap.Length; Holds(file.ideal, q, strings + name) && |file.ideal| == q + |strings + name|
    ensures !ok ==> !file.mapped
  {
    ok := file.Seek(file.fileMap.Length, SeekSet);
    ok := file.Write(strings);
    if ok {
      WrittenHolds(old(file.ideal), file.fileMap.Length, strings);
      WriteOn(file, file.fileMap.Length, [], file.fileMap.Length, strings, name);
    }
  }

  /** The old section headers, word-aligned at `t`. */
  method WriteTable(file: VirtualFile, ghost q: nat, ghost c: seq<byte>, t: nat, table: seq<byte>)
    requires file.Valid() && file.append != null && file.fileMap.Length <= q && q + |c| == |file.ideal| <= t
    requires Holds(file.ideal, q, c)
    modifies file, file.fileMap, file.append
    ensures file.Valid() && file.append != null && (file.append == old(file.append) || fresh(file.append))
    ensures file.fileMap[..] == old(file.fileMap[..])
    ensures Holds(file.ideal, q, c) && Holds(file.ideal, t, table) && file.ptr == t + |table| == |file.ideal|
  {
    var ok := file.Seek(t, SeekSet);
    WrittenHolds(file.ideal, t, table);
    WrittenKeeps(file.ideal, t, table, q, c);
    ok := file.Write(table);
  }

  /** Writes the first bytes of the map over themselves. */
  method WriteStart(file: VirtualFile, n: nat)
    requires file.Valid() && file.append != null && n <= file.fileMap.Length
    modifies file, file.fileMap, file.append
    ensures file.Valid() && file.updated && file.ideal == old(file.ideal) && Holds(file.ideal, 0, old(file.fileMap[..]))
  {
    file.MapHeld();
    HoldsPart(file.ideal, 0, file.fileMap[..], 0, n);
    WrittenSame(file.ideal, 0, file.fileMap[..][0..n]);
    var ok := file.Seek(0, SeekSet);
    ok := file.Write(file.fileMap[..][0..n]);
  }

  /** The ELF header: changed in the map, then written over itself. */
  method WriteHeader(file: VirtualFile, f: Format, p: Parts, ghost q: nat, ghost c: seq<byte>, ghost t: nat, ghost a: seq<byte>)
    requires file.Valid() && file.append != null && f.EhdrSize() <= file.fileMap.Length <= q && q <= t && Sized(f, p)
    requires Holds(file.ideal, q, c) && Holds(file.ideal, t, a)
    modifies file, file.fileMap, file.append
    ensures file.Valid() && Holds(file.ideal, 0, Headed(f, old(file.fileMap[..]), p))
    ensures Holds(file.ideal, q, c) && Holds(file.ideal, t, a) && |file.ideal| == |old(file.ideal)| && file.updated
  {
    TwoKept(file.ideal, f.ShoffAt(), p.shoff, f.ShnumAt(), p.shnum, q, c);
    TwoKept(file.ideal, f.ShoffAt(), p.shoff, f.ShnumAt(), p.shnum, t, a);
    StoreTwo(file, f.ShoffAt(), p.shoff, f.ShnumAt(), p.shnum);
    WriteStart(file, f.EhdrSize());
  }

  /** The new section headers and the contents of the new sections, behind the table. */
  method WriteSections(file: VirtualFile, ghost q: nat, ghost c: seq<byte>, ghost p: nat, ghost table: seq<byte>,
                       loc: seq<byte>, rel: seq<byte>, locs: seq<byte>, rels: seq<byte>)
    requires file.Valid() && file.append != null && file.fileMap.Length <= q <= q + |c| <= p
    requires Holds(file.ideal, q, c) && Holds(file.ideal, p, table) && file.ptr == p + |table| == |file.ideal|
    modifies file, file.fileMap, file.append
    ensures file.Valid() && file.append != null && (file.append == old(file.append) || fresh(file.append))
    ensures file.fileMap[..] == old(file.fileMap[..])
    ensures var all := table + loc + rel + locs + rels;
            Holds(file.ideal, q, c) && Holds(file.ideal, p, all) && |file.ideal| == p + |all|
  {
    WriteOn(file, q, c, p, table, loc);
    WriteOn(file, q, c, p, table + loc, rel);
    WriteOn(file, q, c, p, table + loc + rel, locs);
    WriteOn(file, q, c, p, table + loc + rel + locs, rels);
  }

  /** `append_func`. It fails exactly when the old section name table is empty. */
  method AppendFunc(file: VirtualFile, f: Format, locs: seq<byte>, rels: seq<byte>, entsize: nat, link: nat)
    returns (ok: bool)
    requires file.Valid() && file.append == null && Complete(f, file.fileMap[..])
    modifies file, file.fileMap
    ensures ok <==> HeadsIn(f, old(file.fileMap[..])).strSize > 0
    ensures ok ==> file.Valid() && file.updated
    ensures ok ==> var m := old(file.fileMap[..]);
                   var h := HeadsIn(f, m);
                   Finished(f, m, NameHeader(f, m), h, PartsOf(f, |m|, h, locs, rels, entsize, link), file.ideal)
  {
    var shstr := NameHeader(f, file.fileMap[..]);
    var h := HeadsOf(f, file.fileMap[..], shstr);
    ok := AppendParts(file, f, shstr, h, PartsOf(f, file.fileMap.Length, h, locs, rels, entsize, link));
  }

  lemma FinishedBy(f: Format, m: seq<byte>, shstr: nat, h: Heads, p: Parts, s: seq<Cell>,
                   l: Layout, r: seq<byte>, strings: seq<byte>, table: seq<byte>)
    requires Inside(f, |m|, shstr, h) && Sized(f, p)
    requires l == LayoutOf(f, |m|, h, |p.name|, |p.locs|, |p.rels|) && r == Redirected(f, m, shstr, p)
    requires strings == Strings(r, h) && table == Table(f, r, h) && BehindIs(f, p, l, r, strings + p.name, table, s)
    ensures Finished(f, m, shstr, h, p, s)
  {
  }

  /** The header of the section name table: changed in the map. */
  method RedirectNames(file: VirtualFile, f: Format, shstr: nat, p: Parts)
    requires file.Valid() && shstr + f.ShdrSize() <= file.fileMap.Length && Sized(f, p)
    modifies file.fileMap, file`ideal
    ensures file.Valid() && file.fileMap[..] == Redirected(f, old(file.fileMap[..]), shstr, p)
    ensures |file.ideal| == |old(file.ideal)|
  {
    StoreTwo(file, shstr + f.SizeAt(), p.strSize, shstr + f.OffsetAt(), p.strOffset);
  }

  method AppendParts(file: VirtualFile, f: Format, shstr: nat, h: Heads, p: Parts) returns (ok: bool)
    requires file.Valid() && file.append == null && Inside(f, file.fileMap.Length, shstr, h) && Sized(f, p)
    modifies file, file.fileMap
    ensures ok <==> h.strSize > 0
    ensures ok ==> file.Valid() && file.updated && Finished(f, old(file.fileMap[..]), shstr, h, p, file.ideal)
  {
    ghost var m := file.fileMap[..];
    RedirectNames(file, f, shstr, p);
    ghost var r := file.fileMap[..];
    var l, strings, table;
    ok, l, strings, table := AppendRest(file, f, h, p);
    if ok { FinishedBy(f, m, shstr, h, p, file.ideal, l, r, strings, table); }
  }

  /** All but the change of the name table's header. */
  method AppendRest(file: VirtualFile, f: Format, h: Heads, p: Parts) returns (ok: bool, l: Layout, strings: seq<byte>, table: seq<byte>)
    requires file.Valid() && file.append == null && |file.ideal| == file.fileMap.Length && Sized(f, p)
    requires f.EhdrSize() <= file.fileMap.Length && h.strOffset + h.strSize <= file.fileMap.Length
    requires h.shoff + TableSize(f, h.shnum) <= file.fileMap.Length
    modifies file, file.fileMap
    ensures ok <==> h.strSize > 0
    ensures l == LayoutOf(f, file.fileMap.Length, h, |p.name|, |p.locs|, |p.rels|)
    ensures strings == Strings(old(file.fileMap[..]), h) && table == Table(f, old(file.fileMap[..]), h)
    ensures ok ==> file.Valid() && file.updated
    ensures ok ==> BehindIs(f, p, l, old(file.fileMap[..]), strings + p.name, table, file.ideal)
  {
    l := LayoutOf(f, file.fileMap.Length, h, |p.name|, |p.locs|, |p.rels|);
    strings, table := Strings(file.fileMap[..], h), Table(f, file.fileMap[..], h);
    ok := WriteNames(file, strings, p.name);
    if ok { WriteBehind(file, f, p, l, strings + p.name, table); }
  }

  /** The file after all writes; `m` is the map before the change of the ELF header. */
  ghost predicate BehindIs(f: Format, p: Parts, l: Layout, m: seq<byte>, names: seq<byte>, table: seq<byte>, s: seq<Cell>)
    requires f.EhdrSize() <= |m| && Sized(f, p)
  {
    var all := table + p.loc + p.rel + p.locs + p.rels;
    && Holds(s, 0, Headed(f, m, p)) && Holds(s, l.names, names)
    && Holds(s, l.table, all) && |s| == l.table + |all|
  }

  /** Everything behind the section names, and then the ELF header. */
  method WriteBehind(file: VirtualFile, f: Format, p: Parts, l: Layout, ghost names: seq<byte>, table: seq<byte>)
    requires file.Valid() && file.append != null && Sized(f, p) && f.EhdrSize() <= file.fileMap.Length == l.names
    requires l.names + |names| == |file.ideal| <= l.table && Holds(file.ideal, l.names, names)
    modifies file, file.fileMap, file.append
    ensures file.Valid() && file.updated && BehindIs(f, p, l, old(file.fileMap[..]), names, table, file.ideal)
  {
    WriteTable(file, l.names, names, l.table, table);
    WriteSections(file, l.names, names, l.table, table, p.loc, p.rel, p.locs, p.rels);
    WriteHeader(file, f, p, l.names, names, l.table, table + p.loc + p.rel + p.locs + p.rels);
  }

  // ----- What a reader of the file finds -----

  lemma WordHeld(f: Format, s: seq<Cell>, out: seq<byte>, at: nat, x: nat, k: nat)
    requires Agrees(out, s) && Holds(s, at, Word(f, x, k)) && x < Pow256(k)
    ensures at + k <= |out| && Read(f, out, at, k) == x
  {
    AgreesHolds(out, s, at, Word(f, x, k));
    PieceRead(out, at, Word(f, x, k));
    WordReads(f, x, k);
  }

  lemma HalfHeld(f: Format, s: seq<Cell>, out: seq<byte>, at: nat, x: nat)
    requires Agrees(out, s) && Holds(s, at, Word(f, x, 2)) && x < 0x1_0000
    ensures at + 2 <= |out| && Read(f, out, at, 2) == x
  {
    AgreesHolds(out, s, at, Word(f, x, 2));
    PieceRead(out, at, Word(f, x, 2));
    assert Pow256(2) == 0x1_0000;
    WordReads(f, x, 2);
  }

  lemma HeaderHeld(f: Format, s: seq<Cell>, at: nat, h: Shdr)
    requires Holds(s, at, Encode(f, h))
    ensures Holds(s, at, Word(f, h.name, 4))
    ensures Holds(s, at + f.OffsetAt(), Word(f, h.offset, f.W())) && Holds(s, at + f.SizeAt(), Word(f, h.size, f.W()))
    ensures Holds(s, at + f.EntsizeAt(), Word(f, h.entsize, f.W()))
  {
    var w := f.W();
    var front := Word(f, h.name, 4) + Word(f, h.kind, 4) + Word(f, h.flags, w) + Word(f, h.addr, w);
    var mid := Word(f, h.offset, w) + Word(f, h.size, w);
    var back := Word(f, h.link, 4) + Word(f, h.info, 4) + Word(f, h.addralign, w) + Word(f, h.entsize, w);
    HoldsSplit(s, at, front + mid, back);
    HoldsSplit(s, at + |front + mid|, Word(f, h.link, 4) + Word(f, h.info, 4) + Word(f, h.addralign, w), Word(f, h.entsize, w));
    HoldsSplit(s, at, front, mid);
    HoldsSplit(s, at + |front|, Word(f, h.offset, w), Word(f, h.size, w));
    HoldsSplit(s, at, Word(f, h.name, 4) + Word(f, h.kind, 4) + Word(f, h.flags, w), Word(f, h.addr, w));
    HoldsSplit(s, at, Word(f, h.name, 4) + Word(f, h.kind, 4), Word(f, h.flags, w));
    HoldsSplit(s, at, Word(f, h.name, 4), Word(f, h.kind, 4));
  }

  /** Following the header at `at`, a reader finds the contents `b`. */
  predicate Locates(f: Format, out: seq<byte>, at: nat, b: seq<byte>) {
    && at + f.ShdrSize() <= |out|
    && var offset, size := Read(f, out, at + f.OffsetAt(), f.W()), Read(f, out, at + f.SizeAt(), f.W());
       size == |b| && PieceAt(out, offset, b)
  }

  lemma HeaderLocates(f: Format, s: seq<Cell>, out: seq<byte>, at: nat, header: seq<byte>, h: Shdr, p: nat, b: seq<byte>)
    requires Agrees(out, s) && Holds(s, at, header) && header == Encode(f, h)
    requires Holds(s, p, b) && h.offset == p < Pow256(f.W()) && h.size == |b| < Pow256(f.W())
    ensures Locates(f, out, at, b)
  {
    HeaderHeld(f, s, at, h);
    WordHeld(f, s, out, at + f.OffsetAt(), h.offset, f.W());
    WordHeld(f, s, out, at + f.SizeAt(), h.size, f.W());
    AgreesHolds(out, s, h.offset, b);
  }

  lemma HeaderNames(f: Format, s: seq<Cell>, out: seq<byte>, at: nat, header: seq<byte>, h: Shdr, strings: nat, p: nat, name: seq<byte>)
    requires Agrees(out, s) && Holds(s, at, header) && header == Encode(f, h)
    requires Holds(s, p, name) && p == strings + h.name && h.name < B32
    ensures Names(f, out, at, strings, name)
  {
    HeaderHeld(f, s, at, h);
    FourBytes();
    WordHeld(f, s, out, at, h.name, 4);
    AgreesHolds(out, s, p, name);
  }

  /** The header at `at` names the section `name`, in the name table at `strings`. */
  predicate Names(f: Format, out: seq<byte>, at: nat, strings: nat, name: seq<byte>) {
    && at + 4 <= |out|
    && PieceAt(out, strings + Read(f, out, at, 4), name)
  }

  // ----- Where the pieces of a finished file are -----

  lemma HoldsAt(s: seq<Cell>, p: nat, q: nat, b: seq<byte>)
    requires Holds(s, p, b) && p == q
    ensures Holds(s, q, b)
  {
  }

  lemma Five(s: seq<Cell>, at: nat, a: seq<byte>, b: seq<byte>, c: seq<byte>, d: seq<byte>, e: seq<byte>)
    requires Holds(s, at, a + b + c + d + e)
    ensures Holds(s, at, a) && Holds(s, at + |a|, b) && Holds(s, at + |a| + |b|, c)
    ensures Holds(s, at + |a| + |b| + |c|, d) && Holds(s, at + |a| + |b| + |c| + |d|, e)
  {
    HoldsSplit(s, at, a + b + c + d, e);
    HoldsSplit(s, at, a + b + c, d);
    HoldsSplit(s, at, a + b, c);
    HoldsSplit(s, at, a, b);
  }

  predicate Apart(at: nat, n: nat, at': nat, n': nat) { at + n <= at' || at' + n' <= at }

  /** Two stores in different places are both found. */
  lemma StoredTwoFound(m: seq<byte>, at: nat, b: seq<byte>, at': nat, b': seq<byte>)
    requires at + |b| <= |m| && at' + |b'| <= |m| && Apart(at, |b|, at', |b'|)
    ensures var r := StoredTwo(m, at, b, at', b');
            r[at..at + |b|] == b && r[at'..at' + |b'|] == b'
  {
  }

  /** They change nothing elsewhere. */
  lemma StoredTwoKeeps(m: seq<byte>, at: nat, b: seq<byte>, at': nat, b': seq<byte>, p: nat, n: nat)
    requires at + |b| <= |m| && at' + |b'| <= |m| && p + n <= |m|
    requires Apart(at, |b|, p, n) && Apart(at', |b'|, p, n)
    ensures StoredTwo(m, at, b, at', b')[p..p + n] == m[p..p + n]
  {
  }

  lemma PartHeld(s: seq<Cell>, at: nat, b: seq<byte>, from: nat, part: seq<byte>)
    requires Holds(s, at, b) && from + |part| <= |b| && b[from..from + |part|] == part
    ensures Holds(s, at + from, part)
  {
    HoldsPart(s, at, b, from, from + |part|);
  }

  /** The pieces a reader looks at; `ndx` is the number of the section of names. */
  ghost predicate Placed(f: Format, m: seq<byte>, h: Heads, p: Parts, l: Layout, ndx: nat, strings: seq<byte>, s: seq<Cell>)
    requires f.EhdrSize() <= |m|
  {
    && Holds(s, f.ShoffAt(), p.shoff) && Holds(s, f.ShnumAt(), p.shnum)
    && Holds(s, f.ShstrndxAt(), m[f.ShstrndxAt()..f.ShstrndxAt() + 2])
    && Holds(s, l.names, strings + p.name)
    && Holds(s, HeaderAt(f, l.table, ndx) + f.SizeAt(), p.strSize)
    && Holds(s, HeaderAt(f, l.table, ndx) + f.OffsetAt(), p.strOffset)
    && Holds(s, HeaderAt(f, l.table, h.shnum), p.loc) && Holds(s, HeaderAt(f, l.table, h.shnum + 1), p.rel)
    && Holds(s, l.locs, p.locs) && Holds(s, l.rels, p.rels)
  }

  lemma HeadPlaced(f: Format, m: seq<byte>, shstr: nat, p: Parts, s: seq<Cell>)
    requires f.EhdrSize() <= shstr && shstr + f.ShdrSize() <= |m| && Sized(f, p)
    requires Holds(s, 0, Headed(f, Redirected(f, m, shstr, p), p))
    ensures Holds(s, f.ShoffAt(), p.shoff) && Holds(s, f.ShnumAt(), p.shnum)
    ensures Holds(s, f.ShstrndxAt(), m[f.ShstrndxAt()..f.ShstrndxAt() + 2])
  {
    var r := Redirected(f, m, shstr, p);
    var r', ndx := Headed(f, r, p), f.ShstrndxAt();
    StoredTwoFound(r, f.ShoffAt(), p.shoff, f.ShnumAt(), p.shnum);
    StoredTwoKeeps(r, f.ShoffAt(), p.shoff, f.ShnumAt(), p.shnum, ndx, 2);
    StoredTwoKeeps(m, shstr + f.SizeAt(), p.strSize, shstr + f.OffsetAt(), p.strOffset, ndx, 2);
    PartHeld(s, 0, r', f.ShoffAt(), p.shoff);
    PartHeld(s, 0, r', f.ShnumAt(), p.shnum);
    PartHeld(s, 0, r', ndx, m[ndx..ndx + 2]);
  }

  lemma TableSlice(f: Format, r: seq<byte>, h: Heads, ndx: nat, k: nat, part: seq<byte>)
    requires h.shoff + TableSize(f, h.shnum) <= |r| && ndx < h.shnum && k + |part| <= f.ShdrSize()
    requires var at := HeaderAt(f, h.shoff, ndx) + k; at + |part| <= |r| && r[at..at + |part|] == part
    ensures var from := TableSize(f, ndx) + k;
            from + |part| <= |Table(f, r, h)| && Table(f, r, h)[from..from + |part|] == part
  {
    var at, from := HeaderAt(f, h.shoff, ndx) + k, TableSize(f, ndx) + k;
    assert h.shoff + from == at && from + |part| <= TableSize(f, h.shnum);
    forall i | 0 <= i < |part| ensures Table(f, r, h)[from..from + |part|][i] == part[i] {
      assert r[at..at + |part|][i] == r[h.shoff + (from + i)];
    }
  }

  /** The offset and the size lie inside a header, one behind the other. */
  lemma FieldsInside(f: Format)
    ensures f.OffsetAt() + f.W() == f.SizeAt() && f.SizeAt() + f.W() <= f.ShdrSize()
  {
  }

  /** A field of an old header, found in the copied table. */
  lemma FieldPlaced(f: Format, r: seq<byte>, h: Heads, t: nat, ndx: nat, k: nat, part: seq<byte>, s: seq<Cell>)
    requires h.shoff + TableSize(f, h.shnum) <= |r| && ndx < h.shnum && k + |part| <= f.ShdrSize()
    requires var at := HeaderAt(f, h.shoff, ndx) + k; at + |part| <= |r| && r[at..at + |part|] == part
    requires Holds(s, t, Table(f, r, h))
    ensures Holds(s, HeaderAt(f, t, ndx) + k, part)
  {
    TableSlice(f, r, h, ndx, k, part);
    PartHeld(s, t, Table(f, r, h), TableSize(f, ndx) + k, part);
    HoldsAt(s, t + (TableSize(f, ndx) + k), HeaderAt(f, t, ndx) + k, part);
  }

  lemma NameHeaderPlaced(f: Format, m: seq<byte>, h: Heads, p: Parts, t: nat, ndx: nat, s: seq<Cell>)
    requires ndx < h.shnum && h.shoff + TableSize(f, h.shnum) <= |m| && Sized(f, p)
    requires HeaderAt(f, h.shoff, ndx) + f.ShdrSize() <= |m|
    requires Holds(s, t, Table(f, Redirected(f, m, HeaderAt(f, h.shoff, ndx), p), h))
    ensures Holds(s, HeaderAt(f, t, ndx) + f.SizeAt(), p.strSize) && Holds(s, HeaderAt(f, t, ndx) + f.OffsetAt(), p.strOffset)
  {
    var shstr := HeaderAt(f, h.shoff, ndx);
    var r := Redirected(f, m, shstr, p);
    FieldsInside(f);
    StoredTwoFound(m, shstr + f.SizeAt(), p.strSize, shstr + f.OffsetAt(), p.strOffset);
    FieldPlaced(f, r, h, t, ndx, f.SizeAt(), p.strSize, s);
    FieldPlaced(f, r, h, t, ndx, f.OffsetAt(), p.strOffset, s);
  }

  lemma BehindPlaced(f: Format, size: nat, h: Heads, p: Parts, l: Layout, table: seq<byte>, s: seq<Cell>)
    requires Sized(f, p) && l == LayoutOf(f, size, h, |p.name|, |p.locs|, |p.rels|) && |table| == TableSize(f, h.shnum)
    requires Holds(s, l.table, table + p.loc + p.rel + p.locs + p.rels)
    ensures Holds(s, l.table, table)
    ensures Holds(s, HeaderAt(f, l.table, h.shnum), p.loc) && Holds(s, HeaderAt(f, l.table, h.shnum + 1), p.rel)
    ensures Holds(s, l.locs, p.locs) && Holds(s, l.rels, p.rels)
  {
    Five(s, l.table, table, p.loc, p.rel, p.locs, p.rels);
    HoldsAt(s, l.table + |table|, HeaderAt(f, l.table, h.shnum), p.loc);
    HoldsAt(s, l.table + |table| + |p.loc|, HeaderAt(f, l.table, h.shnum + 1), p.rel);
    HoldsAt(s, l.table + |table| + |p.loc| + |p.rel|, l.locs, p.locs);
    HoldsAt(s, l.table + |table| + |p.loc| + |p.rel| + |p.locs|, l.rels, p.rels);
  }

  lemma FinishedPlaces(f: Format, m: seq<byte>, ndx: nat, h: Heads, p: Parts, l: Layout, s: seq<Cell>)
    requires var shstr := HeaderAt(f, h.shoff, ndx);
             Inside(f, |m|, shstr, h) && ndx < h.shnum && Sized(f, p) && Finished(f, m, shstr, h, p, s)
    requires l == LayoutOf(f, |m|, h, |p.name|, |p.locs|, |p.rels|)
    ensures Placed(f, m, h, p, l, ndx, Strings(Redirected(f, m, HeaderAt(f, h.shoff, ndx), p), h), s)
  {
    var shstr := HeaderAt(f, h.shoff, ndx);
    var r := Redirected(f, m, shstr, p);
    HeadPlaced(f, m, shstr, p, s);
    BehindPlaced(f, |m|, h, p, l, Table(f, r, h), s);
    NameHeaderPlaced(f, m, h, p, l.table, ndx, s);
  }

  // ----- What the reader makes of them -----

  /** The ELF header says: `n` sections, the names in section `ndx`, the headers at `t`. */
  predicate HeadIs(f: Format, out: seq<byte>, n: nat, ndx: nat, t: nat) {
    && f.EhdrSize() <= |out| && Read(f, out, f.ShnumAt(), 2) == n
    && Shstrndx(f, out) == ndx && Read(f, out, f.ShoffAt(), f.W()) == t
  }

  /** The header at `at` leads to the name table `names` at `strings`. */
  predicate NamesAt(f: Format, out: seq<byte>, at: nat, strings: nat, names: seq<byte>) {
    Locates(f, out, at, names) && Read(f, out, at + f.OffsetAt(), f.W()) == strings
  }

  /** What a header says of its section besides its place: the type and the flags, the symbol table and the
      section that relocations are for, and the size of the entries. */
  datatype Marks = Marks(kind: nat, flags: nat, link: nat, info: nat, entsize: nat)

  /** The locations: contents of the program, to be loaded, in words. */
  function LocMarks(f: Format): Marks { Marks(1, 2, 0, 0, f.W()) }

  /** The relocations, of either kind: for the section before, number `shnum`, and its symbols. */
  function RelMarks(f: Format, shnum: nat, entsize: nat, link: nat): Marks {
    Marks(if entsize == f.RelaSize() then 4 else 9, 0, link, shnum, entsize)
  }

  /** A reader of the `k` bytes at `at` finds `x`, if it fits. */
  predicate FieldIs(f: Format, out: seq<byte>, at: nat, x: nat, k: nat) {
    at + k <= |out| && (x < Pow256(k) ==> Read(f, out, at, k) == x)
  }

  /** The header at `at` says this, no address, and that the section is aligned to words. */
  predicate MarksOf(f: Format, out: seq<byte>, at: nat, m: Marks) {
    var w := f.W();
    && at + f.ShdrSize() <= |out| && FieldIs(f, out, at + 4, m.kind, 4) && FieldIs(f, out, at + 8, m.flags, w)
    && FieldIs(f, out, at + 8 + w, 0, w) && FieldIs(f, out, at + 8 + 4 * w, m.link, 4) && FieldIs(f, out, at + 12 + 4 * w, m.info, 4)
    && FieldIs(f, out, at + 16 + 4 * w, w, w) && FieldIs(f, out, at + f.EntsizeAt(), m.entsize, w)
  }

  /** The header at `at` leads to a section, and to its name in the table at `strings`. */
  predicate SectionAt(f: Format, out: seq<byte>, at: nat, strings: nat, b: seq<byte>, name: seq<byte>, m: Marks) {
    Locates(f, out, at, b) && Names(f, out, at, strings, name) && MarksOf(f, out, at, m)
  }

  function MarksIn(h: Shdr): Marks { Marks(h.kind, h.flags, h.link, h.info, h.entsize) }

  lemma FieldHeld(f: Format, s: seq<Cell>, out: seq<byte>, at: nat, x: nat, k: nat)
    requires Agrees(out, s) && Holds(s, at, Word(f, x, k)) && at + k <= |out|
    ensures FieldIs(f, out, at, x, k)
  {
    if x < Pow256(k) { WordHeld(f, s, out, at, x, k); }
  }

  lemma MarksHeld(f: Format, s: seq<Cell>, at: nat, h: Shdr)
    requires Holds(s, at, Encode(f, h))
    ensures Holds(s, at + 4, Word(f, h.kind, 4)) && Holds(s, at + 8, Word(f, h.flags, f.W()))
    ensures Holds(s, at + 8 + f.W(), Word(f, h.addr, f.W()))
    ensures Holds(s, at + 8 + 4 * f.W(), Word(f, h.link, 4)) && Holds(s, at + 12 + 4 * f.W(), Word(f, h.info, 4))
    ensures Holds(s, at + 16 + 4 * f.W(), Word(f, h.addralign, f.W())) && Holds(s, at + f.EntsizeAt(), Word(f, h.entsize, f.W()))
  {
    var w := f.W();
    var front := Word(f, h.name, 4) + Word(f, h.kind, 4) + Word(f, h.flags, w) + Word(f, h.addr, w);
    var mid := Word(f, h.offset, w) + Word(f, h.size, w);
    var back := Word(f, h.link, 4) + Word(f, h.info, 4) + Word(f, h.addralign, w) + Word(f, h.entsize, w);
    HoldsSplit(s, at, front + mid, back);
    HoldsSplit(s, at, front, mid);
    Four(s, at, Word(f, h.name, 4), Word(f, h.kind, 4), Word(f, h.flags, w), Word(f, h.addr, w));
    Four(s, at + |front + mid|, Word(f, h.link, 4), Word(f, h.info, 4), Word(f, h.addralign, w), Word(f, h.entsize, w));
  }

  lemma Four(s: seq<Cell>, at: nat, a: seq<byte>, b: seq<byte>, c: seq<byte>, d: seq<byte>)
    requires Holds(s, at, a + b + c + d)
    ensures Holds(s, at, a) && Holds(s, at + |a|, b) && Holds(s, at + |a| + |b|, c) && Holds(s, at + |a| + |b| + |c|, d)
  {
    HoldsSplit(s, at, a + b + c, d);
    HoldsSplit(s, at, a + b, c);
    HoldsSplit(s, at, a, b);
  }

  lemma HeaderMarks(f: Format, s: seq<Cell>, out: seq<byte>, at: nat, header: seq<byte>, h: Shdr)
    requires Agrees(out, s) && Holds(s, at, header) && header == Encode(f, h) && h.addr == 0 && h.addralign == f.W()
    requires at + f.ShdrSize() <= |out|
    ensures MarksOf(f, out, at, MarksIn(h))
  {
    var w := f.W();
    MarksHeld(f, s, at, h);
    FieldHeld(f, s, out, at + 4, h.kind, 4);
    FieldHeld(f, s, out, at + 8, h.flags, w);
    FieldHeld(f, s, out, at + 8 + w, h.addr, w);
    FieldHeld(f, s, out, at + 8 + 4 * w, h.link, 4);
    FieldHeld(f, s, out, at + 12 + 4 * w, h.info, 4);
    FieldHeld(f, s, out, at + 16 + 4 * w, h.addralign, w);
    FieldHeld(f, s, out, at + f.EntsizeAt(), h.entsize, w);
  }

  /** A section whose header, contents and name are in place is found. */
  lemma SectionFound(f: Format, s: seq<Cell>, out: seq<byte>, at: nat, header: seq<byte>, h: Shdr, b: seq<byte>,
                     strings: nat, name: seq<byte>)
    requires Agrees(out, s) && |out| < Pow256(f.W()) && h.name < B32 && Holds(s, at, header) && header == Encode(f, h)
    requires Holds(s, h.offset, b) && h.size == |b| && Holds(s, strings + h.name, name) && h.addr == 0 && h.addralign == f.W()
    ensures SectionAt(f, out, at, strings, b, name, MarksIn(h))
  {
    HeaderLocates(f, s, out, at, header, h, h.offset, b);
    HeaderMarks(f, s, out, at, header, h);
    HeaderNames(f, s, out, at, header, h, strings, strings + h.name, name);
  }

  lemma HeadFound(f: Format, m: seq<byte>, h: Heads, p: Parts, l: Layout, ndx: nat, strings: seq<byte>, s: seq<Cell>, out: seq<byte>)
    requires f.EhdrSize() <= |m| && Placed(f, m, h, p, l, ndx, strings, s) && Agrees(out, s)
    requires p.shoff == Word(f, l.table, f.W()) && p.shnum == Word(f, 2 + h.shnum, 2)
    requires l.table < Pow256(f.W()) && h.shnum + 2 < 0x1_0000
    ensures HeadIs(f, out, h.shnum + 2, Shstrndx(f, m), l.table)
  {
    WordHeld(f, s, out, f.ShoffAt(), l.table, f.W());
    HalfHeld(f, s, out, f.ShnumAt(), 2 + h.shnum);
    AgreesHolds(out, s, f.ShstrndxAt(), m[f.ShstrndxAt()..f.ShstrndxAt() + 2]);
    PieceRead(out, f.ShstrndxAt(), m[f.ShstrndxAt()..f.ShstrndxAt() + 2]);
  }

  lemma NamesFound(f: Format, m: seq<byte>, h: Heads, p: Parts, l: Layout, ndx: nat, strings: seq<byte>, s: seq<Cell>, out: seq<byte>)
    requires f.EhdrSize() <= |m| && Placed(f, m, h, p, l, ndx, strings, s) && Agrees(out, s) && |out| < Pow256(f.W())
    requires p.strSize == Word(f, |strings + p.name|, f.W()) && p.strOffset == Word(f, l.names, f.W())
    requires HeaderAt(f, l.table, ndx) + f.ShdrSize() <= |out|
    ensures NamesAt(f, out, HeaderAt(f, l.table, ndx), l.names, strings + p.name)
  {
    AgreesHolds(out, s, l.names, strings + p.name);
    WordHeld(f, s, out, HeaderAt(f, l.table, ndx) + f.SizeAt(), |strings + p.name|, f.W());
    WordHeld(f, s, out, HeaderAt(f, l.table, ndx) + f.OffsetAt(), l.names, f.W());
  }

  /** The two new sections are found, and their names in the new name table. */
  lemma NewFound(f: Format, m: seq<byte>, h: Heads, p: Parts, l: Layout, ndx: nat, strings: seq<byte>, lh: Shdr, rh: Shdr,
                 prefix: seq<byte>, name: seq<byte>, s: seq<Cell>, out: seq<byte>)
    requires f.EhdrSize() <= |m| && Placed(f, m, h, p, l, ndx, strings, s) && Agrees(out, s) && |out| < Pow256(f.W())
    requires p.name == prefix + name && |strings| == h.strSize && |prefix| + h.strSize < B32
    requires p.loc == Encode(f, lh) && lh.offset == l.locs && lh.size == |p.locs| && lh.name == |prefix| + h.strSize
    requires p.rel == Encode(f, rh) && rh.offset == l.rels && rh.size == |p.rels| && rh.name == h.strSize
    requires lh.addr == rh.addr == 0 && lh.addralign == rh.addralign == f.W()
    ensures SectionAt(f, out, HeaderAt(f, l.table, h.shnum), l.names, p.locs, name, MarksIn(lh))
    ensures SectionAt(f, out, HeaderAt(f, l.table, h.shnum + 1), l.names, p.rels, p.name, MarksIn(rh))
  {
    HoldsSplit(s, l.names, strings, p.name);
    HoldsSplit(s, l.names + |strings|, prefix, name);
    HoldsAt(s, l.names + |strings| + |prefix|, l.names + lh.name, name);
    SectionFound(f, s, out, HeaderAt(f, l.table, h.shnum), p.loc, lh, p.locs, l.names, name);
    SectionFound(f, s, out, HeaderAt(f, l.table, h.shnum + 1), p.rel, rh, p.rels, l.names, p.name);
  }

  /** The section names copied: those of the input once its name table header was redirected. */
  function CopiedNames(f: Format, m: seq<byte>, p: Parts): seq<byte>
    requires Complete(f, m) && Sized(f, p)
  {
    Strings(Redirected(f, m, NameHeader(f, m), p), HeadsIn(f, m))
  }

  /** The name table does not contain its own header. */
  predicate NamesApart(f: Format, m: seq<byte>)
    requires Complete(f, m)
  {
    Apart(NameHeader(f, m), f.ShdrSize(), HeadsIn(f, m).strOffset, HeadsIn(f, m).strSize)
  }

  /** Then they are just the names of the input. */
  lemma CopiedNamesSame(f: Format, m: seq<byte>, p: Parts)
    requires Complete(f, m) && Sized(f, p) && NamesApart(f, m)
    ensures CopiedNames(f, m, p) == Strings(m, HeadsIn(f, m))
  {
    var h, at := HeadsIn(f, m), NameHeader(f, m);
    FieldsInside(f);
    StoredTwoKeeps(m, at + f.SizeAt(), p.strSize, at + f.OffsetAt(), p.strOffset, h.strOffset, h.strSize);
  }

  /** In the file `out` a reader finds: the header table where the ELF header says, with two headers
      more than `shnum`; the name table `names`, through the header of section `ndx`; at the end
      of the table the locations and the relocations, with their names in the name table found and
      what their headers say of them. */
  ghost predicate Found(f: Format, out: seq<byte>, shnum: nat, ndx: nat, names: seq<byte>, locs: seq<byte>, locName: seq<byte>,
                        rels: seq<byte>, relName: seq<byte>, lm: Marks, rm: Marks) {
    exists t, strings ::
      && HeadIs(f, out, shnum + 2, ndx, t) && NamesAt(f, out, HeaderAt(f, t, ndx), strings, names)
      && SectionAt(f, out, HeaderAt(f, t, shnum), strings, locs, locName, lm)
      && SectionAt(f, out, HeaderAt(f, t, shnum + 1), strings, rels, relName, rm)
  }

  lemma FoundWhere(f: Format, out: seq<byte>, shnum: nat, ndx: nat, names: seq<byte>, locs: seq<byte>, locName: seq<byte>,
                   rels: seq<byte>, relName: seq<byte>, lm: Marks, rm: Marks) returns (t: nat)
    requires Found(f, out, shnum, ndx, names, locs, locName, rels, relName, lm, rm)
    ensures HeadIs(f, out, shnum + 2, ndx, t)
    ensures MarksOf(f, out, HeaderAt(f, t, shnum), lm) && MarksOf(f, out, HeaderAt(f, t, shnum + 1), rm)
    ensures Locates(f, out, HeaderAt(f, t, shnum), locs) && Locates(f, out, HeaderAt(f, t, shnum + 1), rels)
  {
    var u, strings :|
      && HeadIs(f, out, shnum + 2, ndx, u) && NamesAt(f, out, HeaderAt(f, u, ndx), strings, names)
      && SectionAt(f, out, HeaderAt(f, u, shnum), strings, locs, locName, lm)
      && SectionAt(f, out, HeaderAt(f, u, shnum + 1), strings, rels, relName, rm);
    t := u;
  }

  /** The parts say where everything is; `lh` and `rh` are the new headers, the name consists of
      `prefix` and `name`, the first of which the locations do without. */
  predicate Describes(f: Format, h: Heads, p: Parts, l: Layout, lh: Shdr, rh: Shdr, prefix: seq<byte>, name: seq<byte>) {
    && p.shoff == Word(f, l.table, f.W()) && p.shnum == Word(f, 2 + h.shnum, 2)
    && p.strSize == Word(f, h.strSize + |p.name|, f.W()) && p.strOffset == Word(f, l.names, f.W())
    && p.name == prefix + name
    && p.loc == Encode(f, lh) && lh.offset == l.locs && lh.size == |p.locs| && lh.name == |prefix| + h.strSize
    && p.rel == Encode(f, rh) && rh.offset == l.rels && rh.size == |p.rels| && rh.name == h.strSize
    && lh.addr == rh.addr == 0 && lh.addralign == rh.addralign == f.W()
  }

  lemma PartsDescribe(f: Format, size: nat, h: Heads, locs: seq<byte>, rels: seq<byte>, entsize: nat, link: nat, p: Parts, l: Layout)
    requires p == PartsOf(f, size, h, locs, rels, entsize, link) && l == LayoutOf(f, size, h, |p.name|, |locs|, |rels|)
    ensures var rela := entsize == f.RelaSize();
            Describes(f, h, p, l, LocSection(f, h, l, rela), RelSection(f, h, l, rela, entsize, link),
                      if rela then Ascii(".rela") else Ascii(".rel"), Ascii("__mcount_loc") + [0])
  {
  }

  lemma PartsFound(f: Format, m: seq<byte>, h: Heads, p: Parts, l: Layout, strings: seq<byte>, lh: Shdr, rh: Shdr,
                   prefix: seq<byte>, name: seq<byte>, s: seq<Cell>, out: seq<byte>)
    requires f.EhdrSize() <= |m| && Shstrndx(f, m) < h.shnum
    requires Placed(f, m, h, p, l, Shstrndx(f, m), strings, s) && Agrees(out, s) && |prefix| + h.strSize < B32
    requires l.table + TableSize(f, h.shnum + 2) <= |out| < Pow256(f.W()) && h.shnum + 2 < 0x1_0000 && |strings| == h.strSize
    requires Describes(f, h, p, l, lh, rh, prefix, name)
    ensures Found(f, out, h.shnum, Shstrndx(f, m), strings + p.name, p.locs, name, p.rels, p.name, MarksIn(lh), MarksIn(rh))
  {
    var ndx := Shstrndx(f, m);
    assert HeadIs(f, out, h.shnum + 2, ndx, l.table) by { HeadFound(f, m, h, p, l, ndx, strings, s, out); }
    assert NamesAt(f, out, HeaderAt(f, l.table, ndx), l.names, strings + p.name) by {
      NamesFound(f, m, h, p, l, ndx, strings, s, out);
    }
    NewFound(f, m, h, p, l, ndx, strings, lh, rh, prefix, name, s, out);
  }

  /** The new offsets, sizes and numbers fit their fields: addresses, 32-bit places of names, 16-bit
      section numbers. */
  predicate Representable(f: Format, m: seq<byte>, size: nat)
    requires HasHeads(f, m)
  {
    size < Pow256(f.W()) && 5 + HeadsIn(f, m).strSize < B32 && HeadsIn(f, m).shnum + 2 < 0x1_0000
  }

  /** The file `out` has all that `append_func` was to add to `m`, its section names being `strings`. */
  ghost predicate AllFound(f: Format, m: seq<byte>, strings: seq<byte>, locs: seq<byte>, rels: seq<byte>, entsize: nat,
                           link: nat, out: seq<byte>)
    requires Complete(f, m)
  {
    Found(f, out, HeadsIn(f, m).shnum, Shstrndx(f, m), strings + McName(entsize == f.RelaSize()),
          locs, Ascii("__mcount_loc") + [0], rels, McName(entsize == f.RelaSize()),
          LocMarks(f), RelMarks(f, HeadsIn(f, m).shnum, entsize, link))
  }

  lemma FinishedFound(f: Format, m: seq<byte>, h: Heads, p: Parts, l: Layout, strings: seq<byte>, lh: Shdr, rh: Shdr,
                      prefix: seq<byte>, name: seq<byte>, s: seq<Cell>, out: seq<byte>)
    requires Complete(f, m) && h == HeadsIn(f, m) && Sized(f, p) && Finished(f, m, NameHeader(f, m), h, p, s)
    requires l == LayoutOf(f, |m|, h, |p.name|, |p.locs|, |p.rels|) && Describes(f, h, p, l, lh, rh, prefix, name)
    requires Agrees(out, s) && |prefix| + h.strSize < B32 && |out| < Pow256(f.W()) && h.shnum + 2 < 0x1_0000
    requires strings == CopiedNames(f, m, p)
    ensures Found(f, out, h.shnum, Shstrndx(f, m), strings + p.name, p.locs, name, p.rels, p.name, MarksIn(lh), MarksIn(rh))
  {
    assert NameHeader(f, m) == HeaderAt(f, h.shoff, Shstrndx(f, m));
    FinishedPlaces(f, m, Shstrndx(f, m), h, p, l, s);
    PartsFound(f, m, h, p, l, strings, lh, rh, prefix, name, s, out);
  }

  /** What `append_func` is for. */
  lemma SectionsFound(f: Format, m: seq<byte>, locs: seq<byte>, rels: seq<byte>, entsize: nat, link: nat, s: seq<Cell>, out: seq<byte>)
    requires Complete(f, m) && Agrees(out, s)
    requires Finished(f, m, NameHeader(f, m), HeadsIn(f, m), PartsOf(f, |m|, HeadsIn(f, m), locs, rels, entsize, link), s)
    requires Representable(f, m, |out|)
    ensures var p := PartsOf(f, |m|, HeadsIn(f, m), locs, rels, entsize, link);
            AllFound(f, m, CopiedNames(f, m, p), locs, rels, entsize, link, out)
  {
    var h, rela := HeadsIn(f, m), entsize == f.RelaSize();
    var p := PartsOf(f, |m|, h, locs, rels, entsize, link);
    var l := LayoutOf(f, |m|, h, |p.name|, |locs|, |rels|);
    PartsDescribe(f, |m|, h, locs, rels, entsize, link, p, l);
    FinishedFound(f, m, h, p, l, CopiedNames(f, m, p), LocSection(f, h, l, rela), RelSection(f, h, l, rela, entsize, link),
                  if rela then Ascii(".rela") else Ascii(".rel"), Ascii("__mcount_loc") + [0], s, out);
  }

  /** `append_func`, then `write_file`: what a reader finds in the file written. */
  method AppendAndWrite(file: VirtualFile, f: Format, locs: seq<byte>, rels: seq<byte>, entsize: nat, link: nat)
    returns (ok: bool, out: seq<byte>, ghost strings: seq<byte>)
    requires file.Valid() && file.append == null && Complete(f, file.fileMap[..])
    modifies file, file.fileMap
    ensures ok <==> HeadsIn(f, old(file.fileMap[..])).strSize > 0
    ensures |strings| == HeadsIn(f, old(file.fileMap[..])).strSize
    ensures NamesApart(f, old(file.fileMap[..])) ==> strings == Strings(old(file.fileMap[..]), HeadsIn(f, old(file.fileMap[..])))
    ensures ok && Representable(f, old(file.fileMap[..]), |out|) ==>
              AllFound(f, old(file.fileMap[..]), strings, locs, rels, entsize, link, out)
  {
    ghost var m := file.fileMap[..];
    ghost var p := PartsOf(f, |m|, HeadsIn(f, m), locs, rels, entsize, link);
    strings := CopiedNames(f, m, p);
    if NamesApart(f, m) { CopiedNamesSame(f, m, p); }
    out := [];
    ok := AppendFunc(file, f, locs, rels, entsize, link);
    if ok {
      out := file.WriteFile();
      if Representable(f, m, |out|) {
        SectionsFound(f, m, locs, rels, entsize, link, file.ideal, out);
      }
    }
  }
}
