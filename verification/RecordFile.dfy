/** The virtual file of `scripts/recordmcount.c`: a file of fixed size mapped into memory and a
    buffer for what is appended behind it, written through `ulseek` and `uwrite`. */
module RecordFile {
  import opened Wrappers

  // ----- The ideal: one growable array of bytes -----

  /** A byte of the ideal file. Bytes that a seek skipped were never set. */
  datatype Cell = Unset | Set(value: byte)

  /** Plain seek-and-write: the file grows to the end of the write, the rest stays. */
  function Written(s: seq<Cell>, at: nat, b: seq<byte>): (r: seq<Cell>)
    ensures |r| == if |s| < at + |b| then at + |b| else |s|
  {
    seq(if |s| < at + |b| then at + |b| else |s|, i requires 0 <= i => WrittenCell(s, at, b, i))
  }

  function WrittenCell(s: seq<Cell>, at: nat, b: seq<byte>, i: nat): Cell {
    if at <= i < at + |b| then Set(b[i - at]) else if i < |s| then s[i] else Unset
  }

  /** The file has the bytes `b` at `at`. */
  predicate Holds(s: seq<Cell>, at: nat, b: seq<byte>) {
    at + |b| <= |s| && forall i | 0 <= i < |b| :: s[at + i] == Set(b[i])
  }

  lemma WrittenHolds(s: seq<Cell>, at: nat, b: seq<byte>)
    ensures Holds(Written(s, at, b), at, b)
  {
  }

  /** A write changes nothing outside its range. */
  lemma WrittenKeeps(s: seq<Cell>, at: nat, b: seq<byte>, p: nat, c: seq<byte>)
    requires Holds(s, p, c) && (p + |c| <= at || at + |b| <= p)
    ensures Holds(Written(s, at, b), p, c)
  {
    var r := Written(s, at, b);
    forall i | 0 <= i < |c| ensures r[p + i] == Set(c[i]) {
      assert r[p + i] == s[p + i];
    }
  }

  /** Writing on where the last write ended. */
  lemma WrittenOn(s: seq<Cell>, p: nat, a: seq<byte>, b: seq<byte>)
    requires Holds(s, p, a)
    ensures Holds(Written(s, p + |a|, b), p, a + b)
  {
    WrittenHolds(s, p + |a|, b);
    WrittenKeeps(s, p + |a|, b, p, a);
    HoldsJoin(Written(s, p + |a|, b), p, a, b);
  }

  lemma WrittenSame(s: seq<Cell>, at: nat, b: seq<byte>)
    requires Holds(s, at, b)
    ensures Written(s, at, b) == s
  {
    var r := Written(s, at, b);
    forall i | 0 <= i < |s| ensures r[i] == s[i] {
      if at <= i < at + |b| { assert s[at + (i - at)] == Set(b[i - at]); }
    }
  }

  lemma HoldsPart(s: seq<Cell>, at: nat, b: seq<byte>, lo: nat, hi: nat)
    requires Holds(s, at, b) && lo <= hi <= |b|
    ensures Holds(s, at + lo, b[lo..hi])
  {
    forall i | 0 <= i < hi - lo ensures s[at + lo + i] == Set(b[lo..hi][i]) {
      assert s[at + (lo + i)] == Set(b[lo + i]);
    }
  }

  lemma HoldsSplit(s: seq<Cell>, at: nat, b: seq<byte>, c: seq<byte>)
    requires Holds(s, at, b + c)
    ensures Holds(s, at, b) && Holds(s, at + |b|, c)
  {
    HoldsPart(s, at, b + c, 0, |b|);
    HoldsPart(s, at, b + c, |b|, |b + c|);
    assert (b + c)[0..|b|] == b && (b + c)[|b|..|b + c|] == c;
  }

  lemma HoldsJoin(s: seq<Cell>, at: nat, b: seq<byte>, c: seq<byte>)
    requires Holds(s, at, b) && Holds(s, at + |b|, c)
    ensures Holds(s, at, b + c)
  {
    forall i | 0 <= i < |b + c| ensures s[at + i] == Set((b + c)[i]) {
      if i >= |b| { assert s[at + |b| + (i - |b|)] == Set(c[i - |b|]); }
    }
  }

  /** `out` is a file the ideal allows: bytes never set may be anything. */
  predicate Agrees(out: seq<byte>, s: seq<Cell>) {
    |out| == |s| && forall i | 0 <= i < |s| :: s[i].Set? ==> out[i] == s[i].value
  }

  /** `b` has the bytes `c` at `p`. */
  predicate PieceAt(b: seq<byte>, p: nat, c: seq<byte>) {
    p + |c| <= |b| && forall i {:trigger c[i]} | 0 <= i < |c| :: b[p + i] == c[i]
  }

  lemma PieceRead(out: seq<byte>, at: nat, c: seq<byte>)
    requires PieceAt(out, at, c)
    ensures out[at..at + |c|] == c
  {
  }

  lemma AgreesHolds(out: seq<byte>, s: seq<Cell>, at: nat, b: seq<byte>)
    requires Agrees(out, s) && Holds(s, at, b)
    ensures PieceAt(out, at, b)
  {
    forall i | 0 <= i < |b| ensures out[at + i] == b[i] {
      assert s[at + i] == Set(b[i]);
    }
  }

  /** One write, split at the end of the image, agrees with the ideal write. */
  lemma SplitWrite(image: seq<byte>, more: seq<byte>, s: seq<Cell>, at: nat, b: seq<byte>,
                   image': seq<byte>, more': seq<byte>, cnt: nat)
    requires Agrees(image + more, s) && |image'| == |image|
    requires cnt == if at + |b| <= |image| then |b| else if at < |image| then |image| - at else 0
    requires forall i | 0 <= i < |image| :: image'[i] == if at <= i < at + cnt then b[i - at] else image[i]
    requires |image| + |more'| == |Written(s, at, b)|
    requires forall i {:trigger more'[i]} | 0 <= i < |more'| ::
               if at <= |image| + i < at + |b| then more'[i] == b[|image| + i - at] else i < |more| ==> more'[i] == more[i]
    ensures Agrees(image' + more', Written(s, at, b))
  {
    var r := Written(s, at, b);
    forall i | 0 <= i < |r| ensures r[i].Set? ==> (image' + more')[i] == r[i].value {
      if i < |s| { assert s[i].Set? ==> (image + more)[i] == s[i].value; }
      if i >= |image| { assert (image' + more')[i] == more'[i - |image|]; }
    }
  }

  /** The image after a store into it. */
  function Stored(m: seq<byte>, at: nat, b: seq<byte>): (r: seq<byte>)
    requires at + |b| <= |m|
    ensures |r| == |m| && forall i | 0 <= i < |m| :: r[i] == if at <= i < at + |b| then b[i - at] else m[i]
  {
    m[..at] + b + m[at + |b|..]
  }

  datatype Whence = SeekSet | SeekCur | SeekEnd

  class VirtualFile {
    const fileMap: array<byte>
    var append: array?<byte>
    var appendSize: nat
    /** `file_ptr`, relative to the start of the map. */
    var ptr: int
    var updated: bool
    var mapped: bool
    ghost var ideal: seq<Cell>

    ghost predicate Valid()
      reads this, fileMap, append
    {
      && mapped && append != fileMap && ptr >= 0
      && appendSize == (if append == null then 0 else append.Length)
      && Agrees(Contents(), ideal) && forall i | 0 <= i < fileMap.Length :: ideal[i].Set?
    }

    lemma MapHeld()
      requires Valid()
      ensures Holds(ideal, 0, fileMap[..])
    {
    }

    function Appended(): seq<byte>
      reads this, append
    {
      if append == null then [] else append[..]
    }

    /** The file as it will be written: the map, then what is appended. */
    function Contents(): seq<byte>
      reads this, fileMap, append
    {
      fileMap[..] + Appended()
    }

    constructor (file: seq<byte>)
      ensures Valid() && fresh(fileMap) && fileMap[..] == file && append == null && ptr == 0 && !updated
      ensures |ideal| == |file| && Holds(ideal, 0, file)
    {
      fileMap := new byte[|file|](i requires 0 <= i < |file| => file[i]);
      append, appendSize, ptr, updated, mapped := null, 0, 0, false, true;
      ideal := seq(|file|, i requires 0 <= i < |file| => Cell.Set(file[i]));
    }

    /** `cleanup`, on the way out of a failed file. */
    method Cleanup()
      modifies this
      ensures !mapped && append == null && appendSize == 0 && !updated
      ensures unchanged(this`ptr) && unchanged(this`ideal)
    {
      mapped, append, appendSize, updated := false, null, 0, false;
    }

    function Target(offset: int, whence: Whence): int
      reads this
    {
      match whence
      case SeekSet => offset
      case SeekCur => ptr + offset
      case SeekEnd => fileMap.Length - offset
    }

    /** `ulseek`: fails for a position before the file. */
    method Seek(offset: int, whence: Whence) returns (ok: bool)
      requires Valid()
      modifies this
      ensures ok <==> old(Target(offset, whence)) >= 0
      ensures ok ==> Valid() && ptr == old(Target(offset, whence)) && ideal == old(ideal)
      ensures ok ==> append == old(append) && updated == old(updated)
      ensures !ok ==> !mapped
    {
      match whence {
        case SeekSet => ptr := offset;
        case SeekCur => ptr := ptr + offset;
        case SeekEnd => ptr := fileMap.Length - offset;
      }
      ok := ptr >= 0;
      if !ok { Cleanup(); }
    }

    /** `realloc` of the append buffer: the new bytes are unspecified. */
    method Grow(size: nat)
      requires appendSize == (if append == null then 0 else append.Length) && size > appendSize
      modifies this`append, this`appendSize
      ensures append != null && fresh(append) && appendSize == append.Length == size
      ensures old(append) != null ==> append[..old(appendSize)] == old(append[..])
    {
      var bigger := new byte[size];
      if append != null {
        forall i | 0 <= i < appendSize { bigger[i] := append[i]; }
        assert bigger[..appendSize] == append[..];
      }
      append, appendSize := bigger, size;
    }

    /** Makes room for `aoffset` appended bytes. */
    method Reserve(aoffset: nat) returns (ok: bool)
      requires appendSize == if append == null then 0 else append.Length
      modifies this
      ensures unchanged(this`ptr) && unchanged(this`ideal)
      ensures ok <==> !(old(append) == null && aoffset == 0)
      ensures !ok ==> !mapped
      ensures ok ==> unchanged(this`mapped) && unchanged(this`updated) && append != null
      ensures ok ==> appendSize == append.Length == if aoffset > old(appendSize) then aoffset else old(appendSize)
      ensures ok ==> if aoffset > old(appendSize) then fresh(append) else append == old(append)
      ensures ok && old(append) != null ==> append[..old(appendSize)] == old(append[..])
    {
      if aoffset > appendSize { Grow(aoffset); }
      ok := append != null;
      if !ok { Cleanup(); }
    }

    /** How much of a write goes into the map, and where the rest starts in the append buffer,
        which is made large enough. */
    method Divide(buf: seq<byte>) returns (ok: bool, cnt: nat, idx: nat)
      requires Valid()
      modifies this
      ensures unchanged(this`ptr) && unchanged(this`ideal)
      ensures ok <==> !old(append == null && ptr + |buf| == fileMap.Length)
      ensures !ok ==> !mapped
      ensures ok ==> mapped && updated && append != fileMap && appendSize == (if append == null then 0 else append.Length)
      ensures ok ==> (append == old(append) || fresh(append)) && (ptr + |buf| >= fileMap.Length ==> append != null)
      ensures cnt == if ptr + |buf| <= fileMap.Length then |buf| else if ptr < fileMap.Length then fileMap.Length - ptr else 0
      ensures ok && cnt < |buf| ==> fileMap.Length + idx == ptr + cnt && idx + |buf| - cnt <= |Appended()|
      ensures ok ==> fileMap.Length + |Appended()| == |Written(ideal, ptr, buf)| && old(Appended()) <= Appended()
    {
      cnt, idx := |buf|, 0;
      updated, ok := true, true;
      if ptr + |buf| >= fileMap.Length {
        ok := Reserve(ptr + |buf| - fileMap.Length);
        if ptr < fileMap.Length {
          cnt := fileMap.Length - ptr;
        } else {
          cnt := 0;
          idx := ptr - fileMap.Length;
        }
      }
    }

    /** Copies the two parts of a write. */
    method CopyBoth(buf: seq<byte>, cnt: nat, idx: nat)
      requires append != fileMap && ptr >= 0 && cnt <= |buf| && (cnt > 0 ==> ptr + cnt <= fileMap.Length)
      requires cnt < |buf| ==> idx + |buf| - cnt <= |Appended()|
      modifies fileMap, append
      ensures forall i | 0 <= i < fileMap.Length ::
                fileMap[i] == if ptr <= i < ptr + cnt then buf[i - ptr] else old(fileMap[i])
      ensures append != null ==> forall i | 0 <= i < append.Length ::
                append[i] == if idx <= i < idx + |buf| - cnt then buf[cnt + (i - idx)] else old(append[i])
    {
      if cnt > 0 { CopyTo(fileMap, ptr, buf[..cnt]); }
      if cnt < |buf| { CopyTo(append, idx, buf[cnt..]); }
    }

    /** A write leaves no byte of the map unset. */
    static lemma WrittenSet(s: seq<Cell>, at: nat, b: seq<byte>, n: nat)
      requires n <= |s| && forall i | 0 <= i < n :: s[i].Set?
      ensures forall i | 0 <= i < n :: Written(s, at, b)[i].Set?
    {
    }

    /** `uwrite` of `buf`: fails, although nothing is wrong, when the write ends exactly at the end
        of the map and nothing has been appended yet. */
    method Write(buf: seq<byte>) returns (ok: bool)
      requires Valid()
      modifies this, fileMap, append
      ensures ok <==> !old(append == null && ptr + |buf| == fileMap.Length)
      ensures ok ==> Valid() && updated && ptr == old(ptr) + |buf| && ideal == Written(old(ideal), old(ptr), buf)
      ensures ok && old(ptr) + |buf| >= fileMap.Length ==> append != null
      ensures ok ==> (append == old(append) || fresh(append))
      ensures ok && old(ptr) >= fileMap.Length ==> fileMap[..] == old(fileMap[..])
      ensures !ok ==> !mapped
    {
      ghost var was, more := fileMap[..], Appended();
      var cnt, idx;
      ok, cnt, idx := Divide(buf);
      if !ok { return; }
      CopyBoth(buf, cnt, idx);
      SplitWrite(was, more, ideal, ptr, buf, fileMap[..], Appended(), cnt);
      WrittenSet(ideal, ptr, buf, fileMap.Length);
      ideal := Written(ideal, ptr, buf);
      ptr := ptr + |buf|;
    }

    /** A store through a pointer into the map. */
    method Store(at: nat, b: seq<byte>)
      requires Valid() && at + |b| <= fileMap.Length
      modifies fileMap, this`ideal
      ensures Valid() && ideal == Written(old(ideal), at, b)
      ensures fileMap[..] == Stored(old(fileMap[..]), at, b)
    {
      ghost var was, more := fileMap[..], Appended();
      CopyTo(fileMap, at, b);
      SplitWrite(was, more, ideal, at, b, fileMap[..], more, |b|);
      ideal := Written(ideal, at, b);
    }

    /** `write_file`: nothing if nothing was updated, else the map and what was appended. */
    method WriteFile() returns (out: seq<byte>)
      requires Valid()
      ensures updated ==> Agrees(out, ideal)
      ensures !updated ==> out == []
    {
      if !updated { return []; }
      out := fileMap[..];
      if append != null { out := out + append[..]; }
    }
  }

  /** `memcpy`. */
  method CopyTo(a: array<byte>, at: nat, b: seq<byte>)
    requires at + |b| <= a.Length
    modifies a
    ensures forall i | 0 <= i < a.Length :: a[i] == if at <= i < at + |b| then b[i - at] else old(a[i])
  {
    forall i | at <= i < at + |b| { a[i] := b[i - at]; }
  }
}
