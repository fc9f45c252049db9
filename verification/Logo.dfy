/** The writers of `scripts/pnmtologo.c`: an image is packed into one bit, four bits, or one
    palette index a pixel. Each contract says how a reader unpacks every pixel. */
module Logo {
  import opened Sequences
  import opened Words
  import opened Wrappers

  datatype Color = Color(red: byte, green: byte, blue: byte)

  type Image = seq<seq<Color>>

  predicate Rectangular(img: Image, w: nat) { forall i | 0 <= i < |img| :: |img[i]| == w }

  const BLACK := Color(0, 0, 0)
  const WHITE := Color(255, 255, 255)

  // ----- Rows -----

  /** The bytes written, row after row. */
  function Flat(rows: seq<seq<byte>>): seq<byte> {
    if rows == [] then [] else Flat(rows[..|rows| - 1]) + rows[|rows| - 1]
  }

  predicate Even(rows: seq<seq<byte>>, stride: nat) { forall k | 0 <= k < |rows| :: |rows[k]| == stride }

  lemma {:induction false} FlatLength(rows: seq<seq<byte>>, stride: nat)
    requires Even(rows, stride)
    ensures |Flat(rows)| == stride * |rows|
    decreases |rows|
  {
    if rows != [] {
      FlatLength(rows[..|rows| - 1], stride);
      assert stride * |rows| == stride * (|rows| - 1) + stride;
    }
  }

  /** With rows of equal length, byte `p` of row `i` is found by its number. */
  lemma {:induction false} FlatAt(rows: seq<seq<byte>>, stride: nat, i: nat, p: nat)
    requires Even(rows, stride) && i < |rows| && p < stride
    ensures stride * i + p < |Flat(rows)| && Flat(rows)[stride * i + p] == rows[i][p]
    decreases |rows|
  {
    var front := rows[..|rows| - 1];
    FlatLength(front, stride);
    FlatLength(rows, stride);
    if i < |front| { FlatAt(front, stride, i, p); }
  }

  lemma FlatLast(rows: seq<seq<byte>>, row: seq<byte>)
    ensures Flat(rows + [row]) == Flat(rows) + row
  {
    assert (rows + [row])[..|rows|] == rows;
  }

  // ----- Bits -----

  lemma {:induction false} OrSum(x: nat, y: nat, n: nat)
    requires y < Pow2(n)
    ensures BitOr(x * Pow2(n), y) == x * Pow2(n) + y
    decreases n, x
  {
    if n == 0 {
      assert x * Pow2(0) == x;
      if x > 0 { assert (x / 2) * Pow2(0) == x / 2; OrSum(x / 2, 0, 0); }
    } else {
      var h := x * Pow2(n - 1);
      assert x * Pow2(n) == 2 * h;
      OrSum(x, y / 2, n - 1);
    }
  }

  // ----- One bit a pixel -----

  predicate Monochrome(img: Image) {
    forall i, j | 0 <= i < |img| && 0 <= j < |img[i]| :: img[i][j] == BLACK || img[i][j] == WHITE
  }

  /** The pixel a reader sees in a byte, `x` from the left. */
  function MonoPixel(b: byte, x: nat): Color
    requires x < 8
  {
    if Bit(b, 7 - x) then WHITE else BLACK
  }

  predicate MonoRow(row: seq<Color>, n: nat, bytes: seq<byte>)
    requires n <= |row|
  {
    |bytes| == (n + 7) / 8 && forall j: nat | j < n :: MonoPixel(bytes[j / 8], j % 8) == row[j]
  }

  /** The inner loop: up to eight pixels become a byte. */
  method PackByte(row: seq<Color>, start: nat) returns (val: byte, j: nat)
    requires start < |row| && forall c | c in row :: c == BLACK || c == WHITE
    ensures j == if start + 8 < |row| then start + 8 else |row|
    ensures forall x: nat | x < j - start :: MonoPixel(val, x) == row[start + x]
  {
    val, j := 0, start;
    var bit := 0x80;
    ghost var x: nat := 0;
    assert Pow2(7) == 128;
    while bit != 0 && j < |row|
      invariant x <= 8 && j == start + x <= |row| && bit == if x < 8 then Pow2(7 - x) else 0
      invariant forall k: nat | k < 8 :: Bit(val, k) <==> 7 - k < x && row[start + 7 - k] == WHITE
      decreases 8 - x
    {
      assert row[j] in row;
      ghost var was := val;
      if row[j].red != 0 {
        assert Pow2(8) == 256;
        Pow2Mono(7 - x, 7);
        OrBelow(val, bit, 8);
        val := BitOr(val, bit);
        forall k: nat | k < 8 ensures Bit(val, k) <==> Bit(was, k) || k == 7 - x {
          OrBits(was, bit, k);
          PowerBit(7 - x, k);
        }
      }
      forall k: nat | k < 8 ensures Bit(val, k) <==> 7 - k < x + 1 && row[start + 7 - k] == WHITE {
        assert k == 7 - x ==> start + 7 - k == j;
      }
      j, bit, x := j + 1, bit / 2, x + 1;
    }
    forall y: nat | y < j - start ensures MonoPixel(val, y) == row[start + y] {
      assert Bit(val, 7 - y) <==> row[start + 7 - (7 - y)] == WHITE;
      assert row[start + y] in row;
    }
  }

  method PackMono(row: seq<Color>) returns (bytes: seq<byte>)
    requires forall c | c in row :: c == BLACK || c == WHITE
    ensures MonoRow(row, |row|, bytes)
  {
    bytes := [];
    var j := 0;
    while j < |row|
      invariant j <= |row| && (j % 8 == 0 || j == |row|) && MonoRow(row, j, bytes)
    {
      var val, next := PackByte(row, j);
      ghost var was := bytes;
      bytes := bytes + [val];
      forall k: nat | k < next ensures MonoPixel(bytes[k / 8], k % 8) == row[k] {
        if j <= k { assert k / 8 == |was| && k % 8 == k - j; } else { assert bytes[k / 8] == was[k / 8]; }
      }
      j := next;
    }
  }

  /** The validation loop. */
  method IsMonochrome(img: Image) returns (ok: bool)
    ensures ok <==> Monochrome(img)
  {
    var i := 0;
    while i < |img|
      invariant i <= |img| && Monochrome(img[..i])
    {
      var j := 0;
      while j < |img[i]|
        invariant j <= |img[i]| && forall k | 0 <= k < j :: img[i][k] == BLACK || img[i][k] == WHITE
      {
        if img[i][j] != BLACK && img[i][j] != WHITE { return false; }
        j := j + 1;
      }
      i := i + 1;
    }
    assert img[..i] == img;
    ok := true;
  }

  /** A reader who knows the width finds every pixel, rows starting at whole bytes. */
  predicate UnpacksMono(img: Image, w: nat, stride: nat, out: seq<byte>) {
    && Rectangular(img, w) && stride == (w + 7) / 8 && |out| == stride * |img|
    && forall i: nat, j: nat | i < |img| && j < w :: MonoFound(out, stride, i, j, img[i][j])
  }

  /** The pixel in row `i` and column `j`. */
  predicate MonoFound(out: seq<byte>, stride: nat, i: nat, j: nat, c: Color) {
    stride * i + j / 8 < |out| && MonoPixel(out[stride * i + j / 8], j % 8) == c
  }

  lemma MonoUnpacks(img: Image, w: nat, rows: seq<seq<byte>>, stride: nat)
    requires Rectangular(img, w) && |rows| == |img| && Even(rows, stride) && stride == (w + 7) / 8
    requires forall k | 0 <= k < |img| :: MonoRow(img[k], w, rows[k])
    ensures UnpacksMono(img, w, stride, Flat(rows))
  {
    var out := Flat(rows);
    FlatLength(rows, stride);
    forall i: nat, j: nat | i < |img| && j < w ensures MonoFound(out, stride, i, j, img[i][j]) {
      MonoAt(img[i], w, rows, stride, i, j);
    }
  }

  lemma MonoAt(row: seq<Color>, w: nat, rows: seq<seq<byte>>, stride: nat, i: nat, j: nat)
    requires |row| == w && i < |rows| && j < w && Even(rows, stride) && MonoRow(row, w, rows[i])
    ensures MonoFound(Flat(rows), stride, i, j, row[j])
  {
    FlatAt(rows, stride, i, j / 8);
  }

  /** `write_logo_mono`: fails exactly for an image with other colours than black and white. */
  method WriteLogoMono(img: Image, w: nat) returns (ok: bool, out: seq<byte>)
    requires Rectangular(img, w)
    ensures ok <==> Monochrome(img)
    ensures ok ==> UnpacksMono(img, w, (w + 7) / 8, out)
  {
    out := [];
    ok := IsMonochrome(img);
    if !ok { return; }
    ghost var stride, rows: seq<seq<byte>> := (w + 7) / 8, [];
    var i := 0;
    while i < |img|
      invariant i <= |img| && |rows| == i && Even(rows, stride) && out == Flat(rows)
      invariant forall k | 0 <= k < i :: MonoRow(img[k], w, rows[k])
    {
      var bytes := PackMono(img[i]);
      FlatLast(rows, bytes);
      out, rows, i := out + bytes, rows + [bytes], i + 1;
    }
    MonoUnpacks(img, w, rows, stride);
  }

  // ----- Four bits a pixel -----

  /** The sixteen console colours. */
  const VGA16: seq<Color> := [
    Color(0, 0, 0), Color(0, 0, 0xaa), Color(0, 0xaa, 0), Color(0, 0xaa, 0xaa),
    Color(0xaa, 0, 0), Color(0xaa, 0, 0xaa), Color(0xaa, 0x55, 0), Color(0xaa, 0xaa, 0xaa),
    Color(0x55, 0x55, 0x55), Color(0x55, 0x55, 0xff), Color(0x55, 0xff, 0x55), Color(0x55, 0xff, 0xff),
    Color(0xff, 0x55, 0x55), Color(0xff, 0x55, 0xff), Color(0xff, 0xff, 0x55), Color(0xff, 0xff, 0xff)]

  /** The colour of a number by its bits: blue, green, red, and brighter; but 6 is brown, its green
      being dark. */
  function ConsoleColor(k: nat): Color {
    var light := if k / 8 % 2 == 1 then 0x55 else 0;
    Color((if k / 4 % 2 == 1 then 0xaa else 0) + light,
          (if k == 6 then 0x55 else if k / 2 % 2 == 1 then 0xaa else 0) + light,
          (if k % 2 == 1 then 0xaa else 0) + light)
  }

  lemma ConsoleColors()
    ensures |VGA16| == 16 && forall k | 0 <= k < 16 :: VGA16[k] == ConsoleColor(k)
  {
    forall k | 0 <= k < 16 ensures VGA16[k] == ConsoleColor(k) {
      assert k in {0, 1, 2, 3, 4, 5, 6, 7, 8, 9, 10, 11, 12, 13, 14, 15};
    }
  }

  /** The inner loops that look a colour up: its first index, or the size of the palette. */
  method Lookup(palette: seq<Color>, c: Color) returns (k: nat)
    ensures k <= |palette| && (k < |palette| <==> c in palette)
    ensures k < |palette| ==> palette[k] == c
  {
    k := 0;
    while k < |palette|
      invariant k <= |palette| && c !in palette[..k]
    {
      if palette[k] == c { return; }
      k := k + 1;
    }
    assert palette[..k] == palette;
  }

  predicate OnlyColors(img: Image, palette: seq<Color>) {
    forall i, j | 0 <= i < |img| && 0 <= j < |img[i]| :: img[i][j] in palette
  }

  /** The index in a byte: the high half for an even column, the low one for an odd. */
  function Nibble(b: byte, j: nat): nat { if j % 2 == 0 then b / 16 else b % 16 }

  predicate NibbleRow(row: seq<Color>, palette: seq<Color>, n: nat, bytes: seq<byte>)
    requires n <= |row|
  {
    |bytes| == (n + 1) / 2
    && forall j: nat | j < n :: Nibble(bytes[j / 2], j) < |palette| && palette[Nibble(bytes[j / 2], j)] == row[j]
  }

  method PackNibbles(row: seq<Color>, palette: seq<Color>) returns (bytes: seq<byte>)
    requires |palette| == 16 && forall c | c in row :: c in palette
    ensures NibbleRow(row, palette, |row|, bytes)
  {
    bytes := [];
    var j := 0;
    while j < |row|
      invariant j <= |row| + 1 && (j % 2 == 0 || j == |row|)
      invariant NibbleRow(row, palette, if j <= |row| then j else |row|, bytes)
    {
      ghost var start, was := j, bytes;
      assert row[j] in row;
      var k := Lookup(palette, row[j]);
      var val := 16 * k;
      j := j + 1;
      ghost var low := 0;
      if j < |row| {
        assert row[j] in row;
        var k' := Lookup(palette, row[j]);
        assert Pow2(4) == 16 && k * Pow2(4) == val;
        OrSum(k, k', 4);
        val := BitOr(val, k');
        low := k';
      }
      assert val == 16 * k + low && val / 16 == k && val % 16 == low;
      bytes := bytes + [val];
      j := j + 1;
      NibblesMore(row, palette, start, was, val);
    }
  }

  lemma NibblesMore(row: seq<Color>, palette: seq<Color>, start: nat, was: seq<byte>, val: byte)
    requires start < |row| && start % 2 == 0 && NibbleRow(row, palette, start, was)
    requires val / 16 < |palette| && palette[val / 16] == row[start]
    requires start + 1 < |row| ==> val % 16 < |palette| && palette[val % 16] == row[start + 1]
    ensures NibbleRow(row, palette, if start + 2 <= |row| then start + 2 else |row|, was + [val])
  {
    var bytes := was + [val];
    forall j: nat | j < |row| && j < start + 2 ensures Nibble(bytes[j / 2], j) < |palette| && palette[Nibble(bytes[j / 2], j)] == row[j] {
      if j < start { assert bytes[j / 2] == was[j / 2]; } else { assert j / 2 == |was|; }
    }
  }

  predicate UnpacksNibbles(img: Image, palette: seq<Color>, w: nat, stride: nat, out: seq<byte>) {
    && Rectangular(img, w) && stride == (w + 1) / 2 && |out| == stride * |img|
    && forall i: nat, j: nat | i < |img| && j < w :: NibbleFound(out, palette, stride, i, j, img[i][j])
  }

  predicate NibbleFound(out: seq<byte>, palette: seq<Color>, stride: nat, i: nat, j: nat, c: Color) {
    stride * i + j / 2 < |out| && Indexes(palette, Nibble(out[stride * i + j / 2], j), c)
  }

  predicate Indexes(palette: seq<Color>, k: nat, c: Color) { k < |palette| && palette[k] == c }

  lemma NibblesUnpack(img: Image, palette: seq<Color>, w: nat, rows: seq<seq<byte>>, stride: nat)
    requires Rectangular(img, w) && |rows| == |img| && Even(rows, stride) && stride == (w + 1) / 2
    requires forall k | 0 <= k < |img| :: NibbleRow(img[k], palette, w, rows[k])
    ensures UnpacksNibbles(img, palette, w, stride, Flat(rows))
  {
    var out := Flat(rows);
    FlatLength(rows, stride);
    forall i: nat, j: nat | i < |img| && j < w ensures NibbleFound(out, palette, stride, i, j, img[i][j]) {
      NibbleAt(img[i], palette, w, rows, stride, i, j);
    }
  }

  lemma NibbleAt(row: seq<Color>, palette: seq<Color>, w: nat, rows: seq<seq<byte>>, stride: nat, i: nat, j: nat)
    requires |row| == w && i < |rows| && j < w && Even(rows, stride) && NibbleRow(row, palette, w, rows[i])
    ensures NibbleFound(Flat(rows), palette, stride, i, j, row[j])
  {
    FlatAt(rows, stride, i, j / 2);
  }

  /** The validation loops of `write_logo_vga16`. */
  method UsesOnly(img: Image, palette: seq<Color>) returns (ok: bool)
    ensures ok <==> OnlyColors(img, palette)
  {
    var i := 0;
    while i < |img|
      invariant i <= |img| && OnlyColors(img[..i], palette)
    {
      var j := 0;
      while j < |img[i]|
        invariant j <= |img[i]| && forall k | 0 <= k < j :: img[i][k] in palette
      {
        var k := Lookup(palette, img[i][j]);
        if k == |palette| { return false; }
        j := j + 1;
      }
      i := i + 1;
    }
    assert img[..i] == img;
    ok := true;
  }

  /** `write_logo_vga16`: fails exactly for an image with other than the console colours. */
  method WriteLogoVga16(img: Image, w: nat) returns (ok: bool, out: seq<byte>)
    requires Rectangular(img, w)
    ensures ok <==> OnlyColors(img, VGA16)
    ensures ok ==> UnpacksNibbles(img, VGA16, w, (w + 1) / 2, out)
  {
    out := [];
    ok := UsesOnly(img, VGA16);
    if !ok { return; }
    ghost var stride, rows: seq<seq<byte>> := (w + 1) / 2, [];
    var i := 0;
    while i < |img|
      invariant i <= |img| && |rows| == i && Even(rows, stride) && out == Flat(rows)
      invariant forall k | 0 <= k < i :: NibbleRow(img[k], VGA16, w, rows[k])
    {
      var bytes := PackNibbles(img[i], VGA16);
      FlatLast(rows, bytes);
      out, rows, i := out + bytes, rows + [bytes], i + 1;
    }
    NibblesUnpack(img, VGA16, w, rows, stride);
  }

  // ----- A palette index a pixel -----

  const MAX_LINUX_LOGO_COLORS := 224

  predicate Occurs(img: Image, c: Color) { exists i :: 0 <= i < |img| && c in img[i] }

  predicate AllOccur(img: Image, palette: seq<Color>) { forall k | 0 <= k < |palette| :: Occurs(img, palette[k]) }

  /** The image has more colours than a palette can hold: these, and one more. */
  ghost predicate TooMany(img: Image) {
    exists palette: seq<Color> :: |palette| == MAX_LINUX_LOGO_COLORS + 1 && Distinct(palette) && AllOccur(img, palette)
  }

  /** The first loops of `write_logo_clut224`: `logo_clut` grows by every new colour. */
  method BuildClut(img: Image) returns (ok: bool, clut: seq<Color>)
    ensures ok ==> Distinct(clut) && |clut| <= MAX_LINUX_LOGO_COLORS && OnlyColors(img, clut) && AllOccur(img, clut)
    ensures !ok ==> TooMany(img)
  {
    clut := [];
    var i := 0;
    while i < |img|
      invariant i <= |img| && Distinct(clut) && |clut| <= MAX_LINUX_LOGO_COLORS
      invariant OnlyColors(img[..i], clut) && AllOccur(img, clut)
    {
      var j := 0;
      while j < |img[i]|
        invariant j <= |img[i]| && Distinct(clut) && |clut| <= MAX_LINUX_LOGO_COLORS
        invariant OnlyColors(img[..i], clut) && AllOccur(img, clut) && forall k | 0 <= k < j :: img[i][k] in clut
      {
        var k := Lookup(clut, img[i][j]);
        if k == |clut| {
          assert img[i][j] in img[i];
          assert AllOccur(img, clut + [img[i][j]]) && Distinct(clut + [img[i][j]]);
          if |clut| == MAX_LINUX_LOGO_COLORS { return false, clut; }
          clut := clut + [img[i][j]];
        }
        j := j + 1;
      }
      i := i + 1;
    }
    assert img[..i] == img;
    ok := true;
  }

  /** Indexes start at 32. */
  predicate Selects(clut: seq<Color>, b: byte, c: Color) { b >= 32 && Indexes(clut, b - 32, c) }

  predicate IndexRow(row: seq<Color>, clut: seq<Color>, n: nat, bytes: seq<byte>)
    requires n <= |row|
  {
    |bytes| == n && forall j: nat | j < n :: Selects(clut, bytes[j], row[j])
  }

  method PackIndexes(row: seq<Color>, clut: seq<Color>) returns (bytes: seq<byte>)
    requires |clut| <= MAX_LINUX_LOGO_COLORS && forall c | c in row :: c in clut
    ensures IndexRow(row, clut, |row|, bytes)
  {
    bytes := [];
    var j := 0;
    while j < |row|
      invariant j <= |row| && IndexRow(row, clut, j, bytes)
    {
      assert row[j] in row;
      var k := Lookup(clut, row[j]);
      bytes := bytes + [k + 32];
      j := j + 1;
    }
  }

  /** The palette as written: red, green and blue of every colour. */
  predicate IsPalette(clut: seq<Color>, n: nat, bytes: seq<byte>)
    requires n <= |clut|
  {
    |bytes| == 3 * n && forall k: nat | k < n :: clut[k] == Color(bytes[3 * k], bytes[3 * k + 1], bytes[3 * k + 2])
  }

  method WriteClut(clut: seq<Color>) returns (bytes: seq<byte>)
    ensures IsPalette(clut, |clut|, bytes)
  {
    bytes := [];
    var i := 0;
    while i < |clut|
      invariant i <= |clut| && IsPalette(clut, i, bytes)
    {
      bytes := bytes + [clut[i].red, clut[i].green, clut[i].blue];
      i := i + 1;
    }
  }

  predicate UnpacksIndexes(img: Image, clut: seq<Color>, w: nat, out: seq<byte>) {
    && Rectangular(img, w) && |out| == w * |img|
    && forall i: nat, j: nat | i < |img| && j < w :: IndexFound(out, clut, w, i, j, img[i][j])
  }

  predicate IndexFound(out: seq<byte>, clut: seq<Color>, w: nat, i: nat, j: nat, c: Color) {
    w * i + j < |out| && Selects(clut, out[w * i + j], c)
  }

  lemma IndexesUnpack(img: Image, clut: seq<Color>, w: nat, rows: seq<seq<byte>>)
    requires Rectangular(img, w) && |rows| == |img| && Even(rows, w)
    requires forall k | 0 <= k < |img| :: IndexRow(img[k], clut, w, rows[k])
    ensures UnpacksIndexes(img, clut, w, Flat(rows))
  {
    var out := Flat(rows);
    FlatLength(rows, w);
    forall i: nat, j: nat | i < |img| && j < w ensures IndexFound(out, clut, w, i, j, img[i][j]) {
      IndexAt(img[i], clut, w, rows, i, j);
    }
  }

  lemma IndexAt(row: seq<Color>, clut: seq<Color>, w: nat, rows: seq<seq<byte>>, i: nat, j: nat)
    requires |row| == w && i < |rows| && j < w && Even(rows, w) && IndexRow(row, clut, w, rows[i])
    ensures IndexFound(Flat(rows), clut, w, i, j, row[j])
  {
    FlatAt(rows, w, i, j);
  }

  /** A palette that covers the image shows that it has no more colours. */
  lemma NotTooMany(img: Image, clut: seq<Color>)
    requires OnlyColors(img, clut) && |clut| <= MAX_LINUX_LOGO_COLORS
    ensures !TooMany(img)
  {
    forall p: seq<Color> | Distinct(p) && AllOccur(img, p) ensures |p| <= MAX_LINUX_LOGO_COLORS {
      forall c | c in p ensures c in Members(clut) {
        var k :| 0 <= k < |p| && p[k] == c;
        assert Occurs(img, p[k]);
      }
      DistinctWithin(p, Members(clut));
      MembersBound(clut);
    }
  }

  /** The second loops of `write_logo_clut224`. */
  method WriteIndexes(img: Image, clut: seq<Color>, w: nat) returns (out: seq<byte>)
    requires Rectangular(img, w) && OnlyColors(img, clut) && |clut| <= MAX_LINUX_LOGO_COLORS
    ensures UnpacksIndexes(img, clut, w, out)
  {
    out := [];
    ghost var rows: seq<seq<byte>> := [];
    var i := 0;
    while i < |img|
      invariant i <= |img| && |rows| == i && Even(rows, w) && out == Flat(rows)
      invariant forall k | 0 <= k < i :: IndexRow(img[k], clut, w, rows[k])
    {
      var bytes := PackIndexes(img[i], clut);
      FlatLast(rows, bytes);
      out, rows, i := out + bytes, rows + [bytes], i + 1;
    }
    IndexesUnpack(img, clut, w, rows);
  }

  /** `write_logo_clut224`: the palette has no duplicates, and every byte, from 32 on, selects the
      colour of its pixel; it fails exactly for an image with more than 224 colours. */
  method WriteLogoClut224(img: Image, w: nat) returns (ok: bool, out: seq<byte>, palette: seq<byte>, ghost clut: seq<Color>)
    requires Rectangular(img, w)
    ensures ok ==> Distinct(clut) && |clut| <= MAX_LINUX_LOGO_COLORS && IsPalette(clut, |clut|, palette)
    ensures ok ==> UnpacksIndexes(img, clut, w, out)
    ensures ok <==> !TooMany(img)
  {
    out, palette := [], [];
    var colors;
    ok, colors := BuildClut(img);
    clut := colors;
    if ok {
      NotTooMany(img, colors);
      out := WriteIndexes(img, colors, w);
      palette := WriteClut(colors);
    }
  }
}
