/** `fbputchar` and `fbputs` of `lab2/fbputchar.c`: characters drawn at twice their size into a
    framebuffer of 32-bit pixels. */
module Framebuffer {
  import opened Wrappers

  /** The font: 16 bytes for each of 128 characters, one byte a row, the leftmost pixel in the
      highest bit. */
  type Font = f: seq<byte> | |f| == 2048 witness seq(2048, _ => 0)

  /** The length of a line of the framebuffer in bytes, and where the visible part starts. */
  datatype Screen = Screen(lineLength: nat, xOffset: nat, yOffset: nat)

  /** The mask for column `x` of a font row. */
  function Mask(x: nat): (m: nat)
    requires x <= 8
  {
    if x == 0 then 128 else Mask(x - 1) / 2
  }

  lemma MaskPositive(x: nat)
    requires x < 8
    ensures Mask(x) > 0 && Mask(8) == 0
  {
    assert Mask(0) == 128 && Mask(1) == 64 && Mask(2) == 32 && Mask(3) == 16;
    assert Mask(4) == 8 && Mask(5) == 4 && Mask(6) == 2 && Mask(7) == 1;
  }

  /** Whether the font has pixel (`row`, `column`) of a character set. */
  predicate FontBit(font: Font, c: nat, row: nat, column: nat)
    requires c < 128 && row < 16 && column < 8
  {
    MaskPositive(column);
    font[16 * c + row] / Mask(column) % 2 == 1
  }

  /** The byte at which line `y` of the cell at (`row`, `col`) starts. */
  function Left(s: Screen, row: nat, col: nat, y: nat): nat {
    s.lineLength * (row * 32 + s.yOffset + y) + (col * 16 + s.xOffset) * 4
  }

  /** The cell is inside a line, and inside the framebuffer. */
  predicate Fits(s: Screen, size: nat, row: nat, col: nat) {
    (col * 16 + s.xOffset) * 4 + 64 <= s.lineLength && Left(s, row, col, 31) + 64 <= size
  }

  /** Byte `b` of line `y` of a cell. */
  function CellByte(font: Font, c: nat, y: nat, b: nat): byte
    requires c < 128 && y < 32 && b < 64
  {
    if b % 4 == 3 then 0 else if FontBit(font, c, y / 2, b / 8) then 255 else 0
  }

  lemma LeftNext(s: Screen, row: nat, col: nat, y: nat)
    ensures Left(s, row, col, y + 1) == Left(s, row, col, y) + s.lineLength
  {
  }

  lemma {:induction false} LinesAscend(s: Screen, row: nat, col: nat, y: nat, z: nat)
    requires y < z
    ensures Left(s, row, col, y) + s.lineLength <= Left(s, row, col, z)
    decreases z
  {
    LeftNext(s, row, col, z - 1);
    if y < z - 1 { LinesAscend(s, row, col, y, z - 1); }
  }

  predicate InLine(s: Screen, row: nat, col: nat, y: nat, i: int) {
    Left(s, row, col, y) <= i < Left(s, row, col, y) + 64
  }

  /** The byte `i` is in one of the first `n` lines of the cell. */
  ghost predicate InCell(s: Screen, row: nat, col: nat, n: nat, i: int) {
    exists y: nat :: y < n && InLine(s, row, col, y, i)
  }

  /** The first `n` lines of a cell show the character, and nothing else changed. */
  ghost predicate Drawn(font: Font, s: Screen, c: nat, row: nat, col: nat, n: nat, was: seq<byte>, now: seq<byte>)
    requires c < 128 && n <= 32 && Fits(s, |was|, row, col) && |now| == |was|
  {
    && (forall y: nat | y < n :: LineShown(font, s, c, row, col, y, now))
    && (forall i | 0 <= i < |was| && !InCell(s, row, col, n, i) :: now[i] == was[i])
  }

  ghost predicate LineShown(font: Font, s: Screen, c: nat, row: nat, col: nat, y: nat, now: seq<byte>)
    requires c < 128 && y < 32 && Fits(s, |now|, row, col)
  {
    LineInside(s, |now|, row, col, y);
    forall b: nat | b < 64 :: now[Left(s, row, col, y) + b] == CellByte(font, c, y, b)
  }

  lemma LineInside(s: Screen, size: nat, row: nat, col: nat, y: nat)
    requires Fits(s, size, row, col) && y < 32
    ensures Left(s, row, col, y) + 64 <= size
  {
    if y < 31 { LinesAscend(s, row, col, y, 31); }
  }

  // ----- Drawing -----

  /** One pixel, of four bytes. */
  method PutPixel(fb: array<byte>, at: nat, white: bool)
    requires at + 4 <= fb.Length
    modifies fb
    ensures fb[at] == fb[at + 1] == fb[at + 2] == (if white then 255 else 0) && fb[at + 3] == 0
    ensures forall i | 0 <= i < fb.Length && !(at <= i < at + 4) :: fb[i] == old(fb[i])
  {
    if white {
      fb[at], fb[at + 1], fb[at + 2], fb[at + 3] := 255, 255, 255, 0;
    } else {
      fb[at], fb[at + 1], fb[at + 2], fb[at + 3] := 0, 0, 0, 0;
    }
  }

  /** The inner loop: one line of the cell, two pixels for each bit. */
  method PutLine(fb: array<byte>, ghost font: Font, ghost c: nat, ghost y: nat, pixels: byte, left: nat)
    requires c < 128 && y < 32 && pixels == font[16 * c + y / 2] && left + 64 <= fb.Length
    modifies fb
    ensures forall b: nat | b < 64 :: fb[left + b] == CellByte(font, c, y, b)
    ensures forall i | 0 <= i < fb.Length && !(left <= i < left + 64) :: fb[i] == old(fb[i])
  {
    var pixel, mask, x := left, 128, 0;
    while x < 8
      invariant x <= 8 && pixel == left + 8 * x && mask == Mask(x)
      invariant forall b: nat | b < 8 * x :: fb[left + b] == CellByte(font, c, y, b)
      invariant forall i | 0 <= i < fb.Length && !(left <= i < left + 64) :: fb[i] == old(fb[i])
    {
      MaskPositive(x);
      ghost var was := fb[..];
      var white := pixels / mask % 2 == 1;
      PutPixel(fb, pixel, white);
      pixel := pixel + 4;
      PutPixel(fb, pixel, white);
      pixel := pixel + 4;
      ByteOf(font, c, y, x, fb[..], was, left);
      mask := mask / 2;
      x := x + 1;
    }
  }

  lemma ByteOf(font: Font, c: nat, y: nat, x: nat, now: seq<byte>, was: seq<byte>, left: nat)
    requires c < 128 && y < 32 && x < 8 && |now| == |was| && left + 64 <= |now|
    requires var v := if FontBit(font, c, y / 2, x) then 255 else 0; var p := left + 8 * x;
             now[p] == now[p + 1] == now[p + 2] == now[p + 4] == now[p + 5] == now[p + 6] == v && now[p + 3] == now[p + 7] == 0
    requires forall b: nat | b < 8 * x :: now[left + b] == was[left + b] == CellByte(font, c, y, b)
    ensures forall b: nat | b < 8 * (x + 1) :: now[left + b] == CellByte(font, c, y, b)
  {
    forall b: nat | 8 * x <= b < 8 * (x + 1) ensures now[left + b] == CellByte(font, c, y, b) {
      assert b / 8 == x;
      var k := b - 8 * x;
      assert k == 0 || k == 1 || k == 2 || k == 3 || k == 4 || k == 5 || k == 6 || k == 7;
    }
  }

  lemma DrawnNext(font: Font, s: Screen, c: nat, row: nat, col: nat, n: nat, was: seq<byte>, mid: seq<byte>, now: seq<byte>)
    requires c < 128 && n < 32 && Fits(s, |was|, row, col) && |was| == |mid| == |now|
    requires Drawn(font, s, c, row, col, n, was, mid)
    requires LineShown(font, s, c, row, col, n, now)
    requires forall i | 0 <= i < |now| && !InLine(s, row, col, n, i) :: now[i] == mid[i]
    ensures Drawn(font, s, c, row, col, n + 1, was, now)
  {
    forall y: nat | y < n + 1 ensures LineShown(font, s, c, row, col, y, now) {
      if y < n { LineStays(font, s, c, row, col, y, n, mid, now); }
    }
    forall i | 0 <= i < |was| && !InCell(s, row, col, n + 1, i) ensures now[i] == was[i] {
      assert n < n + 1 && !InLine(s, row, col, n, i);
      CellGrows(s, row, col, n, i);
    }
  }

  lemma CellGrows(s: Screen, row: nat, col: nat, n: nat, i: int)
    ensures InCell(s, row, col, n, i) ==> InCell(s, row, col, n + 1, i)
  {
    if InCell(s, row, col, n, i) {
      var y: nat :| y < n && InLine(s, row, col, y, i);
      assert y < n + 1;
    }
  }

  lemma LineStays(font: Font, s: Screen, c: nat, row: nat, col: nat, y: nat, n: nat, mid: seq<byte>, now: seq<byte>)
    requires c < 128 && y < n < 32 && Fits(s, |mid|, row, col) && |now| == |mid|
    requires LineShown(font, s, c, row, col, y, mid)
    requires forall i | 0 <= i < |now| && !InLine(s, row, col, n, i) :: now[i] == mid[i]
    ensures LineShown(font, s, c, row, col, y, now)
  {
    LineInside(s, |mid|, row, col, y);
    LinesAscend(s, row, col, y, n);
    forall b: nat | b < 64 ensures now[Left(s, row, col, y) + b] == CellByte(font, c, y, b) {
      var i := Left(s, row, col, y) + b;
      assert !InLine(s, row, col, n, i);
      assert mid[Left(s, row, col, y) + b] == CellByte(font, c, y, b);
    }
  }

  /** `fbputchar`. */
  method PutChar(fb: array<byte>, font: Font, s: Screen, c: nat, row: nat, col: nat)
    requires c < 128 && Fits(s, fb.Length, row, col)
    modifies fb
    ensures Drawn(font, s, c, row, col, 32, old(fb[..]), fb[..])
  {
    ghost var was := fb[..];
    var y, pixelp, left := 0, 16 * c, s.lineLength * (row * 32 + s.yOffset) + (col * 16 + s.xOffset) * 4;
    while y < 32
      invariant y <= 32 && pixelp == 16 * c + y / 2 && left == Left(s, row, col, y)
      invariant Drawn(font, s, c, row, col, y, was, fb[..])
    {
      ghost var mid := fb[..];
      LineInside(s, fb.Length, row, col, y);
      PutLine(fb, font, c, y, font[pixelp], left);
      DrawnNext(font, s, c, row, col, y, was, mid, fb[..]);
      LeftNext(s, row, col, y);
      if y % 2 == 1 { pixelp := pixelp + 1; }
      y, left := y + 1, left + s.lineLength;
    }
  }

  // ----- Strings -----

  predicate Text(str: seq<nat>) { forall k | 0 <= k < |str| :: 0 < str[k] < 128 }

  ghost predicate Shows(font: Font, s: Screen, c: nat, row: nat, col: nat, now: seq<byte>)
    requires c < 128 && Fits(s, |now|, row, col)
  {
    forall y: nat | y < 32 :: LineShown(font, s, c, row, col, y, now)
  }

  predicate RowFits(s: Screen, size: nat, row: nat, col: nat, n: nat) {
    forall k: nat | k < n :: CellFits(s, size, row, col, k)
  }

  predicate CellFits(s: Screen, size: nat, row: nat, col: nat, k: nat) { Fits(s, size, row, col + k) }

  ghost predicate CellShows(font: Font, s: Screen, c: nat, row: nat, col: nat, k: nat, now: seq<byte>)
    requires c < 128 && CellFits(s, |now|, row, col, k)
  {
    Shows(font, s, c, row, col + k, now)
  }

  ghost predicate Outside(s: Screen, row: nat, col: nat, k: nat, i: int) { !InCell(s, row, col + k, 32, i) }

  /** The first `n` characters stand in their cells, and nothing else changed. */
  ghost predicate Standing(font: Font, s: Screen, str: seq<nat>, row: nat, col: nat, n: nat, was: seq<byte>, now: seq<byte>)
    requires Text(str) && n <= |str| && RowFits(s, |was|, row, col, |str|) && |now| == |was|
  {
    && (forall k: nat | k < n :: CellShows(font, s, str[k], row, col, k, now))
    && (forall i | 0 <= i < |was| && (forall k: nat | k < n :: Outside(s, row, col, k, i)) :: now[i] == was[i])
  }

  /** Cells of one row do not share a byte. */
  lemma CellsApart(s: Screen, size: nat, row: nat, a: nat, b: nat, y: nat, z: nat, i: int)
    requires Fits(s, size, row, a) && Fits(s, size, row, b) && a != b
    requires InLine(s, row, a, y, i)
    ensures !InLine(s, row, b, z, i)
  {
    if y < z {
      LineApart(s, row, a, b, y, z);
    } else if z < y {
      LineApart(s, row, b, a, z, y);
    }
  }

  lemma LineApart(s: Screen, row: nat, a: nat, b: nat, y: nat, z: nat)
    requires y < z && (a * 16 + s.xOffset) * 4 + 64 <= s.lineLength
    ensures Left(s, row, a, y) + 64 <= Left(s, row, b, z)
  {
    LinesAscend(s, row, b, y, z);
    assert Left(s, row, a, y) - Left(s, row, b, y) == (a * 16 + s.xOffset) * 4 - (b * 16 + s.xOffset) * 4;
  }

  lemma ShowsStays(font: Font, s: Screen, c: nat, d: nat, row: nat, a: nat, b: nat, was: seq<byte>, now: seq<byte>)
    requires c < 128 && d < 128 && |now| == |was| && Fits(s, |was|, row, a) && Fits(s, |was|, row, b) && a != b
    requires Shows(font, s, c, row, a, was) && Drawn(font, s, d, row, b, 32, was, now)
    ensures Shows(font, s, c, row, a, now)
  {
    forall y: nat | y < 32 ensures LineShown(font, s, c, row, a, y, now) {
      LineInside(s, |was|, row, a, y);
      assert LineShown(font, s, c, row, a, y, was);
      forall k: nat | k < 64 ensures now[Left(s, row, a, y) + k] == CellByte(font, c, y, k) {
        var i := Left(s, row, a, y) + k;
        forall z: nat | z < 32 ensures !InLine(s, row, b, z, i) {
          CellsApart(s, |was|, row, a, b, y, z, i);
        }
        assert was[Left(s, row, a, y) + k] == CellByte(font, c, y, k);
      }
    }
  }

  lemma StandingNext(font: Font, s: Screen, str: seq<nat>, row: nat, col: nat, n: nat, was: seq<byte>, mid: seq<byte>, now: seq<byte>)
    requires Text(str) && n < |str| && |was| == |mid| == |now| && RowFits(s, |was|, row, col, |str|)
    requires CellFits(s, |was|, row, col, n) && Standing(font, s, str, row, col, n, was, mid)
    requires Drawn(font, s, str[n], row, col + n, 32, mid, now)
    ensures Standing(font, s, str, row, col, n + 1, was, now)
  {
    assert CellFits(s, |was|, row, col, n);
    forall k: nat | k < n + 1 ensures CellShows(font, s, str[k], row, col, k, now) {
      assert CellFits(s, |was|, row, col, k);
      if k < n { ShowsStays(font, s, str[k], str[n], row, col + k, col + n, mid, now); }
    }
    forall i | 0 <= i < |was| && (forall k: nat | k < n + 1 :: Outside(s, row, col, k, i)) ensures now[i] == was[i] {
      assert Outside(s, row, col, n, i);
      assert now[i] == mid[i];
    }
  }

  /** `fbputs`: every character ends up in its own cell. */
  method PutString(fb: array<byte>, font: Font, s: Screen, str: seq<nat>, row: nat, col: nat)
    requires Text(str) && RowFits(s, fb.Length, row, col, |str|)
    modifies fb
    ensures Standing(font, s, str, row, col, |str|, old(fb[..]), fb[..])
  {
    ghost var was := fb[..];
    var k := 0;
    while k < |str|
      invariant k <= |str| && Standing(font, s, str, row, col, k, was, fb[..])
    {
      ghost var mid := fb[..];
      assert CellFits(s, fb.Length, row, col, k);
      PutChar(fb, font, s, str[k], row, col + k);
      StandingNext(font, s, str, row, col, k, was, mid, fb[..]);
      k := k + 1;
    }
  }

  /** What a pixel of a drawn character is: white exactly if the font has it set. */
  lemma PixelShown(font: Font, s: Screen, c: nat, row: nat, col: nat, y: nat, x: nat, was: seq<byte>, now: seq<byte>)
    requires c < 128 && Fits(s, |was|, row, col) && |now| == |was| && Drawn(font, s, c, row, col, 32, was, now)
    requires y < 32 && x < 16
    ensures Left(s, row, col, y) + 4 * x + 3 < |now|
    ensures var p := Left(s, row, col, y) + 4 * x;
            now[p] == now[p + 1] == now[p + 2] == (if FontBit(font, c, y / 2, x / 2) then 255 else 0) && now[p + 3] == 0
  {
    LineInside(s, |now|, row, col, y);
    assert LineShown(font, s, c, row, col, y, now);
    PixelByte(font, s, c, row, col, y, x, 0, now);
    PixelByte(font, s, c, row, col, y, x, 1, now);
    PixelByte(font, s, c, row, col, y, x, 2, now);
    PixelByte(font, s, c, row, col, y, x, 3, now);
  }

  lemma PixelByte(font: Font, s: Screen, c: nat, row: nat, col: nat, y: nat, x: nat, k: nat, now: seq<byte>)
    requires c < 128 && Fits(s, |now|, row, col) && y < 32 && x < 16 && k < 4 && LineShown(font, s, c, row, col, y, now)
    requires Left(s, row, col, y) + 64 <= |now|
    ensures now[Left(s, row, col, y) + 4 * x + k] == if k < 3 && FontBit(font, c, y / 2, x / 2) then 255 else 0
  {
    var b: nat := 4 * x + k;
    assert b % 4 == k && b / 8 == x / 2;
    assert now[Left(s, row, col, y) + b] == CellByte(font, c, y, b);
  }
}
