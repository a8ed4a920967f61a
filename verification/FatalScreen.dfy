/** ScreenClear and ScreenReport of src/BS2/BS2Fatal.c: text drawn into a 4:2:2 frame buffer of
    four bytes for two pixels, luma, Cb, luma, Cr. The font is a parameter. */
module FatalScreen {
  import opened Bytes
  import Arithmetic

  /** GXColor after RGB2YUV: r is luma, g is Cb, b is Cr. */
  datatype Yuv = Yuv(y: Byte, cb: Byte, cr: Byte)

  // ---------------------------------------------------------------- pixels and bytes

  /** The pixels in this many rows of a frame w pixels wide. */
  function Rows(row: nat, w: nat): nat {
    if row == 0 then 0 else Rows(row - 1, w) + w
  }

  lemma {:induction false} RowsIsProduct(row: nat, w: nat)
    ensures Rows(row, w) == row * w
  {
    if row > 0 {
      RowsIsProduct(row - 1, w);
      assert (row - 1) * w + w == row * w;
    }
  }

  /** The number of the pixel in this row and column. */
  function Pixel(row: nat, column: nat, w: nat): nat {
    Rows(row, w) + column
  }

  /** The chroma byte behind an even pixel is Cb, behind an odd one Cr. */
  function Lane(color: Yuv, column: nat): Byte {
    if column % 2 == 0 then color.cb else color.cr
  }

  /** The luma a texel of 1 to 15 is drawn with. */
  function Luma(y: Byte, texel: nat): int {
    y * (texel * 0xEF) / 255 / 15 + 0x10
  }

  /** A texel of 15 in full white is 255; others are scaled down between 16 and that, in one division by
      255 * 15 as well as in the source's two. */
  lemma LumaScaled(y: Byte, texel: nat)
    requires texel < 16
    ensures Luma(255, 15) == 255
    ensures 255 * 15 * (Luma(y, texel) - 16) <= 239 * (y * texel) < 255 * 15 * (Luma(y, texel) - 15)
  {
    var product := y * (texel * 0xEF);
    assert product == 239 * (y * texel);
    assert product / 255 >= 0;
  }

  lemma LumaFits(y: Byte, texel: nat)
    requires texel < 16
    ensures 0x10 <= Luma(y, texel) < 256
  {
    var product := y * (texel * 0xEF);
    assert 0 <= product <= 255 * (15 * 0xEF) by {
      Arithmetic.Monotone(y, 255, texel * 0xEF);
    }
    assert product / 255 <= 15 * 0xEF;
  }

  lemma {:induction false} PixelInside(row: nat, column: nat, w: nat, h: nat)
    requires row < h && column < w
    ensures Pixel(row, column, w) < Rows(h, w)
    decreases h
  {
    if row < h - 1 {
      PixelInside(row, column, w, h - 1);
    }
  }

  lemma PixelInjective(row: nat, column: nat, row': nat, column': nat, w: nat)
    requires column < w && column' < w
    ensures Pixel(row, column, w) == Pixel(row', column', w) <==> row == row' && column == column'
  {
    if row < row' {
      PixelInside(row, column, w, row');
    } else if row > row' {
      PixelInside(row', column', w, row);
    }
  }

  /** Pixels of even columns have even numbers, and their chroma bytes are at 1 modulo 4. */
  lemma {:induction false} LaneOfByte(row: nat, column: nat, w: nat)
    requires w % 2 == 0
    ensures Pixel(row, column, w) % 2 == column % 2
    ensures (2 * Pixel(row, column, w) + 1) % 4 == if column % 2 == 0 then 1 else 3
  {
    if row > 0 {
      LaneOfByte(row - 1, column, w);
    }
  }

  // ---------------------------------------------------------------- the font's images

  /** The image of a character: 72 words of eight four-bit texels, in tiles of eight by eight. */
  datatype Glyph = Glyph(length: nat, width: nat, image: seq<U32>)

  /** The font takes at least one character and gives a width of at most 24. */
  ghost predicate ValidFont(font: string -> Glyph) {
    forall s :: s != "" ==> GlyphFits(font, s)
  }

  predicate GlyphFits(font: string -> Glyph, s: string) {
    1 <= font(s).length <= |s| && font(s).width <= 24 && |font(s).image| == 72
  }

  /** Which word of the image, and which of its eight texels from the top, shows row i, column k. */
  function WordIndex(i: nat, k: nat): nat {
    i % 8 + i / 8 * 24 + k / 8 * 8
  }

  function NibbleIndex(k: nat): nat {
    7 - k % 8
  }

  function Nibble(word: nat, n: nat): (t: nat)
    ensures t < 16
    decreases n
  {
    if n == 0 then word % 16 else Nibble(word / 16, n - 1)
  }

  function Texel(image: seq<U32>, i: nat, k: nat): (t: nat)
    requires |image| == 72 && i < 24 && k < 24
    ensures t < 16
  {
    Nibble(image[WordIndex(i, k)], NibbleIndex(k))
  }

  lemma NibbleBehind(rest: nat, digit: nat, n: nat)
    requires digit < 16
    ensures Nibble(16 * rest + digit, n) == if n == 0 then digit else Nibble(rest, n - 1)
  {
    assert (16 * rest + digit) / 16 == rest && (16 * rest + digit) % 16 == digit;
  }

  /** Eight texels in a word, the first in the upper four bits. */
  function EightTexels(t: seq<nat>): nat
    requires |t| == 8
  {
    0x1000_0000 * t[0] + 0x100_0000 * t[1] + 0x10_0000 * t[2] + 0x1_0000 * t[3] + 0x1000 * t[4] + 0x100 * t[5] + 0x10 * t[6] + t[7]
  }

  lemma FourTexels(rest: nat, a: nat, b: nat, c: nat, d: nat, n: nat)
    requires a < 16 && b < 16 && c < 16 && d < 16
    ensures Nibble(0x1_0000 * rest + 0x1000 * a + 0x100 * b + 0x10 * c + d, n)
         == if n == 0 then d else if n == 1 then c else if n == 2 then b else if n == 3 then a else Nibble(rest, n - 4)
  {
    var r3 := 16 * rest + a;
    var r2 := 16 * r3 + b;
    var r1 := 16 * r2 + c;
    NibbleBehind(r1, d, n);
    if n > 0 {
      NibbleBehind(r2, c, n - 1);
      if n > 1 {
        NibbleBehind(r3, b, n - 2);
        if n > 2 {
          NibbleBehind(rest, a, n - 3);
        }
      }
    }
  }

  lemma TexelRead(t: seq<nat>, n: nat)
    requires |t| == 8 && n < 8 && forall k :: 0 <= k < 8 ==> t[k] < 16
    ensures Nibble(EightTexels(t), n) == t[7 - n]
  {
    var upper := 0x1000 * t[0] + 0x100 * t[1] + 0x10 * t[2] + t[3];
    FourTexels(upper, t[4], t[5], t[6], t[7], n);
    if n > 3 {
      FourTexels(0, t[0], t[1], t[2], t[3], n - 4);
    }
  }

  /** A picture of 24 by 24 texels. */
  predicate IsPicture(picture: seq<seq<nat>>) {
    |picture| == 24 && forall i :: 0 <= i < 24 ==> |picture[i]| == 24 && forall k :: 0 <= k < 24 ==> picture[i][k] < 16
  }

  /** A picture as the graphics hardware stores four-bit images: tiles of eight by eight, three in a
      row, a word for each row of a tile, its leftmost texel in the upper four bits. */
  predicate Stored(image: seq<U32>, picture: seq<seq<nat>>)
    requires IsPicture(picture)
  {
    |image| == 72 && forall i, tile | 0 <= i < 24 && 0 <= tile < 3 :: TileRow(image, picture, i, tile)
  }

  predicate TileRow(image: seq<U32>, picture: seq<seq<nat>>, i: nat, tile: nat)
    requires IsPicture(picture) && |image| == 72 && i < 24 && tile < 3
  {
    image[24 * (i / 8) + 8 * tile + i % 8] == EightTexels(picture[i][8 * tile..8 * tile + 8])
  }

  /** What is drawn of a stored picture is the picture. */
  lemma PictureShown(image: seq<U32>, picture: seq<seq<nat>>, i: nat, k: nat)
    requires IsPicture(picture) && Stored(image, picture) && i < 24 && k < 24
    ensures Texel(image, i, k) == picture[i][k]
  {
    var digits := picture[i][8 * (k / 8)..8 * (k / 8) + 8];
    assert TileRow(image, picture, i, k / 8);
    TexelRead(digits, NibbleIndex(k));
    assert digits[k % 8] == picture[i][k];
  }

  /** Rows and columns of a character correspond one to one to texels of its 72 words. */
  lemma TexelBijection(i: nat, k: nat, i': nat, k': nat)
    requires i < 24 && k < 24 && i' < 24 && k' < 24
    ensures WordIndex(i, k) < 72
    ensures WordIndex(i, k) == WordIndex(i', k') && NibbleIndex(k) == NibbleIndex(k') ==> i == i' && k == k'
  {
    MixedDigits(i % 8, k / 8, i / 8, i' % 8, k' / 8, i' / 8);
  }

  lemma MixedDigits(a: nat, b: nat, c: nat, a': nat, b': nat, c': nat)
    requires a < 8 && a' < 8 && b < 3 && b' < 3
    ensures a + c * 24 + b * 8 == a' + c' * 24 + b' * 8 <==> a == a' && b == b' && c == c'
  {
  }

  lemma TexelOnto(word: nat, nibble: nat)
    requires word < 72 && nibble < 8
    ensures var i, k := word / 24 * 8 + word % 8, word % 24 / 8 * 8 + (7 - nibble);
            i < 24 && k < 24 && WordIndex(i, k) == word && NibbleIndex(k) == nibble
  {
  }

  // ---------------------------------------------------------------- dots

  /** A texel that is drawn. */
  datatype Dot = Dot(row: nat, column: nat, texel: nat)

  /** The last texel drawn on a pixel, or 0. */
  function Ink(dots: seq<Dot>, row: nat, column: nat): nat {
    if dots == [] then 0
    else
      var last := dots[|dots| - 1];
      if last.row == row && last.column == column then last.texel else Ink(dots[..|dots| - 1], row, column)
  }

  /** A frame, its size and the colour it is drawn on with. */
  datatype Screen = Screen(w: nat, h: nat, color: Yuv) {

    predicate Holds(frame: seq<Byte>) {
      |frame| == 2 * Rows(h, w)
    }

    /** Text may touch this pixel: there is a chroma byte in front of it, of the right lane. */
    predicate Admits(row: nat, column: nat) {
      row < h && column < w && (column >= 1 || (row >= 1 && w % 2 == 0))
    }

    /** The texel drawn on the next pixel, which may be the first of the next row. */
    function InkBehind(dots: seq<Dot>, row: nat, column: nat): nat {
      if column + 1 < w then Ink(dots, row, column + 1) else Ink(dots, row + 1, 0)
    }

    /** What has become of a pixel: its luma is that of the last texel drawn on it, its chroma
        byte has the drawing colour if it or the next pixel was drawn on, and the rest is as before. */
    predicate Shown(before: seq<Byte>, now: seq<Byte>, dots: seq<Dot>, row: nat, column: nat)
      requires Holds(before) && Holds(now) && row < h && column < w
    {
      PixelInside(row, column, w, h);
      var p := 2 * Pixel(row, column, w);
      && now[p] == (if Ink(dots, row, column) != 0 then Luma(color.y, Ink(dots, row, column)) else before[p])
      && now[p + 1] == (if Ink(dots, row, column) != 0 || InkBehind(dots, row, column) != 0 then Lane(color, column)
                        else before[p + 1])
    }

    ghost predicate Rendered(before: seq<Byte>, now: seq<Byte>, dots: seq<Dot>) {
      Holds(before) && Holds(now) && (forall row, column :: 0 <= row < h && 0 <= column < w ==> Shown(before, now, dots, row, column))
    }
  }

  /** The pixel in front of one, in memory. */
  function InFront(row: nat, column: nat, w: nat): (r: (nat, nat))
    requires column >= 1 || (row >= 1 && w >= 1)
    ensures Pixel(r.0, r.1, w) == Pixel(row, column, w) - 1
  {
    if column >= 1 then (row, column - 1) else (row - 1, w - 1)
  }

  /** The three bytes a texel is drawn with. */
  function Drawn(screen: Screen, frame: seq<Byte>, row: nat, column: nat, texel: nat): (r: seq<Byte>)
    requires screen.Holds(frame) && screen.Admits(row, column) && texel < 16
    ensures |r| == |frame|
  {
    PixelInside(row, column, screen.w, screen.h);
    LumaFits(screen.color.y, texel);
    var p := 2 * Pixel(row, column, screen.w);
    frame[p := Luma(screen.color.y, texel)]
         [p - 1 := Lane(screen.color, InFront(row, column, screen.w).1)]
         [p + 1 := Lane(screen.color, column)]
  }

  lemma DrawnAt(screen: Screen, before: seq<Byte>, now: seq<Byte>, dots: seq<Dot>, dot: Dot, row: nat, column: nat)
    requires screen.Holds(before) && screen.Holds(now) && row < screen.h && column < screen.w
    requires screen.Admits(dot.row, dot.column) && 0 < dot.texel < 16
    requires screen.Shown(before, now, dots, row, column)
    ensures screen.Shown(before, Drawn(screen, now, dot.row, dot.column, dot.texel), dots + [dot], row, column)
  {
    var w := screen.w;
    var front := InFront(dot.row, dot.column, w);
    PixelInside(row, column, w, screen.h);
    PixelInside(dot.row, dot.column, w, screen.h);
    PixelInjective(row, column, dot.row, dot.column, w);
    PixelInjective(row, column, front.0, front.1, w);
    InkNext(dots, dot, row, column);
    InkNext(dots, dot, row, column + 1);
    InkNext(dots, dot, row + 1, 0);
  }

  lemma InkNext(dots: seq<Dot>, dot: Dot, row: nat, column: nat)
    ensures Ink(dots + [dot], row, column)
         == if dot.row == row && dot.column == column then dot.texel else Ink(dots, row, column)
  {
    assert (dots + [dot])[..|dots|] == dots;
  }

  /** Drawing one more texel. */
  lemma DrawnNext(screen: Screen, before: seq<Byte>, now: seq<Byte>, dots: seq<Dot>, dot: Dot)
    requires screen.Rendered(before, now, dots)
    requires screen.Admits(dot.row, dot.column) && 0 < dot.texel < 16
    ensures screen.Rendered(before, Drawn(screen, now, dot.row, dot.column, dot.texel), dots + [dot])
  {
    forall row, column | 0 <= row < screen.h && 0 <= column < screen.w
      ensures screen.Shown(before, Drawn(screen, now, dot.row, dot.column, dot.texel), dots + [dot], row, column)
    {
      DrawnAt(screen, before, now, dots, dot, row, column);
    }
  }

  // ---------------------------------------------------------------- characters

  /** The texels of a character's row i before column k that are drawn. */
  function RowDots(image: seq<U32>, y: nat, col: nat, i: nat, k: nat): seq<Dot>
    requires |image| == 72 && i < 24 && k <= 24
    decreases |image| + k
  {
    if k == 0 then [] else RowDots(image, y, col, i, k - 1) + TexelDots(image, y, col, i, k - 1)
  }

  /** Those of its rows before i. */
  function GlyphDots(image: seq<U32>, y: nat, col: nat, i: nat): seq<Dot>
    requires |image| == 72 && i <= 24
    decreases |image| + i
  {
    if i == 0 then [] else GlyphDots(image, y, col, i - 1) + RowDots(image, y, col, i - 1, 24)
  }

  /** A texel is drawn unless it is 0. */
  function TexelDots(image: seq<U32>, y: nat, col: nat, i: nat, k: nat): seq<Dot>
    requires |image| == 72 && i < 24 && k < 24
  {
    if Texel(image, i, k) != 0 then [Dot(y + i, col + k, Texel(image, i, k))] else []
  }

  lemma Grouped(a: seq<Dot>, b: seq<Dot>, c: seq<Dot>)
    ensures (a + b) + c == a + (b + c)
  {
  }

  /** ptr is the address of the character's first pixel, always that of row y, column col. */
  method DrawTexel(screen: Screen, fb: array<Byte>, ptr: int, y: nat, col: nat, image: seq<U32>, i: nat, k: nat)
    requires screen.Holds(fb[..]) && |image| == 72 && i < 24 && k < 24
    requires y + 24 <= screen.h && screen.Admits(y, col) && col + 24 <= screen.w && ptr == 2 * Pixel(y, col, screen.w)
    modifies fb
    ensures fb[..] == if Texel(image, i, k) == 0 then old(fb[..])
                      else Drawn(screen, old(fb[..]), y + i, col + k, Texel(image, i, k))
  {
    var Y := Texel(image, i, k);
    if Y != 0 {
      var pixel := k + i * screen.w;
      OffsetOfTexel(y, col, i, k, screen.w, pixel);
      DrawPixel(screen, fb, ptr + pixel * 2, y + i, col + k, Y);
    }
  }

  method DrawPixel(screen: Screen, fb: array<Byte>, p: int, row: nat, column: nat, texel: nat)
    requires screen.Holds(fb[..]) && screen.Admits(row, column) && 0 < texel < 16
    requires p == 2 * Pixel(row, column, screen.w)
    modifies fb
    ensures fb[..] == Drawn(screen, old(fb[..]), row, column, texel)
  {
    var yuv := screen.color;
    PixelInside(row, column, screen.w, screen.h);
    LumaFits(yuv.y, texel);
    var luma := yuv.y * (texel * 0xEF) / 255 / 15 + 0x10;
    assert 1 <= p < fb.Length - 1;
    if column % 2 == 1 {
      Put(fb, p, luma, yuv.cb, yuv.cr);
    } else {
      Put(fb, p, luma, yuv.cr, yuv.cb);
    }
  }

  /** A pixel's luma and the chroma bytes in front of it and behind it. */
  method Put(fb: array<Byte>, p: int, luma: Byte, front: Byte, behind: Byte)
    requires 1 <= p < fb.Length - 1
    modifies fb
    ensures fb[..] == old(fb[..])[p := luma][p - 1 := front][p + 1 := behind]
  {
    fb[p] := luma;
    fb[p - 1] := front;
    fb[p + 1] := behind;
  }

  lemma OffsetOfTexel(y: nat, col: nat, i: nat, k: nat, w: nat, pixel: int)
    requires pixel == k + i * w
    ensures Pixel(y, col, w) + pixel == Pixel(y + i, col + k, w)
  {
    RowsIsProduct(y, w);
    RowsIsProduct(y + i, w);
    assert (y + i) * w == y * w + i * w;
  }

  method DrawDots(screen: Screen, fb: array<Byte>, ptr: int, y: nat, col: nat, image: seq<U32>, i: nat, k: nat,
                  ghost before: seq<Byte>, ghost dots: seq<Dot>)
    requires screen.Rendered(before, fb[..], dots) && |image| == 72 && i < 24 && k < 24
    requires y + 24 <= screen.h && screen.Admits(y, col) && col + 24 <= screen.w && ptr == 2 * Pixel(y, col, screen.w)
    modifies fb
    ensures screen.Rendered(before, fb[..], dots + TexelDots(image, y, col, i, k))
  {
    ghost var now, t := fb[..], Texel(image, i, k);
    DrawTexel(screen, fb, ptr, y, col, image, i, k);
    if t != 0 {
      DrawnNext(screen, before, now, dots, Dot(y + i, col + k, t));
    } else {
      assert dots + [] == dots;
    }
  }

  method DrawRow(screen: Screen, fb: array<Byte>, ptr: int, y: nat, col: nat, image: seq<U32>, i: nat,
                 ghost before: seq<Byte>, ghost dots: seq<Dot>)
    requires screen.Rendered(before, fb[..], dots) && |image| == 72 && i < 24
    requires y + 24 <= screen.h && screen.Admits(y, col) && col + 24 <= screen.w && ptr == 2 * Pixel(y, col, screen.w)
    modifies fb
    ensures screen.Rendered(before, fb[..], dots + RowDots(image, y, col, i, 24))
  {
    var k := 0;
    assert dots + RowDots(image, y, col, i, k) == dots;
    while k < 24
      invariant 0 <= k <= 24 && screen.Rendered(before, fb[..], dots + RowDots(image, y, col, i, k))
    {
      ghost var drawn := RowDots(image, y, col, i, k);
      DrawDots(screen, fb, ptr, y, col, image, i, k, before, dots + drawn);
      Grouped(dots, drawn, TexelDots(image, y, col, i, k));
      k := k + 1;
    }
  }

  method DrawGlyph(screen: Screen, fb: array<Byte>, ptr: int, y: nat, col: nat, image: seq<U32>,
                   ghost before: seq<Byte>, ghost dots: seq<Dot>)
    requires screen.Rendered(before, fb[..], dots) && |image| == 72
    requires y + 24 <= screen.h && screen.Admits(y, col) && col + 24 <= screen.w && ptr == 2 * Pixel(y, col, screen.w)
    modifies fb
    ensures screen.Rendered(before, fb[..], dots + GlyphDots(image, y, col, 24))
  {
    var i := 0;
    assert dots + GlyphDots(image, y, col, i) == dots;
    while i < 24
      invariant 0 <= i <= 24 && screen.Rendered(before, fb[..], dots + GlyphDots(image, y, col, i))
    {
      ghost var drawn := GlyphDots(image, y, col, i);
      DrawRow(screen, fb, ptr, y, col, image, i, before, dots + drawn);
      Grouped(dots, drawn, RowDots(image, y, col, i, 24));
      i := i + 1;
    }
  }

  // ---------------------------------------------------------------- text

  /** What is drawn of a text whose next character goes to row y, column col, with lines that
      start at column x. A character too far right goes to the next line, and nothing is drawn
      below the last full line. */
  function TextDots(screen: Screen, font: string -> Glyph, s: string, x: nat, y: nat, col: nat, leading: nat): seq<Dot>
    requires leading > 0 && ValidFont(font)
    decreases screen.h - y, |s|
  {
    if screen.h - 24 < y || s == "" then []
    else if s[0] == '\n' then TextDots(screen, font, s[1..], x, y + leading, x, leading)
    else if screen.w - 48 < col then TextDots(screen, font, s, x, y + leading, x, leading)
    else
      var g := font(s);
      assert GlyphFits(font, s);
      GlyphDots(g.image, y, col, 24) + TextDots(screen, font, s[g.length..], x, y, col + g.width, leading)
  }

  /** The whole text. Drawing stays in the frame: every access is in bounds. A text that starts in
      column 0 must not start in row 0, whose first pixel has nothing in front. */
  method ScreenReport(fb: array<Byte>, screen: Screen, font: string -> Glyph, x: nat, y0: nat, leading: nat, text: string)
    requires screen.Holds(fb[..]) && ValidFont(font) && leading > 0
    requires x >= 1 || (y0 >= 1 && screen.w % 2 == 0)
    modifies fb
    ensures screen.Rendered(old(fb[..]), fb[..], TextDots(screen, font, text, x, y0, x, leading))
  {
    var s, y := text, y0;
    var image := new U32[72];
    ghost var before, dots: seq<Dot> := fb[..], [];
    NothingDrawn(screen, before);
    assert dots + TextDots(screen, font, s, x, y, x, leading) == TextDots(screen, font, s, x, y, x, leading);
    while screen.h - 24 >= y
      invariant y >= y0 && screen.Rendered(before, fb[..], dots)
      invariant dots + TextDots(screen, font, s, x, y, x, leading) == TextDots(screen, font, text, x, y0, x, leading)
      decreases screen.h - y
    {
      var done;
      s, done, dots := ReportLine(fb, image, screen, font, x, y, leading, s, before, dots);
      if done {
        assert dots + [] == dots;
        return;
      }
      y := y + leading;
    }
    assert dots + [] == dots;
  }

  /** One line of text, up to a newline, the right margin or the end. */
  method ReportLine(fb: array<Byte>, image: array<U32>, screen: Screen, font: string -> Glyph, x: nat, y: nat, leading: nat, text: string,
                    ghost before: seq<Byte>, ghost dots0: seq<Dot>)
      returns (s: string, done: bool, ghost dots: seq<Dot>)
    requires screen.Rendered(before, fb[..], dots0) && ValidFont(font) && leading > 0 && y + 24 <= screen.h
    requires (x >= 1 || (y >= 1 && screen.w % 2 == 0)) && image.Length == 72 && image as object != fb
    modifies fb, image
    ensures screen.Rendered(before, fb[..], dots)
    ensures dots0 + TextDots(screen, font, text, x, y, x, leading)
         == dots + if done then [] else TextDots(screen, font, s, x, y + leading, x, leading)
  {
    s, dots := text, dots0;
    var col, ptr := x, 2 * Pixel(y, x, screen.w);
    while s != ""
      invariant screen.Rendered(before, fb[..], dots) && col >= x && ptr == 2 * Pixel(y, col, screen.w)
      invariant dots0 + TextDots(screen, font, text, x, y, x, leading) == dots + TextDots(screen, font, s, x, y, col, leading)
      decreases |s|
    {
      if s[0] == '\n' {
        return s[1..], false, dots;
      }
      if screen.w - 48 < col {
        return s, false, dots;
      }
      TextNext(screen, font, s, x, y, col, leading, dots);
      var g := font(s);
      ClearImage(image);
      FontTexel(g.image, image);
      DrawGlyph(screen, fb, ptr, y, col, image[..], before, dots);
      dots := dots + GlyphDots(g.image, y, col, 24);
      s := s[g.length..];
      ptr := ptr + g.width * 2;
      col := col + g.width;
    }
    return s, true, dots;
  }

  /** The bits of either word. */
  function Or(a: U32, b: U32): U32 {
    ((a as bv32) | (b as bv32)) as int
  }

  lemma OrZero(b: U32)
    ensures Or(0, b) == b
  {
    assert (0 as bv32) | (b as bv32) == b as bv32;
  }

  /** OSGetFontTexel draws into the image by adding bits to what is there, so the image must have
      been cleared. */
  method FontTexel(texels: seq<U32>, image: array<U32>)
    requires |texels| == 72 == image.Length && forall n :: 0 <= n < 72 ==> image[n] == 0
    modifies image
    ensures image[..] == texels
  {
    var n := 0;
    while n < 72
      invariant 0 <= n <= 72
      invariant forall k :: 0 <= k < n ==> image[k] == texels[k]
      invariant forall k :: n <= k < 72 ==> image[k] == 0
    {
      OrZero(texels[n]);
      image[n] := Or(image[n], texels[n]);
      n := n + 1;
    }
  }

  lemma TextNext(screen: Screen, font: string -> Glyph, s: string, x: nat, y: nat, col: nat, leading: nat,
                                    dots: seq<Dot>)
    requires leading > 0 && ValidFont(font) && s != "" && s[0] != '\n' && y <= screen.h - 24 && col <= screen.w - 48
    ensures GlyphFits(font, s)
    ensures dots + TextDots(screen, font, s, x, y, col, leading)
         == (dots + GlyphDots(font(s).image, y, col, 24))
            + TextDots(screen, font, s[font(s).length..], x, y, col + font(s).width, leading)
  {
    var g := font(s);
    assert GlyphFits(font, s);
    Grouped(dots, GlyphDots(g.image, y, col, 24), TextDots(screen, font, s[g.length..], x, y, col + g.width, leading));
  }

  lemma NothingDrawn(screen: Screen, frame: seq<Byte>)
    requires screen.Holds(frame)
    ensures screen.Rendered(frame, frame, [])
  {
    forall row, column | 0 <= row < screen.h && 0 <= column < screen.w
      ensures screen.Shown(frame, frame, [], row, column)
    {
    }
  }

  // ---------------------------------------------------------------- what is on the screen

  /** The texel a character shows on a pixel, 0 outside its cell of 24 by 24. */
  function CellTexel(image: seq<U32>, y: nat, col: nat, row: nat, column: nat): nat
    requires |image| == 72
  {
    if y <= row < y + 24 && col <= column < col + 24 then Texel(image, row - y, column - col) else 0
  }

  /** After a character a pixel shows the character's texel unless that is 0. */
  lemma InkOfGlyph(dots: seq<Dot>, image: seq<U32>, y: nat, col: nat, row: nat, column: nat)
    requires |image| == 72
    ensures var t := CellTexel(image, y, col, row, column);
            Ink(dots + GlyphDots(image, y, col, 24), row, column) == if t != 0 then t else Ink(dots, row, column)
  {
    InkOfRows(dots, image, y, col, 24, row, column);
  }

  /** And of a character stored from a picture, the picture. */
  lemma PictureInk(dots: seq<Dot>, image: seq<U32>, picture: seq<seq<nat>>, y: nat, col: nat, i: nat, k: nat)
    requires IsPicture(picture) && Stored(image, picture) && i < 24 && k < 24
    ensures Ink(dots + GlyphDots(image, y, col, 24), y + i, col + k)
         == if picture[i][k] != 0 then picture[i][k] else Ink(dots, y + i, col + k)
  {
    InkOfCell(dots, image, y, col, i, k);
    PictureShown(image, picture, i, k);
  }

  lemma InkOfCell(dots: seq<Dot>, image: seq<U32>, y: nat, col: nat, i: nat, k: nat)
    requires |image| == 72 && i < 24 && k < 24
    ensures Ink(dots + GlyphDots(image, y, col, 24), y + i, col + k)
         == if Texel(image, i, k) != 0 then Texel(image, i, k) else Ink(dots, y + i, col + k)
  {
    InkOfGlyph(dots, image, y, col, y + i, col + k);
    assert CellTexel(image, y, col, y + i, col + k) == Texel(image, i, k);
  }

  // Where the characters of a text go, in a font whose characters have one width.

  /** How a text is laid out: where its lines start and end, and the width of a character. A line takes
      `across` characters: the last one starts 48 pixels or more in front of the right edge, and the
      next one would not. */
  datatype Layout = Layout(x: nat, y: nat, leading: nat, width: nat, across: nat) {

    predicate Fits(screen: Screen) {
      leading > 0 && across > 0 && x + (across - 1) * width <= screen.w - 48 < x + across * width
    }

    /** The lines taken by this many characters and the newline behind them. */
    function Lines(count: nat): nat
      requires across > 0
    {
      if count == 0 then 1 else (count - 1) / across + 1
    }
  }

  ghost predicate Monospaced(font: string -> Glyph, width: nat) {
    forall s :: s != "" ==> font(s).length == 1 && font(s).width == width
  }

  /** Where character n starts. */
  function RowOf(l: Layout, n: nat): int
    requires l.across > 0
  {
    l.y + n / l.across * l.leading
  }

  function ColumnOf(l: Layout, n: nat): int
    requires l.across > 0
  {
    l.x + n % l.across * l.width
  }

  lemma NextPlace(n: nat, across: nat)
    requires across > 0
    ensures if n % across + 1 < across then (n + 1) / across == n / across && (n + 1) % across == n % across + 1
            else (n + 1) / across == n / across + 1 && (n + 1) % across == 0
  {
    if n % across + 1 < across {
      Arithmetic.ModUnique(n + 1, across, n / across, n % across + 1);
    } else {
      assert n + 1 == across * (n / across + 1);
      Arithmetic.ModUnique(n + 1, across, n / across + 1, 0);
    }
  }

  /** Characters start on the screen; behind one, the next place follows, or the line is full. */
  lemma PlaceFits(screen: Screen, l: Layout, n: nat)
    requires l.Fits(screen)
    ensures l.y <= RowOf(l, n) && l.x <= ColumnOf(l, n) <= screen.w - 48
    ensures if n % l.across + 1 < l.across then RowOf(l, n + 1) == RowOf(l, n) && ColumnOf(l, n + 1) == ColumnOf(l, n) + l.width
            else RowOf(l, n + 1) == RowOf(l, n) + l.leading && ColumnOf(l, n + 1) == l.x
                 && screen.w - 48 < ColumnOf(l, n) + l.width
  {
    var r, c := n / l.across, n % l.across;
    Arithmetic.Floor(n, l.across);
    PlaceAt(screen, l, r, c);
    NextPlace(n, l.across);
  }

  lemma PlaceAt(screen: Screen, l: Layout, r: nat, c: nat)
    requires l.Fits(screen) && c < l.across
    ensures r * l.leading >= 0 && c * l.width >= 0 && l.x + c * l.width <= screen.w - 48
    ensures (r + 1) * l.leading == r * l.leading + l.leading && (c + 1) * l.width == c * l.width + l.width
    ensures c + 1 == l.across ==> screen.w - 48 < l.x + c * l.width + l.width
  {
    Arithmetic.Monotone(c, l.across - 1, l.width);
    Arithmetic.Monotone(0, r, l.leading);
    Arithmetic.Monotone(0, c, l.width);
  }

  /** The line behind m characters and a newline. */
  function RowBehind(l: Layout, m: nat): int
    requires l.across > 0
  {
    l.y + l.Lines(m) * l.leading
  }

  lemma LinesGrow(l: Layout, n: nat, m: nat)
    requires l.across > 0 && n <= m
    ensures RowBehind(l, m) >= l.y + l.leading
    ensures n < m ==> RowBehind(l, m) >= RowOf(l, n) + l.leading && (n + 1 == m ==> RowBehind(l, m) == RowOf(l, n) + l.leading)
  {
    if m > 0 {
      var last := (m - 1) / l.across;
      Arithmetic.Floor(m - 1, l.across);
      Arithmetic.Monotone(0, last, l.leading);
      assert (last + 1) * l.leading == last * l.leading + l.leading;
      if n < m {
        DivMonotone(n, m - 1, l.across);
        Arithmetic.Monotone(n / l.across, last, l.leading);
      }
    }
  }

  lemma DivMonotone(a: nat, b: nat, m: nat)
    requires m > 0 && a <= b
    ensures a / m <= b / m
  {
    var x, y := a / m, b / m;
    Arithmetic.Floor(a, m);
    Arithmetic.Floor(b, m);
    if y < x {
      Arithmetic.Monotone(y + 1, x, m);
    }
  }

  /** Characters n to m of a text: character k goes to line k / across, place k % across, up to the first
      line that would not be whole. */
  function GridDots(screen: Screen, font: string -> Glyph, s: string, l: Layout, n: nat, m: nat): seq<Dot>
    requires n <= m <= |s| && l.Fits(screen) && ValidFont(font)
    decreases m - n
  {
    if n == m || RowOf(l, n) + 24 > screen.h then []
    else CharacterDots(screen, font, s, l, n) + GridDots(screen, font, s, l, n + 1, m)
  }

  function CharacterDots(screen: Screen, font: string -> Glyph, s: string, l: Layout, n: nat): seq<Dot>
    requires n < |s| && l.Fits(screen) && ValidFont(font)
  {
    PlaceFits(screen, l, n);
    assert GlyphFits(font, s[n..]);
    GlyphDots(font(s[n..]).image, RowOf(l, n), ColumnOf(l, n), 24)
  }

  /** What is drawn of a text from character n on, and from the line behind character m on. */
  function DotsFrom(screen: Screen, font: string -> Glyph, s: string, l: Layout, n: nat): seq<Dot>
    requires n <= |s| && l.Fits(screen) && ValidFont(font)
  {
    PlaceFits(screen, l, n);
    TextDots(screen, font, s[n..], l.x, RowOf(l, n), ColumnOf(l, n), l.leading)
  }

  function DotsBehind(screen: Screen, font: string -> Glyph, s: string, l: Layout, m: nat): seq<Dot>
    requires m <= |s| && l.Fits(screen) && ValidFont(font)
  {
    LinesGrow(l, m, m);
    if m == |s| then [] else TextDots(screen, font, s[m + 1..], l.x, RowBehind(l, m), l.x, l.leading)
  }

  /** Below the last whole line nothing is drawn. */
  lemma NothingBelow(screen: Screen, font: string -> Glyph, s: string, l: Layout, n: nat, m: nat)
    requires l.Fits(screen) && ValidFont(font) && n < m <= |s| && RowOf(l, n) + 24 > screen.h
    ensures DotsFrom(screen, font, s, l, n) == [] && DotsBehind(screen, font, s, l, m) == []
  {
    LinesGrow(l, n, m);
  }

  /** Character n, and where the text goes on behind it. */
  lemma CharacterDrawn(screen: Screen, font: string -> Glyph, s: string, l: Layout, n: nat, m: nat)
    requires l.Fits(screen) && ValidFont(font) && Monospaced(font, l.width) && RowOf(l, n) + 24 <= screen.h
    requires n < m <= |s| && (m < |s| ==> s[m] == '\n') && forall i :: 0 <= i < m ==> s[i] != '\n'
    ensures DotsFrom(screen, font, s, l, n)
         == CharacterDots(screen, font, s, l, n)
            + if n + 1 < m then DotsFrom(screen, font, s, l, n + 1) else DotsBehind(screen, font, s, l, m)
  {
    PlaceFits(screen, l, n);
    assert s[n..][1..] == s[n + 1..];
    assert DotsFrom(screen, font, s, l, n)
        == CharacterDots(screen, font, s, l, n)
           + TextDots(screen, font, s[n + 1..], l.x, RowOf(l, n), ColumnOf(l, n) + l.width, l.leading);
    GoesOn(screen, font, s, l, n, m);
  }

  lemma GoesOn(screen: Screen, font: string -> Glyph, s: string, l: Layout, n: nat, m: nat)
    requires l.Fits(screen) && ValidFont(font) && l.y <= RowOf(l, n) && RowOf(l, n) + 24 <= screen.h && l.x <= ColumnOf(l, n)
    requires n < m <= |s| && (m < |s| ==> s[m] == '\n') && (n + 1 < m ==> s[n + 1] != '\n')
    ensures TextDots(screen, font, s[n + 1..], l.x, RowOf(l, n), ColumnOf(l, n) + l.width, l.leading)
         == if n + 1 < m then DotsFrom(screen, font, s, l, n + 1) else DotsBehind(screen, font, s, l, m)
  {
    PlaceFits(screen, l, n);
    LinesGrow(l, n, m);
    if n + 1 < |s| {
      assert s[n + 1..][1..] == s[n + 2..] && s[n + 1..][0] == s[n + 1];
    }
  }

  /** What is drawn of a text: its first line, wrapped at the margin as a grid, and what is behind the
      newline, on the lines behind the ones that the first has taken. */
  lemma {:induction false} TextIsGrid(screen: Screen, font: string -> Glyph, s: string, l: Layout, m: nat)
    requires l.Fits(screen) && ValidFont(font) && Monospaced(font, l.width)
    requires m <= |s| && (m < |s| ==> s[m] == '\n') && forall i :: 0 <= i < m ==> s[i] != '\n'
    ensures TextDots(screen, font, s, l.x, l.y, l.x, l.leading)
         == GridDots(screen, font, s, l, 0, m)
            + if m == |s| then [] else TextDots(screen, font, s[m + 1..], l.x, RowBehind(l, m), l.x, l.leading)
  {
    LinesGrow(l, m, m);
    FirstPlace(l);
    assert s[0..] == s;
    if m > 0 {
      LineIsGrid(screen, font, s, l, 0, m);
    }
  }

  lemma FirstPlace(l: Layout)
    requires l.across > 0
    ensures RowOf(l, 0) == l.y && ColumnOf(l, 0) == l.x && RowBehind(l, 0) == l.y + l.leading
  {
  }

  lemma {:induction false} LineIsGrid(screen: Screen, font: string -> Glyph, s: string, l: Layout, n: nat, m: nat)
    requires l.Fits(screen) && ValidFont(font) && Monospaced(font, l.width)
    requires n < m <= |s| && (m < |s| ==> s[m] == '\n') && forall i :: 0 <= i < m ==> s[i] != '\n'
    ensures DotsFrom(screen, font, s, l, n) == GridDots(screen, font, s, l, n, m) + DotsBehind(screen, font, s, l, m)
    decreases m - n
  {
    if RowOf(l, n) + 24 > screen.h {
      NothingBelow(screen, font, s, l, n, m);
    } else {
      CharacterDrawn(screen, font, s, l, n, m);
      if n + 1 < m {
        LineIsGrid(screen, font, s, l, n + 1, m);
        Grouped(CharacterDots(screen, font, s, l, n), GridDots(screen, font, s, l, n + 1, m), DotsBehind(screen, font, s, l, m));
      }
    }
  }

  lemma {:induction false} InkOfRows(dots: seq<Dot>, image: seq<U32>, y: nat, col: nat, i: nat, row: nat, column: nat)
    requires |image| == 72 && i <= 24
    ensures var t := CellTexel(image, y, col, row, column);
            Ink(dots + GlyphDots(image, y, col, i), row, column) == if t != 0 && row < y + i then t else Ink(dots, row, column)
    decreases i
  {
    if i == 0 {
      assert dots + [] == dots;
    } else {
      InkOfRows(dots, image, y, col, i - 1, row, column);
      InkOfRow(dots + GlyphDots(image, y, col, i - 1), image, y, col, i - 1, 24, row, column);
      Grouped(dots, GlyphDots(image, y, col, i - 1), RowDots(image, y, col, i - 1, 24));
    }
  }

  lemma {:induction false} InkOfRow(dots: seq<Dot>, image: seq<U32>, y: nat, col: nat, i: nat, k: nat, row: nat, column: nat)
    requires |image| == 72 && i < 24 && k <= 24
    ensures var t := CellTexel(image, y, col, row, column);
            Ink(dots + RowDots(image, y, col, i, k), row, column)
            == if t != 0 && row == y + i && column < col + k then t else Ink(dots, row, column)
    decreases k
  {
    if k == 0 {
      assert dots + [] == dots;
    } else {
      InkOfRow(dots, image, y, col, i, k - 1, row, column);
      InkOfTexel(dots + RowDots(image, y, col, i, k - 1), image, y, col, i, k - 1, row, column);
      Grouped(dots, RowDots(image, y, col, i, k - 1), TexelDots(image, y, col, i, k - 1));
    }
  }

  lemma InkOfTexel(dots: seq<Dot>, image: seq<U32>, y: nat, col: nat, i: nat, k: nat, row: nat, column: nat)
    requires |image| == 72 && i < 24 && k < 24
    ensures var t := CellTexel(image, y, col, row, column);
            Ink(dots + TexelDots(image, y, col, i, k), row, column)
            == if t != 0 && row == y + i && column == col + k then t else Ink(dots, row, column)
  {
    var t := Texel(image, i, k);
    if t != 0 {
      InkNext(dots, Dot(y + i, col + k, t), row, column);
    } else {
      assert dots + [] == dots;
    }
  }

  /** What a byte of a frame may hold: luma, Cb, luma, Cr. */
  predicate InLane(color: Yuv, frame: seq<Byte>, b: nat)
    requires b < |frame|
  {
    b % 4 == 0 || b % 4 == 2 || (b % 4 == 1 && frame[b] == color.cb) || (b % 4 == 3 && frame[b] == color.cr)
  }

  /** A frame of n pairs of pixels of one colour. */
  function Cleared(color: Yuv, n: nat): (frame: seq<Byte>)
    ensures |frame| == 4 * n
  {
    if n == 0 then [] else Cleared(color, n - 1) + [color.y, color.cb, color.y, color.cr]
  }

  lemma {:induction false} ClearedInLane(color: Yuv, n: nat, b: nat)
    requires b < 4 * n
    ensures InLane(color, Cleared(color, n), b)
  {
    if b < 4 * (n - 1) {
      ClearedInLane(color, n - 1, b);
    }
  }

  /** After clearing and drawing, whatever the text, the bytes at 1 modulo 4 hold a Cb value and
      those at 3 modulo 4 a Cr value, of the background or of the text. */
  lemma {:induction false} LanesKept(screen: Screen, before: seq<Byte>, now: seq<Byte>, dots: seq<Dot>, background: Yuv, b: nat)
    requires screen.w % 2 == 0 && b < |now|
    requires before == Cleared(background, |before| / 4) && screen.Rendered(before, now, dots)
    ensures InLane(background, now, b) || InLane(screen.color, now, b)
  {
    if b % 2 == 1 {
      ClearedInLane(background, |before| / 4, b);
      var row, column := PixelOf(b / 2, screen.w, screen.h);
      LaneOfByte(row, column, screen.w);
      assert screen.Shown(before, now, dots, row, column);
    }
  }

  /** Every pixel has a row and a column. */
  lemma {:induction false} PixelOf(p: nat, w: nat, h: nat) returns (row: nat, column: nat)
    requires p < Rows(h, w)
    ensures row < h && column < w && Pixel(row, column, w) == p
    decreases h
  {
    if p >= Rows(h - 1, w) {
      row, column := h - 1, p - Rows(h - 1, w);
    } else {
      row, column := PixelOf(p, w, h - 1);
    }
  }

  /** The pairs of pixels that the loops of ScreenClear write: a row of odd width takes one more. */
  function ClearedPairs(w: nat, h: nat): nat {
    Rows(h, (w + 1) / 2)
  }

  /** The bytes written are those of the frame exactly when its rows are even (or there are none). */
  lemma {:induction false} ClearExact(w: nat, h: nat)
    ensures 4 * ClearedPairs(w, h) >= 2 * Rows(h, w)
    ensures 4 * ClearedPairs(w, h) == 2 * Rows(h, w) <==> w % 2 == 0 || h == 0
  {
    if h > 0 {
      ClearExact(w, h - 1);
    }
  }

  /** Four bytes for two pixels, row after row. */
  method ScreenClear(xfb: array<Byte>, xfbW: nat, xfbH: nat, yuv: Yuv)
    requires 4 * ClearedPairs(xfbW, xfbH) <= xfb.Length
    modifies xfb
    ensures xfb[..4 * ClearedPairs(xfbW, xfbH)] == Cleared(yuv, ClearedPairs(xfbW, xfbH))
    ensures xfb[4 * ClearedPairs(xfbW, xfbH)..] == old(xfb[4 * ClearedPairs(xfbW, xfbH)..])
  {
    var pairs, i := 0, 0;
    ghost var half := (xfbW + 1) / 2;
    while i < xfbH
      invariant 0 <= i <= xfbH && pairs == Rows(i, half) <= Rows(xfbH, half)
      invariant xfb[..4 * pairs] == Cleared(yuv, pairs)
      invariant xfb[4 * Rows(xfbH, half)..] == old(xfb[4 * Rows(xfbH, half)..])
    {
      PixelsInside(i, half, xfbH);
      pairs := ClearRow(xfb, pairs, xfbW, yuv, 4 * Rows(xfbH, half));
      i := i + 1;
    }
  }

  lemma {:induction false} PixelsInside(row: nat, w: nat, h: nat)
    requires row < h
    ensures Rows(row, w) + w <= Rows(h, w)
    decreases h
  {
    if row < h - 1 {
      PixelsInside(row, w, h - 1);
    }
  }

  /** The pointer is four times the number of pairs written. Nothing from `end` on is touched. */
  method ClearRow(xfb: array<Byte>, pairs0: nat, xfbW: nat, yuv: Yuv, ghost end: nat) returns (pairs: nat)
    requires 4 * (pairs0 + (xfbW + 1) / 2) <= end <= xfb.Length && xfb[..4 * pairs0] == Cleared(yuv, pairs0)
    modifies xfb
    ensures pairs == pairs0 + (xfbW + 1) / 2 && xfb[..4 * pairs] == Cleared(yuv, pairs)
    ensures xfb[end..] == old(xfb[end..])
  {
    pairs := pairs0;
    var j := 0;
    while j < xfbW
      invariant 0 <= j <= xfbW + 1 && j == 2 * (pairs - pairs0)
      invariant xfb[..4 * pairs] == Cleared(yuv, pairs) && xfb[end..] == old(xfb[end..])
    {
      ClearPair(xfb, pairs, yuv, end);
      pairs := pairs + 1;
      j := j + 2;
    }
  }

  method ClearPair(xfb: array<Byte>, pairs: nat, yuv: Yuv, ghost end: nat)
    requires 4 * pairs + 4 <= end <= xfb.Length && xfb[..4 * pairs] == Cleared(yuv, pairs)
    modifies xfb
    ensures xfb[..4 * (pairs + 1)] == Cleared(yuv, pairs + 1)
    ensures xfb[end..] == old(xfb[end..])
  {
    var ptr := 4 * pairs;
    xfb[ptr] := yuv.y;
    xfb[ptr + 1] := yuv.cb;
    xfb[ptr + 2] := yuv.y;
    xfb[ptr + 3] := yuv.cr;
    assert xfb[..ptr] == Cleared(yuv, pairs);
    assert xfb[..ptr + 4] == xfb[..ptr] + [yuv.y, yuv.cb, yuv.y, yuv.cr];
  }

  /** The words of the image that the loop of ScreenReport clears before each character: all of them. */
  method ClearImage(image: array<U32>)
    requires image.Length == 72
    modifies image
    ensures forall n :: 0 <= n < 72 ==> image[n] == 0
  {
    var i := 0;
    while i < 24
      invariant 0 <= i <= 24
      invariant forall n :: 0 <= n < 72 && n / 24 * 8 + n % 8 < i ==> image[n] == 0
    {
      var j := i % 8 + i / 8 * 24;
      image[j] := 0;
      image[j + 8] := 0;
      image[j + 16] := 0;
      i := i + 1;
    }
  }
}
